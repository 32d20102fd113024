/** The dictionary filter: the raw lines of the word file minus the possessive
    forms (lines ending in `'s`). */
module Lexicon {

  /** `strings.HasSuffix(line, "'s")`: the line ends with an apostrophe followed by `s`. */
  predicate IsPossessive(line: string)
  {
    |line| >= 2 && line[|line| - 2..] == "'s"
  }

  /** The non-possessive lines, in order. The definition peels off the last line,
      the way the append loop of `FilterPlurals` grows its result. */
  function Filtered(lines: seq<string>): (r: seq<string>)
  {
    if lines == [] then []
    else
      var rest := Filtered(lines[..|lines| - 1]);
      var last := lines[|lines| - 1];
      if IsPossessive(last) then rest else rest + [last]
  }

  /** The positions of the non-possessive lines, in increasing order: an independent
      description of which lines the filter keeps. */
  function KeptPositions(lines: seq<string>): (r: seq<nat>)
    ensures forall k :: 0 <= k < |r| ==> r[k] < |lines| && !IsPossessive(lines[r[k]])
    ensures forall k, l :: 0 <= k < l < |r| ==> r[k] < r[l]
    ensures forall i :: 0 <= i < |lines| && !IsPossessive(lines[i]) ==> i in r
  {
    if lines == [] then []
    else
      var rest := KeptPositions(lines[..|lines| - 1]);
      if IsPossessive(lines[|lines| - 1]) then rest else rest + [|lines| - 1]
  }

  /** The filter keeps exactly the lines at the non-possessive positions, in their
      original order: output element k is input line `KeptPositions(lines)[k]`. */
  lemma {:induction false} FilteredSelectsKeptPositions(lines: seq<string>)
    ensures |Filtered(lines)| == |KeptPositions(lines)|
    ensures forall k :: 0 <= k < |Filtered(lines)| ==>
              Filtered(lines)[k] == lines[KeptPositions(lines)[k]]
  {
    if lines != [] {
      var init, last := lines[..|lines| - 1], lines[|lines| - 1];
      FilteredSelectsKeptPositions(init);
      var f, ps := Filtered(init), KeptPositions(init);
      assert forall k :: 0 <= k < |f| ==> f[k] == lines[ps[k]] by {
        forall k | 0 <= k < |f| ensures f[k] == lines[ps[k]] {
          assert f[k] == init[ps[k]];
        }
      }
      if !IsPossessive(last) {
        assert Filtered(lines) == f + [last];
        assert KeptPositions(lines) == ps + [|lines| - 1];
      }
    }
  }

  /** Every line the filter returns occurs verbatim in the input and is not possessive. */
  lemma FilteredIsClean(lines: seq<string>)
    ensures forall w :: w in Filtered(lines) ==> w in lines && !IsPossessive(w)
  {
  }

  /** `filterPlurals`: a loop that appends every line not ending in `'s`. */
  method FilterPlurals(fileData: seq<string>) returns (data: seq<string>)
    ensures data == Filtered(fileData)
  {
    data := [];
    for i := 0 to |fileData|
      invariant data == Filtered(fileData[..i])
    {
      assert fileData[..i + 1][..i] == fileData[..i];
      var line := fileData[i];
      if !IsPossessive(line) {
        data := data + [line];
      }
    }
    assert fileData[..|fileData|] == fileData;
  }
}

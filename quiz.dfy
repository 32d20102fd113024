/** The quiz: the pool is shown, reshuffled, its last `missingWordsNumber` words are
    hidden, and the player types guesses until all are found or they type `BYE`.

    `points` counts correct guesses, not distinct words: the answer list is never
    changed, so a word already credited is credited again each time it is typed. */
module Quiz {
  import opened Shuffling
  import opened WordPool

  datatype Option<T> = None | Some(value: T)

  /** The guess that ends the game at the player's request. */
  const Bye: string := "BYE"

  /** The variables of the guess loop. */
  datatype Progress = Progress(points: int, keepGoing: bool)

  /** Where the loop stands after a run of guesses: its variables and how many
      guesses it read. */
  datatype Ending = Ending(final: Progress, used: nat)

  /** `keepGoing := true; points := 0` before the first guess. */
  const Start: Progress := Progress(0, true)

  /** The inner loop over `missingWords` (it has no `break`): does the guess equal
      any of the hidden words? */
  method IsMissing(missingWords: seq<string>, text: string) returns (valid: bool)
    ensures valid <==> text in missingWords
  {
    valid := false;
    for i := 0 to |missingWords|
      invariant valid <==> text in missingWords[..i]
    {
      assert missingWords[..i + 1] == missingWords[..i] + [missingWords[i]];
      if missingWords[i] == text {
        valid := true;
      }
    }
    assert missingWords[..|missingWords|] == missingWords;
  }

  /** One pass of the guess loop for the trimmed guess `text`. */
  function Step(p: Progress, missingWords: seq<string>, m: int, text: string): (r: Progress)
    ensures p.points <= r.points <= p.points + 1
    ensures r.points == p.points + 1 <==> text != Bye && text in missingWords
    ensures r.keepGoing <==> p.keepGoing && text != Bye && r.points != m
  {
    if text == Bye then Progress(p.points, false)
    else
      var points := if text in missingWords then p.points + 1 else p.points;
      Progress(points, if points == m then false else p.keepGoing)
  }

  /** The guess loop over the guesses available: it stops when `keepGoing` is
      false or when no guess is left. */
  function Run(p: Progress, missingWords: seq<string>, m: int, guesses: seq<string>): (r: Ending)
    ensures r.used <= |guesses|
    ensures r.final.keepGoing ==> r.used == |guesses|
    decreases |guesses|
  {
    if !p.keepGoing || guesses == [] then Ending(p, 0)
    else
      var r := Run(Step(p, missingWords, m, guesses[0]), missingWords, m, guesses[1..]);
      Ending(r.final, r.used + 1)
  }

  /** The answers are listed only when the score falls short. */
  function Reported(p: Progress, m: int, missingWords: seq<string>): (r: Option<seq<string>>)
    ensures r.Some? <==> p.points != m
    ensures r.Some? ==> r.value == missingWords
  {
    if p.points != m then Some(missingWords) else None
  }

  /** The loop's invariant: `0 <= points <= m`, and a loop that is still going has
      not reached m, except before the first guess when nothing is missing. */
  predicate InRange(p: Progress, m: int)
  {
    0 <= p.points <= m && (p.keepGoing && p.points == m ==> m == 0)
  }

  /** One guess keeps the invariant and never lowers the score. */
  lemma StepKeepsInRange(p: Progress, missingWords: seq<string>, m: int, text: string)
    requires InRange(p, m) && p.keepGoing && |missingWords| == m
    ensures InRange(Step(p, missingWords, m, text), m)
    ensures Step(p, missingWords, m, text).points >= p.points
  {
  }

  /** Any run of guesses keeps the invariant and never lowers the score. */
  lemma {:induction false} RunKeepsInRange(p: Progress, missingWords: seq<string>, m: int, guesses: seq<string>)
    requires InRange(p, m) && |missingWords| == m
    ensures InRange(Run(p, missingWords, m, guesses).final, m)
    ensures Run(p, missingWords, m, guesses).final.points >= p.points
    decreases |guesses|
  {
    if p.keepGoing && guesses != [] {
      StepKeepsInRange(p, missingWords, m, guesses[0]);
      RunKeepsInRange(Step(p, missingWords, m, guesses[0]), missingWords, m, guesses[1..]);
    }
  }

  /** When the loop has ended, the answers are reported exactly when the last guess
      read was `BYE` and at least one word was hidden: reaching the target never
      reports them, and quitting before it always does. */
  lemma {:induction false} ReportedExactlyAfterBye(p: Progress, missingWords: seq<string>, m: int, guesses: seq<string>)
    requires InRange(p, m) && p.keepGoing && |missingWords| == m
    ensures var r := Run(p, missingWords, m, guesses);
      !r.final.keepGoing ==>
        0 < r.used &&
        (Reported(r.final, m, missingWords).Some? <==> guesses[r.used - 1] == Bye && m != 0)
    decreases |guesses|
  {
    var r := Run(p, missingWords, m, guesses);
    if guesses != [] {
      var q := Step(p, missingWords, m, guesses[0]);
      StepKeepsInRange(p, missingWords, m, guesses[0]);
      if q.keepGoing {
        ReportedExactlyAfterBye(q, missingWords, m, guesses[1..]);
        var r' := Run(q, missingWords, m, guesses[1..]);
        assert !r.final.keepGoing ==> guesses[r.used - 1] == guesses[1..][r'.used - 1];
      } else {
        assert Run(q, missingWords, m, guesses[1..]) == Ending(q, 0);
      }
    }
  }

  /** Guesses that each name some hidden word (none of them `BYE`) raise the score
      by one each, and the loop stops at the guess that reaches the target. */
  lemma {:induction false} CorrectGuessesWin(p: Progress, missingWords: seq<string>, m: int, guesses: seq<string>)
    requires p.keepGoing && 0 <= p.points && p.points + |guesses| == m && guesses != []
    requires forall k :: 0 <= k < |guesses| ==> guesses[k] in missingWords && guesses[k] != Bye
    ensures Run(p, missingWords, m, guesses) == Ending(Progress(m, false), |guesses|)
    decreases |guesses|
  {
    var q := Step(p, missingWords, m, guesses[0]);
    assert q.points == p.points + 1;
    if |guesses| == 1 {
      assert Run(q, missingWords, m, guesses[1..]) == Ending(q, 0);
    } else {
      CorrectGuessesWin(q, missingWords, m, guesses[1..]);
    }
  }

  /** Typing every hidden word once, in any order, ends the game with full score. */
  lemma EachHiddenWordOnceWins(missingWords: seq<string>, guesses: seq<string>)
    requires missingWords != [] && Bye !in missingWords
    requires multiset(guesses) == multiset(missingWords)
    ensures Run(Start, missingWords, |missingWords|, guesses)
         == Ending(Progress(|missingWords|, false), |missingWords|)
  {
    assert |guesses| == |multiset(guesses)| == |missingWords|;
    forall k | 0 <= k < |guesses|
      ensures guesses[k] in missingWords && guesses[k] != Bye
    {
      assert guesses[k] in multiset(guesses);
    }
    CorrectGuessesWin(Start, missingWords, |missingWords|, guesses);
  }

  /** A hidden word typed again after it was credited is credited again: typing one
      hidden word m times wins, whatever the other hidden words are. */
  lemma RepeatedGuessCreditedEachTime(missingWords: seq<string>, m: nat, w: string)
    requires w in missingWords && w != Bye && m > 0
    ensures Run(Start, missingWords, m, seq(m, _ => w)) == Ending(Progress(m, false), m)
  {
    CorrectGuessesWin(Start, missingWords, m, seq(m, _ => w));
  }

  /** With no hidden word, the first guess, whatever it is, ends the game. */
  lemma NothingHiddenEndsAtFirstGuess(guesses: seq<string>)
    requires guesses != []
    ensures Run(Start, [], 0, guesses) == Ending(Progress(0, false), 1)
  {
  }

  /** The game's state: the pool array (the backing array of the `randomWords`
      slice), the length of the visible slice, the hidden words, and the guess
      loop's two variables. */
  class Game {
    const missingWordsNumber: nat
    const randomWords: array<string>
    var visible: nat
    var missingWords: seq<string>
    var points: int
    var keepGoing: bool

    /** `missingWords` is the part of the pool behind the visible prefix, which is
        the whole pool before the words are hidden and all but the last
        `missingWordsNumber` after; the score stays in range. */
    ghost predicate Valid()
      reads this, randomWords
    {
      && missingWordsNumber < randomWords.Length
      && (visible == randomWords.Length || visible == randomWords.Length - missingWordsNumber)
      && missingWords == randomWords[visible..]
      && InRange(Progress(points, keepGoing), missingWordsNumber)
    }

    /** The guessing phase: the last `missingWordsNumber` words are hidden. */
    ghost predicate Hidden()
      reads this, randomWords
    {
      Valid() && visible == randomWords.Length - missingWordsNumber
    }

    /** A game over a freshly drawn pool, all of it visible. */
    constructor (pool: seq<string>, missingWordsNumber: nat)
      requires missingWordsNumber < |pool|
      ensures Valid() && fresh(randomWords)
      ensures randomWords[..] == pool && visible == |pool| && missingWords == []
      ensures this.missingWordsNumber == missingWordsNumber
      ensures points == 0 && keepGoing
    {
      this.missingWordsNumber := missingWordsNumber;
      randomWords := new string[|pool|](i requires 0 <= i < |pool| => pool[i]);
      visible := |pool|;
      missingWords := [];
      points, keepGoing := 0, true;
    }

    /** `shuffle(randomWords)` while the whole pool is still visible. */
    method Reshuffle(js: seq<nat>)
      requires Valid() && visible == randomWords.Length
      requires FullRun(randomWords.Length, js)
      modifies randomWords
      ensures Valid()
      ensures randomWords[..] == Shuffled(old(randomWords[..]), js, |js|)
      ensures multiset(randomWords[..]) == multiset(old(randomWords[..]))
    {
      Shuffle(randomWords, js);
      ShuffledIsPermutation(old(randomWords[..]), js, |js|);
    }

    /** The split: the last `missingWordsNumber` words become `missingWords`, the
        rest stay visible. */
    method Hide()
      requires Valid() && visible == randomWords.Length
      modifies this`visible, this`missingWords
      ensures Hidden()
      ensures (randomWords[..visible], missingWords) == Split(randomWords[..], missingWordsNumber)
    {
      visible := randomWords.Length - missingWordsNumber;
      missingWords := randomWords[visible..];
    }

    /** One guess: `BYE` stops the loop; any other guess scores a point when it
        equals some hidden word, and the loop stops once the score reaches the
        number of hidden words. The hidden words are not touched. */
    method Guess(text: string)
      requires Hidden() && keepGoing
      modifies this`points, this`keepGoing
      ensures Hidden()
      ensures Progress(points, keepGoing) == Step(Progress(old(points), old(keepGoing)), missingWords, missingWordsNumber, text)
      ensures text == Bye ==> points == old(points) && !keepGoing
      ensures text != Bye ==> points == old(points) + (if text in missingWords then 1 else 0)
      ensures text != Bye ==> (keepGoing <==> points != missingWordsNumber)
      ensures missingWords == old(missingWords)
    {
      StepKeepsInRange(Progress(points, keepGoing), missingWords, missingWordsNumber, text);
      if text == Bye {
        keepGoing := false;
      } else {
        var valid := IsMissing(missingWords, text);
        if valid {
          points := points + 1;
        }
        if points == missingWordsNumber {
          keepGoing := false;
        }
      }
    }

    /** The guess loop, fed from `guesses` until it stops or they run out; `used`
        is the number of guesses read. */
    method GuessLoop(guesses: seq<string>) returns (used: nat)
      requires Hidden()
      modifies this`points, this`keepGoing
      ensures Hidden()
      ensures Ending(Progress(points, keepGoing), used)
           == Run(Progress(old(points), old(keepGoing)), missingWords, missingWordsNumber, guesses)
    {
      ghost var total := Run(Progress(points, keepGoing), missingWords, missingWordsNumber, guesses);
      used := 0;
      while keepGoing && used < |guesses|
        invariant Hidden() && used <= |guesses|
        invariant Run(Progress(points, keepGoing), missingWords, missingWordsNumber, guesses[used..]).final == total.final
        invariant used + Run(Progress(points, keepGoing), missingWords, missingWordsNumber, guesses[used..]).used == total.used
        decreases |guesses| - used
      {
        assert guesses[used..][1..] == guesses[used + 1..];
        Guess(guesses[used]);
        used := used + 1;
      }
    }
  }
}

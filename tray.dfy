/** `main`: validate the counts, filter the dictionary, draw the pool, shuffle it
    for display, shuffle it again and hide its tail, run the guess loop and report.
    The dictionary's lines, the random choices and the player's trimmed guesses
    are inputs; the display, the delay and the flag parsing are not modelled. */
module Tray {
  import opened Lexicon
  import opened Shuffling
  import opened WordPool
  import opened Quiz

  datatype Outcome =
    | TooManyMissing
      // `log.Fatalf`: the missing count is not below the word count
    | EmptyDictionary
      // `rand.Intn(0)` panics: no line survives the filter
    | Finished(points: int, answers: Option<seq<string>>, guessesRead: nat)
      // the loop ended; `answers` is what is listed after "Missing words were:"
    | AwaitingGuess(points: int, guessesRead: nat)
      // every guess given was read and the loop is still waiting for the next

  /** The randomness of one game: an index for each draw and a full shuffle run
      over the pool, twice. */
  predicate RandomChoices(dictionarySize: nat, numberOfWords: nat, draws: seq<nat>, first: seq<nat>, second: seq<nat>)
  {
    && |draws| == numberOfWords
    && (dictionarySize > 0 ==> IndicesBelow(draws, dictionarySize))
    && FullRun(numberOfWords, first)
    && FullRun(numberOfWords, second)
  }

  /** The hidden words of a session: the last `missingWordsNumber` words of the
      pool after both shuffles. */
  function HiddenWords(pool: seq<string>, missingWordsNumber: nat, first: seq<nat>, second: seq<nat>): (r: seq<string>)
    requires missingWordsNumber < |pool|
    requires FullRun(|pool|, first) && FullRun(|pool|, second)
  {
    var shuffled := Shuffled(Shuffled(pool, first, |first|), second, |second|);
    Split(shuffled, missingWordsNumber).1
  }

  /** What `main` ends with once the loop has stopped or the guesses ran out. */
  function Report(e: Ending, missingWords: seq<string>, missingWordsNumber: nat): (o: Outcome)
  {
    if e.final.keepGoing then AwaitingGuess(e.final.points, e.used)
    else Finished(e.final.points, Reported(e.final, missingWordsNumber, missingWords), e.used)
  }

  /** The outcome of a session over `pool`. */
  function Played(pool: seq<string>, missingWordsNumber: nat, first: seq<nat>, second: seq<nat>, guesses: seq<string>): (o: Outcome)
    requires missingWordsNumber < |pool|
    requires FullRun(|pool|, first) && FullRun(|pool|, second)
  {
    var hidden := HiddenWords(pool, missingWordsNumber, first, second);
    Report(Run(Start, hidden, missingWordsNumber, guesses), hidden, missingWordsNumber)
  }

  /** The hidden words are words of the pool: each shuffle only reorders it. */
  lemma HiddenFromPool(pool: seq<string>, missingWordsNumber: nat, first: seq<nat>, second: seq<nat>)
    requires missingWordsNumber < |pool|
    requires FullRun(|pool|, first) && FullRun(|pool|, second)
    ensures |HiddenWords(pool, missingWordsNumber, first, second)| == missingWordsNumber
    ensures forall w :: w in HiddenWords(pool, missingWordsNumber, first, second) ==> w in pool
  {
    var once := Shuffled(pool, first, |first|);
    var twice := Shuffled(once, second, |second|);
    ShuffledIsPermutation(pool, first, |first|);
    ShuffledIsPermutation(once, second, |second|);
    assert multiset(twice) == multiset(pool);
    var hidden := twice[|pool| - missingWordsNumber..];
    assert HiddenWords(pool, missingWordsNumber, first, second) == hidden;
    forall w | w in hidden
      ensures w in pool
    {
      assert w in twice;
      assert w in multiset(twice);
    }
  }

  /** What a session promises: the score stays within `[0, m]`; a game still going
      has consumed every guess; a finished game read at least one guess, and lists
      the m hidden words, all from the pool, exactly when its last guess was `BYE`
      and m > 0, which is exactly when its score fell short. */
  lemma SessionOutcome(pool: seq<string>, missingWordsNumber: nat, first: seq<nat>, second: seq<nat>, guesses: seq<string>)
    requires missingWordsNumber < |pool|
    requires FullRun(|pool|, first) && FullRun(|pool|, second)
    ensures var o := Played(pool, missingWordsNumber, first, second, guesses);
      && (o.Finished? || o.AwaitingGuess?)
      && 0 <= o.points <= missingWordsNumber
      && (o.AwaitingGuess? ==> (o.points < missingWordsNumber || guesses == []) && o.guessesRead == |guesses|)
      && (o.Finished? ==> 0 < o.guessesRead <= |guesses|)
      && (o.Finished? ==>
            (o.answers.Some? <==> guesses[o.guessesRead - 1] == Bye && missingWordsNumber != 0))
      && (o.Finished? ==> (o.answers.None? <==> o.points == missingWordsNumber))
      && (o.Finished? && o.answers.Some? ==>
            |o.answers.value| == missingWordsNumber &&
            forall w :: w in o.answers.value ==> w in pool)
  {
    var hidden := HiddenWords(pool, missingWordsNumber, first, second);
    HiddenFromPool(pool, missingWordsNumber, first, second);
    RunKeepsInRange(Start, hidden, missingWordsNumber, guesses);
    ReportedExactlyAfterBye(Start, hidden, missingWordsNumber, guesses);
  }

  /** The part of `main` after the draw: the two shuffles, the split, the guess
      loop over `guesses` and the final report. */
  method Session(pool: seq<string>, missingWordsNumber: nat, first: seq<nat>, second: seq<nat>, guesses: seq<string>)
    returns (o: Outcome)
    requires missingWordsNumber < |pool|
    requires FullRun(|pool|, first) && FullRun(|pool|, second)
    ensures o == Played(pool, missingWordsNumber, first, second, guesses)
  {
    var game := new Game(pool, missingWordsNumber);
    game.Reshuffle(first);
    game.Reshuffle(second);
    game.Hide();
    var used := game.GuessLoop(guesses);
    if game.keepGoing {
      return AwaitingGuess(game.points, used);
    }
    var answers := Reported(Progress(game.points, game.keepGoing), missingWordsNumber, game.missingWords);
    o := Finished(game.points, answers, used);
  }

  /** `main` with the dictionary's lines, the three counts, the random choices and
      the trimmed guesses as inputs. */
  method Play(fileData: seq<string>, numberOfWords: int, missingWordsNumber: int,
              draws: seq<nat>, first: seq<nat>, second: seq<nat>, guesses: seq<string>)
    returns (o: Outcome)
    requires 0 <= missingWordsNumber
    requires missingWordsNumber < numberOfWords ==>
               RandomChoices(|Filtered(fileData)|, numberOfWords, draws, first, second)
    ensures o.TooManyMissing? <==> missingWordsNumber >= numberOfWords
    ensures o.EmptyDictionary? <==> missingWordsNumber < numberOfWords && Filtered(fileData) == []
    ensures o.Finished? || o.AwaitingGuess? ==> 0 <= o.points <= missingWordsNumber
    ensures o.AwaitingGuess? ==> (o.points < missingWordsNumber || guesses == []) && o.guessesRead == |guesses|
    ensures o.Finished? ==> 0 < o.guessesRead <= |guesses|
    ensures o.Finished? ==>
              (o.answers.Some? <==> guesses[o.guessesRead - 1] == Bye && missingWordsNumber != 0)
    ensures o.Finished? ==> (o.answers.None? <==> o.points == missingWordsNumber)
    ensures o.Finished? && o.answers.Some? ==>
              |o.answers.value| == missingWordsNumber &&
              forall w :: w in o.answers.value ==> w in fileData && !IsPossessive(w)
    ensures missingWordsNumber < numberOfWords && Filtered(fileData) != [] ==>
              o == Played(seq(numberOfWords, k requires 0 <= k < numberOfWords => Filtered(fileData)[draws[k]]),
                          missingWordsNumber, first, second, guesses)
  {
    if missingWordsNumber >= numberOfWords {
      return TooManyMissing;
    }
    var data := FilterPlurals(fileData);
    var drawn := DrawPool(data, numberOfWords, draws);
    if drawn.IntnPanic? {
      return EmptyDictionary;
    }
    assert drawn.words == seq(numberOfWords, k requires 0 <= k < numberOfWords => data[draws[k]]);
    o := Session(drawn.words, missingWordsNumber, first, second, guesses);
    SessionOutcome(drawn.words, missingWordsNumber, first, second, guesses);
    FilteredIsClean(fileData);
  }
}

# Tray: a verified model of the word-memory game

Tray is a terminal game for training memory. It reads a dictionary and drops the
possessive forms (lines ending in `'s`). It then draws a pool of `numberOfWords`
words, with replacement, and shuffles the pool for display. Next it shuffles the
pool again and hides its last `missingWordsNumber` words. Finally it asks the
player for the hidden words until the score reaches the number of hidden words
or the player types `BYE`. If the score falls short, it lists the hidden words.

This project models that game logic in Dafny, module by module:

- `Lexicon` (lexicon.dfy): `filterPlurals` as a loop that builds its result by
  appending (`FilterPlurals`). It is proved equal to the specification function
  `Filtered`. The filter is then characterised by the increasing list of kept
  positions (`KeptPositions`): the output is exactly the non-possessive lines, in
  their original order.
- `Shuffling` (shuffling.dfy): `shuffle` as an in-place array method
  (`Shuffle`) whose only mutation is the swap callback. The library's random
  choices are an input `js`. The k-th callback swaps position `n - 1 - k` with
  `js[k] <= n - 1 - k`. The result equals the specification `Shuffled` and is a
  permutation of the input.
- `WordPool` (wordpool.dfy): the draw loop (`DrawPool`), with the returned indices
  of `rand.Intn` as an input. When the filtered dictionary is empty, the model
  returns `IntnPanic` instead of a pool. Also the suffix split (`Split`).
- `Quiz` (quiz.dfy): the guess loop. `Step` is one pass for one trimmed guess.
  `Run` feeds a finite sequence of guesses through the loop. `Reported` is the
  final listing. The class `Game` holds the pool array, the visible length,
  `missingWords`, `points` and `keepGoing`. Its methods (`Reshuffle`, `Hide`,
  `Guess`, `GuessLoop`) update the state in place, and `GuessLoop` is proved
  against `Run`.
- `Tray` (tray.dfy): `main` as `Play`, whose inputs are the dictionary's lines,
  the counts, the random choices and the guesses. `Session` covers the part
  after the draw on a `Game` object and is proved equal to the function
  `Played`: the guess loop `Run` over the hidden words `HiddenWords`, then the
  report. `SessionOutcome` states what that outcome guarantees.

Scoring follows the code. The loop never changes `missingWords`, and it checks a
guess only for membership. So a hidden word is credited every time it is typed,
including after it was already credited. A design where each hidden word counts
once would behave differently. `RepeatedGuessCreditedEachTime` proves the code's
behaviour: typing one hidden word `m` times wins the game.

## Model

| member | source | states |
|---|---|---|
| `Lexicon.Filtered` | Tray.go:39-47 | the specification of the filter: the non-possessive lines in order; `FilteredSelectsKeptPositions` and `FilteredIsClean` state what it keeps |
| `Lexicon.FilterPlurals` | Tray.go:39-47 | the append loop returns `Filtered(fileData)`, the non-possessive lines in input order |
| `Lexicon.KeptPositions` | Tray.go:41-44 | the kept positions are strictly increasing, in range, and hold non-possessive lines; every non-possessive line's position is among them |
| `Lexicon.FilteredSelectsKeptPositions` | Tray.go:39-47 | the filter's output is exactly the input lines at the kept positions, one for one and in order |
| `Lexicon.FilteredIsClean` | Tray.go:42-43 | every returned line occurs verbatim in the input and does not end in `'s` |
| `Shuffling.Swap` | Tray.go:36 | the callback's effect: positions i and j exchange their elements, every other position and the length stay as they were |
| `Shuffling.SwapIsPermutation` | Tray.go:36 | the swap callback keeps the multiset of elements |
| `Shuffling.Shuffled` | Tray.go:33-37 | the sequence after the first `count` callbacks, call k swapping position `n - 1 - k` with `js[k]`; it has the input's length, and `ShuffledIsPermutation` shows it has the input's elements |
| `Shuffling.ShuffledStepIsPermutation` | Tray.go:35-36 | one more callback keeps the multiset of elements |
| `Shuffling.ShuffledIsPermutation` | Tray.go:33-37 | any number of swap callbacks keeps the multiset of elements |
| `Shuffling.Exchange` | Tray.go:36 | the callback exchanges the two array cells and leaves the others alone |
| `Shuffling.Shuffle` | Tray.go:33-37 | swapping in place for i from n-1 down to 1 leaves the array equal to `Shuffled(old contents, js, n - 1)`, which `ShuffledIsPermutation` shows is a permutation of the old contents |
| `WordPool.DrawPool` | Tray.go:87-92 | the draw panics exactly when the filtered list is empty and a word is to be drawn; otherwise the pool has exactly `numberOfWords` words, word k is `data[draws[k]]`, and every word is in the filtered list |
| `WordPool.Split` | Tray.go:99-100 | the missing part has `m` words, the visible part `n - m`, and visible followed by missing is the pool |
| `WordPool.SplitKeepsWords` | Tray.go:99-100 | the visible and the missing words together have the pool's multiset of words |
| `Quiz.IsMissing` | Tray.go:120-125 | the inner loop, which has no break, sets `valid` exactly when the guess equals some hidden word |
| `Quiz.Step` | Tray.go:117-137 | one pass: the score rises by at most one, and by one exactly when the guess is not `BYE` and equals a hidden word; the loop goes on exactly when it was going, the guess is not `BYE` and the score differs from m |
| `Quiz.Reported` | Tray.go:141-146 | the hidden words are listed exactly when the score differs from m, and what is listed is `missingWords` itself |
| `Quiz.Run` | Tray.go:112-139 | the loop reads no more guesses than it is given, and it stops early only because `keepGoing` became false |
| `Quiz.StepKeepsInRange` | Tray.go:117-137 | one guess keeps `0 <= points <= m` (a running game below m unless m is 0) and never lowers the score |
| `Quiz.RunKeepsInRange` | Tray.go:109-139 | the whole loop keeps that invariant and never lowers the score |
| `Quiz.ReportedExactlyAfterBye` | Tray.go:112-146 | when the loop ends, the answers are listed iff the last guess read was `BYE` and m is not 0 |
| `Quiz.CorrectGuessesWin` | Tray.go:120-137 | guesses that each equal some hidden word, none of them `BYE`, add one point each, and the loop stops exactly at the guess that reaches m |
| `Quiz.EachHiddenWordOnceWins` | Tray.go:120-137 | typing every hidden word once, in any order, ends the game with full score after exactly m guesses |
| `Quiz.RepeatedGuessCreditedEachTime` | Tray.go:121-128 | a hidden word typed m times is credited each time and wins the game |
| `Quiz.NothingHiddenEndsAtFirstGuess` | Tray.go:109-137 | with nothing hidden, the first guess of any kind ends the game with score 0 |
| `Quiz.Game.constructor` | Tray.go:87-92 | the game starts with the drawn pool in a fresh array, all of it visible, no hidden words; it also sets the loop's initial `points = 0` and `keepGoing = true` (Tray.go:109-110) |
| `Quiz.Game.Reshuffle` | Tray.go:94-98 | shuffling the visible pool leaves it equal to `Shuffled(old pool, js)`, with the same multiset |
| `Quiz.Game.Hide` | Tray.go:97-100 | after the split, the visible prefix and `missingWords` are `Split(pool, missingWordsNumber)` |
| `Quiz.Game.Guess` | Tray.go:113-138 | `BYE` stops the loop and keeps the score; another guess adds 1 iff it equals a hidden word, and the loop then continues iff the score differs from m; `missingWords` is unchanged |
| `Quiz.Game.GuessLoop` | Tray.go:109-139 | the loop's final `points`, `keepGoing` and the number of guesses read are those of `Run` |
| `Tray.HiddenWords` | Tray.go:94-100 | the hidden words: the last m words of the pool after both shuffles; `HiddenFromPool` states their number and origin |
| `Tray.Played` | Tray.go:109-146 | a session's outcome: the loop `Run` from `points = 0, keepGoing = true` over the hidden words, then the report; `SessionOutcome` states what it guarantees |
| `Tray.HiddenFromPool` | Tray.go:94-100 | after both shuffles and the split, exactly m words are hidden, and each of them is a word of the drawn pool |
| `Tray.SessionOutcome` | Tray.go:109-146 | the score stays within `[0, m]`; a game still going has read every guess (`guessesRead = |guesses|`) and is below m unless no guess was given; a finished game read at least one guess; the answers are listed iff the last guess read was `BYE` and m > 0, which is iff the score fell short; the m listed words come from the pool |
| `Tray.Session` | Tray.go:94-146 | the game object's shuffles, split, guess loop and report produce exactly `Played`: the loop run over the last m words of the twice-shuffled pool, then the report |
| `Tray.Play` | Tray.go:51-146 | the run is refused iff missing is not below words; it panics iff the filtered dictionary is empty; otherwise the outcome is exactly `Played` on the pool whose word k is `Filtered(fileData)[draws[k]]`, with the guarantees of `SessionOutcome`, and each listed word is a non-possessive dictionary line |

## Left out

- Flag parsing (Tray.go:53-56) is left out. The three counts are parameters. A negative missing count would make the slice at Tray.go:99 panic, so `Play` requires `missingWordsNumber >= 0`.
- Reading the dictionary (Tray.go:65-83) is left out: `os.Stat`, `ioutil.ReadFile`, their fatal errors and the split on newlines. The model takes the list of lines as input.
- `displayInitialWords`, screen clearing, all printing and `time.Sleep` (Tray.go:17-31, 102-107) are left out. They are terminal output and a wall-clock delay.
- Reading stdin and `strings.TrimSpace` (Tray.go:113-116) are left out. The guesses are a finite sequence of already-trimmed strings. When that sequence runs out while the loop is still going, `Play` returns `AwaitingGuess`. The real program would block on input instead. At end of input it would read the empty guess `""` on every pass until the loop stops, which happens only if the empty line is among the hidden words (a dictionary file ending in a newline yields one, and the filter keeps it) and is credited m times, or if nothing is hidden.
- The loop builds a new `bufio.NewReader(os.Stdin)` on every pass (Tray.go:113). With piped input, a reader can buffer more than one line and lose the rest when it is dropped. The model reads each guess of the sequence in turn, which matches line-at-a-time terminal input only.
- Nothing in the model requires the guesses to be trimmed, while the dictionary lines are not trimmed at all. A hidden line with surrounding whitespace (such as `"cat\r"` from a file with CRLF line ends) can never equal a trimmed guess. `EachHiddenWordOnceWins` and `RepeatedGuessCreditedEachTime` still hold as stated, but such a word cannot be typed in the real program.
- `rand.Seed`, and how `rand.Intn` and `rand.Shuffle` choose their values (Tray.go:34, 63, 90), are left out. The chosen indices are inputs. The order of the swap callbacks (i from n-1 down to 1, target in [0, i]) is how the Go library's `Shuffle` calls them. Uniformity of the draw and of the shuffle is a probabilistic claim and is not modelled.
- Slice aliasing is simplified. In Go, `missingWords` and `randomWords` share one backing array. The model keeps `missingWords` as a sequence that `Game.Valid` ties to the array's tail. Nothing writes the array after the split, so the two readings agree.
- Strings are sequences of characters, not UTF-8 bytes. Equality and the ASCII suffix `'s` behave the same either way.

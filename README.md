# Wheel of Fortune game state, in Dafny

A model of the game-state logic of a three-player console Wheel of Fortune game written
in Java:

- **The puzzle state** (`src/PuzzleState.java`, module `Puzzle` in `PuzzleState.dfy`):
  the secret phrase, the board (two cells per phrase character: the character or `_`,
  then a space), the string of available letters, the last guess and its number of
  occurrences, the current player, and the earnings rule. The class `PuzzleState` keeps
  the Java fields and its methods update them in place. Each method is proved against a
  pure specification function: `Mask`/`Merge` for the board, `Replace` for the letters,
  `Occurrences` for `count`, `Solved` for `isSolved` and `UpdatedBalance` for
  `updatePlayerAmt`. The properties of the game live in lemmas about those functions.
- **The players** (`src/Player.java`, module `Players` in `Player.dfy`): the fixed
  rotation Player1 → Player2 → Player3 → Player1, and the three balances. `setEarnings`
  adds to a balance and `resetEarnings` sets it to zero. The class `Ledger` holds them in
  an `array<int>` of three slots.
- **A round of the game** (`src/WheelOfFortune.java`, module `Game` in
  `WheelOfFortune.dfy`): the branch logic of the `main` loop. `Game.Round` runs the same
  `PuzzleState` mutators, branch by branch, and is proved equal to the pure transition
  `Step` on a `Session` value. `Game.Play` is the `while (!isGameOver)` loop over a
  sequence of turns, proved equal to the fold `Run`. Lemmas about `Step` state what each
  branch does.
- **The guess test** of `getPlayerGuess`: `AcceptGuess`.
- **The corpus and the puzzle pick** (module `Corpus` in `PuzzleCorpus.dfy`): the
  categories, their phrases, and the index arithmetic of `getRandom` and `getNewPuzzle`,
  with the random number as a parameter.

The console is replaced by parameters:

- the player's choice is `Spin(wheelValue)` or `GuessPuzzle`;
- the wheel's result is the `wheelValue`, restricted to the table of `src/Wheel.java:21`;
- the typed guess is a string.

`count` loops forever on an empty substring, so `Round` requires a non-empty guess when
the wheel pays a dollar value. The guess test guarantees this in the program.

A single space passes the guess test, because the available-letters string always holds
separator spaces (`SpaceGuessAccepted`). At the letter prompt a space is then handled
like a letter (`SpaceGuessPays`). On a puzzle of several words it is found, and the
player is paid once per space and keeps the turn. Nothing is revealed and no letter is
used up. The model reproduces this behaviour as written.

## Model

| member | source | states |
|---|---|---|
| JavaStrings.IndexOf | src/PuzzleState.java:240 | String.indexOf: the result is -1 or a match at or after `from`, and no match lies between `from` and the result |
| JavaStrings.ReplaceCharAt | src/PuzzleState.java:280-282 | replacing one character by a space keeps the length and rewrites exactly the positions that held it |
| JavaStrings.ContainsChar | src/PuzzleState.java:258 | String.contains of a one-character string holds exactly when that character occurs |
| JavaStrings.ReplaceCharRemoves | src/PuzzleState.java:280-282 | after the replacement the character is gone and not contained, and replacing it again changes nothing |
| Players.Init | src/Player.java:29-31 | the first player is the one in slot 0, Player1 |
| Players.Next | src/Player.java:41-51 | the next player is one step forward in the order 1, 2, 3, wrapping |
| Players.NextIsThreeCycle | src/Player.java:41-51 | the rotation never keeps the turn, and three steps return to the starting player |
| Players.Ledger.constructor | src/Player.java:21 | every balance starts at zero |
| Players.Ledger.GetEarnings | src/Player.java:92-102 | the balance returned is the player's own slot |
| Players.Ledger.SetEarnings | src/Player.java:58-68 | adds the earning to the player's balance; the other balances are unchanged |
| Players.Ledger.ResetEarnings | src/Player.java:75-85 | sets the player's balance to zero; the other balances are unchanged |
| Puzzle.Mask | src/PuzzleState.java:115-136 | the list built for a phrase has two entries per character |
| Puzzle.MaskAt | src/PuzzleState.java:121-136 | entry 2k is the guessed letter if phrase character k is it, the apostrophe, `_` for another non-space, or a space; entry 2k+1 is a space |
| Puzzle.MaskIsBoard | src/PuzzleState.java:115-136 | every list built by updateSolvedPuzzle is a valid board of the phrase |
| Puzzle.InitialBoard | src/PuzzleState.java:76-78 | the first board masks every letter, shows spaces and apostrophes, and has a space after every cell |
| Puzzle.MergeIdempotent | src/PuzzleState.java:146-161 | merging the same list twice leaves the board as merging it once |
| Puzzle.RevealAt | src/PuzzleState.java:146-161 | merging the guess's list sets cell k to the guess when phrase character k equals a letter guess, and otherwise keeps cell k and the space after it |
| Puzzle.RevealEffect | src/PuzzleState.java:115-161 | after updateSolvedPuzzle the board keeps its length; the cells of the guessed letter hold it and every other cell is unchanged |
| Puzzle.RevealKeepsBoard | src/PuzzleState.java:146-161 | merging keeps a valid board, and a shown cell is never masked again |
| Puzzle.RevealAllMonotone | src/PuzzleState.java:115-161 | over any sequence of guesses the board stays valid, no shown cell is re-masked, every guessed character is shown, and guessing every letter of the phrase reveals all of it |
| Puzzle.BoardMatchesIffRevealed | src/PuzzleState.java:309 | the whitespace-free, case-insensitive comparison of phrase and board holds exactly when no cell is masked |
| Puzzle.SolvedIff | src/PuzzleState.java:306-314 | isSolved holds exactly when the guess equals the phrase or every cell is revealed |
| Puzzle.UnsolvedWhileMasked | src/PuzzleState.java:306-314 | while some cell is masked, only the exact phrase solves the puzzle |
| Puzzle.SolvedIffOnBoard | src/PuzzleState.java:306-314 | on any board of a well-formed phrase, isSolved holds exactly when the guess is the phrase or no cell is masked |
| Puzzle.CountFromBound | src/PuzzleState.java:235-247 | a non-empty needle is counted at most once per position, so the count never exceeds the string's length |
| Puzzle.CountFromFirstMatch | src/PuzzleState.java:240-244 | counting from a position is counting from the first match indexOf finds there, and zero when it finds none |
| Puzzle.OccurrencesOfChar | src/PuzzleState.java:235-247 | for a one-character needle the count is the number of positions holding it |
| Puzzle.OccurrencesPositiveIffContains | src/PuzzleState.java:255-265 | the count is positive exactly when the puzzle contains the guess |
| Puzzle.LetterOccurrences | src/PuzzleState.java:235-247 | the count of a letter is its multiplicity, and it is positive exactly when the letter occurs |
| Puzzle.ConsumedLetterUnavailable | src/PuzzleState.java:280-297 | after an upper-case letter is consumed the letters keep their length, the letter is not available, and consuming it again is a no-op |
| Puzzle.UpdatedBalance | src/PuzzleState.java:355-373 | a negative wheel value gives max(0, balance + value); any other value adds value × occurrences; a non-negative balance stays non-negative |
| Puzzle.PuzzleState.constructor | src/PuzzleState.java:69-84 | all 26 letters are available (51 characters), the board is the initial mask of the puzzle, Player1 plays, every balance is zero |
| Puzzle.PuzzleState.UpdateSolvedPuzzle | src/PuzzleState.java:115-139 | the list built in the loop is the mask of the first guess character, and the new board is its merge into the old one; the board stays valid |
| Puzzle.PuzzleState.AddLettersToSolvedPuzzle | src/PuzzleState.java:146-161 | an empty board becomes the new list; otherwise exactly the cells where the list holds a letter are overwritten |
| Puzzle.PuzzleState.GetSolvedPuzzleAsString | src/PuzzleState.java:168-178 | the string is the board's cells in order |
| Puzzle.PuzzleState.SetGuess | src/PuzzleState.java:185-189 | the guess is recorded and every occurrence of it in the letters becomes a space |
| Puzzle.PuzzleState.UpdateAvailableLetters | src/PuzzleState.java:280-282 | every occurrence of the current guess in the letters becomes a space |
| Puzzle.PuzzleState.Count | src/PuzzleState.java:235-247 | the loop returns the number of (possibly overlapping) start positions of the needle |
| Puzzle.PuzzleState.LetterExists | src/PuzzleState.java:255-265 | true exactly when the puzzle contains the guess; then the stored count is the number of occurrences, at least 1; otherwise the stored count is unchanged |
| Puzzle.PuzzleState.GetLetterOccurrences | src/PuzzleState.java:272-274 | returns the stored count, which in a valid state never exceeds the puzzle's length |
| Puzzle.PuzzleState.IsLetterAvailable | src/PuzzleState.java:290-297 | a one-character guess is available exactly when its upper case occurs in the available letters |
| Puzzle.PuzzleState.IsSolved | src/PuzzleState.java:306-314 | on a board of a well-formed puzzle, true exactly when the guess equals the puzzle or no cell is masked |
| Puzzle.PuzzleState.GetPlayerEarnings | src/PuzzleState.java:339-341 | returns the current player's own balance, never negative in a valid state |
| Puzzle.PuzzleState.ToggleCurrentPlayer | src/PuzzleState.java:330-332 | the turn passes to the next player |
| Puzzle.PuzzleState.UpdatePlayerAmt | src/PuzzleState.java:355-373 | only the current player's balance changes, to the earnings rule's result; balances stay non-negative |
| Game.InitialInvariant | src/PuzzleState.java:69-84 | a new game starts with a valid board, no negative balance, and not over |
| Game.StepKeepsInvariant | src/WheelOfFortune.java:105-168 | every round keeps the board valid and the balances non-negative, ends the game only on a solved puzzle, and the winner is the player whose turn it was |
| Game.RunKeepsInvariant | src/WheelOfFortune.java:105-168 | a whole game of rounds keeps that invariant |
| Game.LoseTurnRound | src/WheelOfFortune.java:114-119 | wheel value 0: the turn passes and nothing else changes |
| Game.LoseTurnAnd1000Round | src/WheelOfFortune.java:120-128 | wheel value -1000: the balance becomes max(0, balance - 1000), the turn passes, other balances, letters, board and guess are unchanged, and the game is not over |
| Game.CorrectLetterRound | src/WheelOfFortune.java:129-146 | a dollar value and a letter in the puzzle: the letter is used up, exactly its cells are revealed, the balance grows by value × occurrences, other balances are unchanged, the player keeps the turn, and the game ends exactly when the puzzle is solved |
| Game.WrongLetterRound | src/WheelOfFortune.java:148-152 | a dollar value and a letter not in the puzzle: the letter is used up, board and balances are unchanged, and the turn passes |
| Game.SolveAttemptRound | src/WheelOfFortune.java:155-166 | a whole-puzzle guess ends the game exactly when isSolved holds, with the same player; otherwise the turn passes; no balance or cell changes |
| Game.GameEndsOnlyOnSolve | src/WheelOfFortune.java:141-161 | a round ends the game only on a solve attempt or a found letter, keeps the player, and the guess is the phrase or the board is fully revealed |
| Game.FirstRoundCorrectLetter | src/WheelOfFortune.java:129-146 | in the first round a found letter pays Player1 value × occurrences, Player1 keeps the turn, and the letter is used up |
| Game.FirstRoundGoesOn | src/WheelOfFortune.java:141-145 | a first-round letter that is not the puzzle's first character does not end the game |
| Game.AcceptGuess | src/WheelOfFortune.java:62-74 | a line is accepted exactly when it is non-empty, made of letters, space, `.`, `'` and `-`, and, if one character long, available; it is returned upper-cased with the same length |
| Game.AcceptedGuessPlayable | src/WheelOfFortune.java:62-74 | an accepted guess is a valid input to any round |
| Game.SpaceGuessAccepted | src/WheelOfFortune.java:62-74 | a single space is accepted as a guess |
| Game.SpaceGuessPays | src/WheelOfFortune.java:129-146 | a space guessed at a dollar value on a puzzle with spaces pays value × number of spaces, keeps the turn, and changes neither the board nor the letters |
| Game.Game.constructor | src/WheelOfFortune.java:101 | a new game is in the initial session of its puzzle |
| Game.Game.Draw | src/PuzzleState.java:69-84 | a new game on the phrase getNewPuzzle picks as written is in its initial session, with the drawn category's name, and the phrase can be shown on the board |
| Game.Game.DrawUniform | src/PuzzleState.java:102-108 | the same with the corrected, uniform pick of the phrase |
| Game.Game.Round | src/WheelOfFortune.java:107-167 | one round runs the mutators of its branch, the new session is `Step` of the old one, and the category is unchanged |
| Game.Game.GuessLetter | src/WheelOfFortune.java:129-153 | the dollar-value branch: the new session is `Step` of the old one, and the category is unchanged |
| Game.Game.RevealAndPay | src/WheelOfFortune.java:137-145 | a found guess: the board becomes the merge of its mask, the current player is paid by the earnings rule, the game is over exactly when the puzzle is now solved, and nothing else changes |
| Game.Game.Play | src/WheelOfFortune.java:105-168 | the loop plays rounds until the game is over or the turns run out; the final session is `Run` of the initial one, and the category is unchanged |
| Game.FullPhraseGuessWins | src/WheelOfFortune.java:155-161 | guessing "PIECE OF CAKE" at once ends the game, Player1 wins with 0 |
| Game.PenaltyAtZeroBalance | src/WheelOfFortune.java:120-127 | -1000 on a zero balance leaves it at 0, passes the turn to Player2 and uses no letter |
| Game.CorrectLetterPays | src/WheelOfFortune.java:129-146 | 300 and E on "PIECE OF CAKE" pays 900 for 3 occurrences, Player1 keeps the turn, E is no longer available, and the game goes on |
| Corpus.PieceOfCake | src/PuzzleState.java:95 | "PIECE OF CAKE" is a Phrases puzzle, can be shown on the board, and holds three Es |
| Corpus.CorpusWellFormed | src/PuzzleState.java:91-97 | every phrase of the corpus is made of letters, spaces and apostrophes |
| Corpus.PuzzleIndexAsWritten | src/PuzzleState.java:107 | the index getNewPuzzle computes (as written) |
| Corpus.LastPuzzleNeverPicked | src/PuzzleState.java:107 | that index is always below size - 1, so the last phrase is never picked |
| Corpus.NewPuzzleAsWritten | src/PuzzleState.java:102-108 | getNewPuzzle as written picks a phrase of the drawn category |
| Corpus.LastPhraseNeverPlayedAsWritten | src/PuzzleState.java:102-108 | as written, the fourth phrase of a category, such as "HARD DAY'S WORK", is never played |
| Corpus.PuzzleIndex | src/PuzzleState.java:60 | the uniform index, as getRandom computes it, is within range |
| Corpus.EveryPuzzleCanBePicked | src/PuzzleState.java:60 | every index, the last one included, is drawn for some random number |
| Corpus.NewPuzzle | src/PuzzleState.java:102-108 | the corrected pick returns a phrase of its category that can be shown on the board |
| Corpus.LastPhrasePlayable | src/PuzzleState.java:102-108 | with the corrected pick "HARD DAY'S WORK" is played for suitable random numbers |

## Left out

- `Wheel.spin` and `Math.random`: the wheel value and the random numbers of the puzzle pick are parameters. The wheel value is restricted to the table of `src/Wheel.java:21`.
- Floating point: the puzzle pick's arithmetic is done on exact reals. Rounding of `double` products is not modelled.
- Console I/O: the retry loops of `getChoice` and `getPlayerGuess`, `drawBoard`, every message printed, and `showWinner`. The choice and the guess are parameters; the guess test is the pure `AcceptGuess`.
- Unicode: `Character.isLetter`, `\p{L}`, `toUpperCase` and `equalsIgnoreCase` are modelled on ASCII only, and `\s` as its six ASCII characters.
- 32-bit arithmetic: balances are unbounded integers. Overflow needs earnings beyond two billion, which no game reaches.
- Static sharing: `currentPuzzle`, `currentGuess` and `isGameOver` are plain fields of one game. The per-constant `earnings` arrays of the `Player` enum are one `Ledger`, because each constant only reads and writes its own slot.
- The puzzle map and its `EnumMap`: the corpus is the function `Corpus.Puzzles`.
- The getters `getGuess`, `getCategory`, `getAvailableLetters` and `getCurrentPlayer`: they only return a field, which the model reads directly.
- `setCategory`: it only stores a string; the category is given to the constructor.

## Findings

| source | as written | input that shows it | evidently intended | confidence | as-written member | corrected member |
|---|---|---|---|---|---|---|
| src/PuzzleState.java:107 | the phrase index is `(int)(Math.random() * (words.size() - 1))` | any random number in [0, 1) with 4 phrases gives an index of at most 2, so "HARD DAY'S WORK" and every other fourth phrase are never played | a uniform index over all phrases, `(int)(Math.random() * words.size())`, as `getRandom` does for categories at line 60 | high (not executed) | Corpus.LastPhraseNeverPlayedAsWritten | Corpus.NewPuzzle |

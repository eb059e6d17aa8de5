/** One game session: the decision logic of each round, the loop that plays rounds until
    the puzzle is solved, and the test a typed guess must pass. Console input is replaced
    by the choices and guesses the caller supplies, the wheel by the value it landed on. */
module Game {
  import opened JavaStrings
  import opened Players
  import opened Puzzle
  import opened Corpus

  datatype Option<T> = None | Some(value: T)

  /** The values on the wheel. */
  const WHEEL_VALUES: seq<int> := [100, 300, 500, 700, 900, 2000, 3000, 5000, -1000, 0]

  /** The wheel value meaning "lose your turn". */
  const LOSE_TURN: int := 0

  /** The wheel value meaning "lose your turn and $1000". */
  const LOSE_TURN_AND_1000: int := -1000

  /** A player's choice for the round: spin (and the value the wheel landed on), or
      guess the whole puzzle. */
  datatype Choice = Spin(wheelValue: int) | GuessPuzzle

  /** What one round is given. */
  datatype Turn = Turn(choice: Choice, guess: string)

  /** The inputs a round can receive: a wheel value from the wheel, and a non-empty
      guess whenever a letter is looked up in the puzzle. */
  predicate InputOk(choice: Choice, guess: string) {
    match choice
    case Spin(v) => v in WHEEL_VALUES && (v != LOSE_TURN && v != LOSE_TURN_AND_1000 ==> |guess| > 0)
    case GuessPuzzle => true
  }

  predicate InputsOk(turns: seq<Turn>) {
    forall i :: 0 <= i < |turns| ==> InputOk(turns[i].choice, turns[i].guess)
  }

  // ---------------------------------------------------------------------------
  // The session as a value

  /** Everything a round reads or changes: the available letters, the puzzle, the board,
      the last guess, the last occurrence count, the current player, the balances of the
      three players (by player index) and whether the game is over. */
  datatype Session = Session(
    letters: string,
    puzzle: string,
    board: seq<char>,
    guess: string,
    occurrences: nat,
    player: Player,
    balances: seq<int>,
    over: bool)

  predicate Shaped(s: Session) {
    |s.balances| == 3 && |s.board| == 2 * |s.puzzle|
  }

  /** What holds of a session throughout a game. */
  ghost predicate SessionInv(s: Session) {
    Shaped(s) &&
    BoardInv(s.puzzle, s.board) &&
    (forall i :: 0 <= i < 3 ==> s.balances[i] >= 0) &&
    (s.over ==> Solved(s.puzzle, s.guess, s.board))
  }

  /** The session a new game on `puzzle` starts in. */
  function Initial(puzzle: string): Session {
    Session(ALPHABET, puzzle, Mask(puzzle, NO_GUESS), "", 0, Init(), [0, 0, 0], false)
  }

  /** The balances after the earnings rule is applied to the current player. */
  function Credit(s: Session, baseEarning: int, occurrences: nat): seq<int>
    requires |s.balances| == 3
  {
    var i := Index(s.player);
    s.balances[i := UpdatedBalance(s.balances[i], baseEarning, occurrences)]
  }

  /** One round, as a function of the session before it. */
  function Step(s: Session, choice: Choice, guess: string): (r: Session)
    requires Shaped(s) && InputOk(choice, guess)
    ensures Shaped(r) && r.puzzle == s.puzzle
  {
    match choice
    case Spin(v) =>
      if v == LOSE_TURN then
        s.(player := Next(s.player))
      else if v == LOSE_TURN_AND_1000 then
        s.(balances := Credit(s, v, s.occurrences), player := Next(s.player))
      else
        var guessed := s.(guess := guess, letters := Replace(s.letters, guess, " "));
        if Contains(s.puzzle, guess) then
          var occ := Occurrences(s.puzzle, guess);
          var board := Merge(s.board, Mask(s.puzzle, Guessed(guess)));
          guessed.(occurrences := occ, board := board, balances := Credit(s, v, occ),
                   over := Solved(s.puzzle, guess, board))
        else
          guessed.(player := Next(s.player))
    case GuessPuzzle =>
      var guessed := s.(guess := guess, letters := Replace(s.letters, guess, " "));
      if Solved(s.puzzle, guess, s.board) then guessed.(over := true)
      else guessed.(player := Next(s.player))
  }

  /** The session after playing `turns` until they run out or the game is over. */
  function Run(s: Session, turns: seq<Turn>): (r: Session)
    requires Shaped(s) && InputsOk(turns)
    ensures Shaped(r) && r.puzzle == s.puzzle
    decreases |turns|
  {
    if turns == [] || s.over then s
    else Run(Step(s, turns[0].choice, turns[0].guess), turns[1..])
  }

  // ---------------------------------------------------------------------------
  // What a round does

  /** Every game starts in the invariant: a board of its puzzle, no balance below zero,
      not over. */
  lemma InitialInvariant(puzzle: string)
    ensures SessionInv(Initial(puzzle)) && !Initial(puzzle).over
  {
    MaskIsBoard(puzzle, NO_GUESS);
  }

  /** Every round keeps the board a board of the puzzle, keeps every balance
      non-negative, and ends the game only on a solved puzzle, by the player whose turn
      it was. */
  lemma StepKeepsInvariant(s: Session, choice: Choice, guess: string)
    requires SessionInv(s) && !s.over && InputOk(choice, guess)
    ensures SessionInv(Step(s, choice, guess))
    ensures Step(s, choice, guess).over ==> Step(s, choice, guess).player == s.player
  {
    if choice.Spin? && choice.wheelValue != LOSE_TURN && choice.wheelValue != LOSE_TURN_AND_1000 {
      RevealKeepsBoard(s.puzzle, s.board, Guessed(guess));
    }
  }

  /** A whole game keeps the invariant. */
  lemma {:induction false} RunKeepsInvariant(s: Session, turns: seq<Turn>)
    requires SessionInv(s) && InputsOk(turns)
    ensures SessionInv(Run(s, turns))
    decreases |turns|
  {
    if turns != [] && !s.over {
      StepKeepsInvariant(s, turns[0].choice, turns[0].guess);
      var rest := turns[1..];
      assert InputsOk(rest) by {
        forall i | 0 <= i < |rest|
          ensures InputOk(rest[i].choice, rest[i].guess)
        {
          assert rest[i] == turns[i + 1];
        }
      }
      RunKeepsInvariant(Step(s, turns[0].choice, turns[0].guess), rest);
    }
  }

  /** Wheel value 0: the turn passes and nothing else changes. */
  lemma LoseTurnRound(s: Session, guess: string)
    requires Shaped(s)
    ensures Step(s, Spin(LOSE_TURN), guess).player == Next(s.player)
    ensures Step(s, Spin(LOSE_TURN), guess).(player := s.player) == s
  {
  }

  /** Wheel value -1000: the current balance drops by 1000 but not below zero, the turn
      passes, and no letter is consumed or revealed. */
  lemma LoseTurnAnd1000Round(s: Session, guess: string)
    requires Shaped(s) && !s.over
    ensures var r := Step(s, Spin(LOSE_TURN_AND_1000), guess);
      r.player == Next(s.player) &&
      r.balances[Index(s.player)] == Max(0, s.balances[Index(s.player)] - 1000) &&
      (forall q :: q != s.player ==> r.balances[Index(q)] == s.balances[Index(q)]) &&
      r.letters == s.letters && r.board == s.board && r.guess == s.guess && !r.over
  {
  }

  /** A positive wheel value and an upper-case letter that occurs in the puzzle: the letter
      is no longer available, every cell of it is revealed and no other cell changes,
      the balance grows by the wheel value once per occurrence, and the player keeps the
      turn. */
  lemma CorrectLetterRound(s: Session, v: int, c: char)
    requires Shaped(s) && v in WHEEL_VALUES && v > 0
    requires 'A' <= c <= 'Z' && c in s.puzzle
    ensures var r := Step(s, Spin(v), [c]);
      !LetterAvailable(r.letters, [c]) && |r.letters| == |s.letters| &&
      r.occurrences == multiset(s.puzzle)[c] &&
      (forall i :: 0 <= i < |s.board| ==>
        r.board[i] == (if i % 2 == 0 && s.puzzle[i / 2] == c then c else s.board[i])) &&
      r.balances[Index(s.player)] == s.balances[Index(s.player)] + v * multiset(s.puzzle)[c] &&
      (forall q :: q != s.player ==> r.balances[Index(q)] == s.balances[Index(q)]) &&
      r.player == s.player &&
      r.over == Solved(s.puzzle, [c], r.board)
  {
    ConsumedLetterUnavailable(s.letters, c);
    ContainsChar(s.puzzle, c);
    LetterOccurrences(s.puzzle, c);
    RevealEffect(s.puzzle, s.board, c);
  }

  /** A positive wheel value and an upper-case letter absent from the puzzle: the letter
      is no longer available, the balances and the board are unchanged, and the turn
      passes. */
  lemma WrongLetterRound(s: Session, v: int, c: char)
    requires Shaped(s) && !s.over && v in WHEEL_VALUES && v > 0
    requires 'A' <= c <= 'Z' && c !in s.puzzle
    ensures var r := Step(s, Spin(v), [c]);
      !LetterAvailable(r.letters, [c]) && |r.letters| == |s.letters| &&
      r.board == s.board && r.balances == s.balances &&
      r.occurrences == s.occurrences &&
      r.player == Next(s.player) && !r.over
  {
    ConsumedLetterUnavailable(s.letters, c);
    ContainsChar(s.puzzle, c);
  }

  /** Guessing the whole puzzle: a solve ends the game with the same player; otherwise
      the turn passes. No balance and no cell changes either way. */
  lemma SolveAttemptRound(s: Session, guess: string)
    requires Shaped(s) && !s.over
    ensures var r := Step(s, GuessPuzzle, guess);
      r.over == Solved(s.puzzle, guess, s.board) &&
      r.player == (if r.over then s.player else Next(s.player)) &&
      r.balances == s.balances && r.board == s.board
  {
  }

  /** A round ends the game only right after the solve test succeeds: on a whole-puzzle
      guess, or on a letter found in the puzzle. For a well-formed puzzle the solve test
      succeeds when the guess is the puzzle or no cell is still masked. */
  lemma GameEndsOnlyOnSolve(s: Session, choice: Choice, guess: string)
    requires SessionInv(s) && !s.over && InputOk(choice, guess)
    requires WellFormedPhrase(s.puzzle)
    ensures var r := Step(s, choice, guess);
      r.over ==>
        r.player == s.player &&
        (choice.GuessPuzzle? || (choice.wheelValue > 0 && Contains(s.puzzle, guess))) &&
        (r.guess == s.puzzle || AllRevealed(r.puzzle, r.board))
  {
    var r := Step(s, choice, guess);
    StepKeepsInvariant(s, choice, guess);
    if r.over {
      SolvedIff(r.puzzle, r.guess, r.board);
    }
  }

  // ---------------------------------------------------------------------------
  // The guess a player may type

  /** The characters the guess pattern admits: letters, space, '.', ''' and '-'. */
  predicate GuessChar(c: char) {
    IsLetter(c) || c == ' ' || c == '.' || c == '\'' || c == '-'
  }

  /** The test getPlayerGuess applies to a typed line: it must be non-empty and made of
      guess characters, and a single character must be among the available letters.
      An accepted line is returned in upper case. */
  function AcceptGuess(available: string, input: string): (r: Option<string>)
    ensures r.Some? <==>
      |input| > 0 && (forall i :: 0 <= i < |input| ==> GuessChar(input[i])) &&
      (|input| == 1 ==> LetterAvailable(available, input))
    ensures r.Some? ==> |r.value| == |input| && |r.value| > 0
    ensures r.Some? ==> forall i :: 0 <= i < |r.value| ==>
      GuessChar(r.value[i]) && !('a' <= r.value[i] <= 'z') && ToUpper(input[i]) == r.value[i]
    ensures r.Some? && |input| == 1 ==> Contains(available, r.value)
  {
    if |input| == 0 || exists i :: 0 <= i < |input| && !GuessChar(input[i]) then None
    else if !LetterAvailable(available, input) && |input| == 1 then None
    else Some(ToUpperString(input))
  }

  /** An accepted guess is a valid input to any round. */
  lemma AcceptedGuessPlayable(available: string, input: string, choice: Choice)
    requires AcceptGuess(available, input).Some?
    requires choice.Spin? ==> choice.wheelValue in WHEEL_VALUES
    ensures InputOk(choice, AcceptGuess(available, input).value)
  {
  }

  /** A single space passes the test whenever the available letters contain a space,
      which the separators between the letters always provide. */
  lemma SpaceGuessAccepted(available: string)
    requires ' ' in available
    ensures AcceptGuess(available, " ") == Some(" ")
  {
    ContainsChar(available, ' ');
    assert ToUpperString(" ") == " ";
  }

  /** An accepted space at the letter prompt is looked up like a letter: on a puzzle of
      several words it is found, the player is paid the wheel value once per space and
      keeps the turn, while the board and the available letters stay as they were. */
  lemma SpaceGuessPays(s: Session, v: int)
    requires Shaped(s) && v in WHEEL_VALUES && v > 0 && ' ' in s.puzzle
    ensures var r := Step(s, Spin(v), " ");
      r.balances[Index(s.player)] == s.balances[Index(s.player)] + v * multiset(s.puzzle)[' '] &&
      r.player == s.player && r.board == s.board && r.letters == s.letters
  {
    ContainsChar(s.puzzle, ' ');
    LetterOccurrences(s.puzzle, ' ');
    RevealEffect(s.puzzle, s.board, ' ');
    ReplaceCharAt(s.letters, ' ');
  }

  // ---------------------------------------------------------------------------
  // The game

  class Game {
    const puzzleState: PuzzleState
    var isGameOver: bool

    ghost predicate Valid()
      reads this, puzzleState, puzzleState.ledger, puzzleState.ledger.earnings
    {
      puzzleState.Valid() && (isGameOver ==> puzzleState.IsSolved())
    }

    /** The session this game is in. */
    ghost function View(): Session
      reads this, puzzleState, puzzleState.ledger, puzzleState.ledger.earnings
    {
      var ps := puzzleState;
      Session(ps.letters, ps.currentPuzzle, ps.solvedPuzzle, ps.currentGuess,
              ps.letterOccurrencesInPuzzle, ps.player, ps.ledger.earnings[..], isGameOver)
    }

    /** A new game on `puzzle`, not yet over. */
    constructor (puzzle: string, category: string)
      ensures Valid() && View() == Initial(puzzle)
      ensures fresh(puzzleState) && fresh(puzzleState.ledger) && fresh(puzzleState.ledger.earnings)
    {
      puzzleState := new PuzzleState(puzzle, category);
      isGameOver := false;
    }

    /** A new game on the puzzle the program draws from the corpus with two random
        numbers, through getNewPuzzle as written. */
    constructor Draw(rCategory: real, rPuzzle: real)
      requires 0.0 <= rCategory < 1.0 && 0.0 <= rPuzzle < 1.0
      ensures Valid() && View() == Initial(NewPuzzleAsWritten(rCategory, rPuzzle).1)
      ensures WellFormedPhrase(View().puzzle)
      ensures puzzleState.category == Name(NewPuzzleAsWritten(rCategory, rPuzzle).0)
      ensures fresh(puzzleState) && fresh(puzzleState.ledger) && fresh(puzzleState.ledger.earnings)
    {
      var drawn := NewPuzzleAsWritten(rCategory, rPuzzle);
      puzzleState := new PuzzleState(drawn.1, Name(drawn.0));
      isGameOver := false;
    }

    /** A new game on the puzzle drawn with the corrected, uniform pick, under which every
        phrase of the corpus can come up. */
    constructor DrawUniform(rCategory: real, rPuzzle: real)
      requires 0.0 <= rCategory < 1.0 && 0.0 <= rPuzzle < 1.0
      ensures Valid() && View() == Initial(NewPuzzle(rCategory, rPuzzle).1)
      ensures WellFormedPhrase(View().puzzle)
      ensures puzzleState.category == Name(NewPuzzle(rCategory, rPuzzle).0)
      ensures fresh(puzzleState) && fresh(puzzleState.ledger) && fresh(puzzleState.ledger.earnings)
    {
      var drawn := NewPuzzle(rCategory, rPuzzle);
      puzzleState := new PuzzleState(drawn.1, Name(drawn.0));
      isGameOver := false;
    }

    /** One round of the game loop, given the player's choice and guess. */
    method Round(choice: Choice, guess: string)
      requires Valid() && !isGameOver && InputOk(choice, guess)
      modifies this, puzzleState, puzzleState.ledger.earnings
      ensures Valid() && puzzleState.category == old(puzzleState.category)
      ensures View() == Step(old(View()), choice, guess)
    {
      match choice
      case Spin(wheelValue) =>
        if wheelValue == LOSE_TURN {
          puzzleState.ToggleCurrentPlayer();
        } else if wheelValue == LOSE_TURN_AND_1000 {
          puzzleState.UpdatePlayerAmt(wheelValue);
          puzzleState.ToggleCurrentPlayer();
        } else {
          GuessLetter(wheelValue, guess);
        }
      case GuessPuzzle =>
        puzzleState.SetGuess(guess);
        if puzzleState.IsSolved() {
          isGameOver := true;
        } else {
          puzzleState.ToggleCurrentPlayer();
        }
    }

    /** The rest of a round after the wheel landed on a dollar value: the player's guess
        is consumed, looked up in the puzzle, and either paid and revealed or the turn
        passes. */
    method GuessLetter(wheelValue: int, guess: string)
      requires Valid() && !isGameOver && InputOk(Spin(wheelValue), guess)
      requires wheelValue != LOSE_TURN && wheelValue != LOSE_TURN_AND_1000
      modifies this, puzzleState, puzzleState.ledger.earnings
      ensures Valid() && puzzleState.category == old(puzzleState.category)
      ensures View() == Step(old(View()), Spin(wheelValue), guess)
    {
      puzzleState.SetGuess(guess);
      var found := puzzleState.LetterExists();
      if found {
        RevealAndPay(wheelValue);
      } else {
        puzzleState.ToggleCurrentPlayer();
      }
    }

    /** A found guess: its cells are revealed, the player is paid for every occurrence,
        and the game ends if the puzzle is now solved. */
    method RevealAndPay(wheelValue: int)
      requires Valid() && !isGameOver
      modifies this, puzzleState`solvedPuzzle, puzzleState.ledger.earnings
      ensures Valid() && puzzleState.category == old(puzzleState.category)
      ensures var s := old(View());
        var board := Merge(s.board, Mask(s.puzzle, Guessed(s.guess)));
        View() == s.(board := board, balances := Credit(s, wheelValue, s.occurrences),
                     over := Solved(s.puzzle, s.guess, board))
    {
      puzzleState.UpdateSolvedPuzzle();
      puzzleState.UpdatePlayerAmt(wheelValue);
      if puzzleState.IsSolved() {
        isGameOver := true;
      }
    }

    /** Plays rounds from `turns` while the game is not over; stops early when a round
        solves the puzzle. */
    method Play(turns: seq<Turn>) returns (played: nat)
      requires Valid() && InputsOk(turns)
      modifies this, puzzleState, puzzleState.ledger.earnings
      ensures Valid() && puzzleState.category == old(puzzleState.category)
      ensures View() == Run(old(View()), turns)
      ensures played <= |turns| && (played < |turns| ==> isGameOver)
    {
      played := 0;
      while !isGameOver && played < |turns|
        invariant Valid() && played <= |turns|
        invariant puzzleState.category == old(puzzleState.category)
        invariant Run(View(), turns[played..]) == Run(old(View()), turns)
        decreases |turns| - played
      {
        Round(turns[played].choice, turns[played].guess);
        assert turns[played..][1..] == turns[played + 1..];
        played := played + 1;
      }
    }
  }

  // ---------------------------------------------------------------------------
  // Whole games on a phrase of the corpus

  /** Guessing "PIECE OF CAKE" on that puzzle at once wins the game for Player1. */
  method FullPhraseGuessWins() returns (over: bool, winner: Player, earnings: int)
    ensures over && winner == Player1 && earnings == 0
  {
    var game := new Game("PIECE OF CAKE", "Phrases");
    game.Round(GuessPuzzle, "PIECE OF CAKE");
    over := game.isGameOver;
    winner := game.puzzleState.player;
    earnings := game.puzzleState.GetPlayerEarnings();
  }

  /** Landing on -1000 with a zero balance leaves the balance at zero, passes the turn
      and consumes no letter. */
  method PenaltyAtZeroBalance() returns (balance: int, next: Player, letters: string)
    ensures balance == 0 && next == Player2 && letters == ALPHABET
  {
    var game := new Game("PIECE OF CAKE", "Phrases");
    game.Round(Spin(LOSE_TURN_AND_1000), "");
    balance := game.puzzleState.ledger.GetEarnings(Player1);
    next := game.puzzleState.player;
    letters := game.puzzleState.letters;
  }

  /** The first round of a game, when the wheel pays `v` and the letter occurs in the
      puzzle: Player1 earns `v` per occurrence and keeps the turn, and the letter is used
      up. */
  lemma FirstRoundCorrectLetter(puzzle: string, v: int, c: char)
    requires WellFormedPhrase(puzzle) && v in WHEEL_VALUES && v > 0
    requires 'A' <= c <= 'Z' && c in puzzle
    ensures var r := Step(Initial(puzzle), Spin(v), [c]);
      r.balances == [v * multiset(puzzle)[c], 0, 0] &&
      r.occurrences == multiset(puzzle)[c] && r.player == Player1 &&
      !LetterAvailable(r.letters, [c])
  {
    var s := Initial(puzzle);
    CorrectLetterRound(s, v, c);
  }

  /** ... and when the letter is not the puzzle's first character, that cell is still
      masked, so the game goes on. */
  lemma FirstRoundGoesOn(puzzle: string, v: int, c: char)
    requires WellFormedPhrase(puzzle) && v in WHEEL_VALUES && v > 0
    requires 'A' <= c <= 'Z' && c in puzzle
    requires IsLetter(puzzle[0]) && puzzle[0] != c
    ensures !Step(Initial(puzzle), Spin(v), [c]).over
  {
    var start := Mask(puzzle, NO_GUESS);
    var board := Merge(start, Mask(puzzle, c));
    MaskIsBoard(puzzle, NO_GUESS);
    MaskAt(puzzle, NO_GUESS, 0);
    RevealAt(puzzle, start, c, 0);
    RevealKeepsBoard(puzzle, start, c);
    UnsolvedWhileMasked(puzzle, [c], board, 0);
    ContainsChar(puzzle, c);
    assert Step(Initial(puzzle), Spin(v), [c]).over == Solved(puzzle, [c], board);
  }

  /** Landing on 300 and guessing E in "PIECE OF CAKE", which holds three Es, pays 900;
      Player1 keeps the turn, E is no longer available and the game goes on. */
  method CorrectLetterPays() returns (balance: int, occurrences: nat, current: Player,
                                      available: bool, over: bool)
    ensures balance == 900 && occurrences == 3 && current == Player1
    ensures !available && !over
  {
    var game := new Game("PIECE OF CAKE", "Phrases");
    game.Round(Spin(300), "E");
    PieceOfCake();
    FirstRoundCorrectLetter("PIECE OF CAKE", 300, 'E');
    FirstRoundGoesOn("PIECE OF CAKE", 300, 'E');
    balance := game.puzzleState.GetPlayerEarnings();
    occurrences := game.puzzleState.GetLetterOccurrences();
    current := game.puzzleState.player;
    available := game.puzzleState.IsLetterAvailable("E");
    over := game.isGameOver;
  }
}

/** The puzzle board, the available letters, letter counting, solve detection and the
    earnings rule of one game. The pure definitions below specify the class
    PuzzleState at the end of the module, whose methods update its fields in place. */
module Puzzle {
  import opened JavaStrings
  import opened Players

  /** The letters offered at the start of a game: A to Z, separated by single spaces. */
  const ALPHABET: string := "A B C D E F G H I J K L M N O P Q R S T U V W X Y Z"

  /** The placeholder a board shows for a letter not yet revealed. */
  const MASKED: char := '_'

  /** Character.MIN_VALUE, which stands for the guess while none has been made. */
  const NO_GUESS: char := '\0'

  /** The character a guess reveals: its first one, or NO_GUESS for the empty guess. */
  function Guessed(guess: string): char {
    if |guess| > 0 then guess[0] else NO_GUESS
  }

  /** A phrase the board can display: letters, spaces and apostrophes only. */
  predicate WellFormedPhrase(phrase: string) {
    forall k :: 0 <= k < |phrase| ==> IsLetter(phrase[k]) || phrase[k] == ' ' || phrase[k] == '\''
  }

  // ---------------------------------------------------------------------------
  // The board: two cells per phrase character

  /** What a fresh mask shows for phrase character `c` when `guessed` is guessed. */
  function MaskCell(c: char, guessed: char): char {
    if c == guessed then guessed
    else if c == '\'' then c
    else if c != ' ' then MASKED
    else ' '
  }

  /** The list updateSolvedPuzzle builds before merging: for every phrase character its
      mask cell followed by a space. */
  function Mask(phrase: string, guessed: char): (m: seq<char>)
    ensures |m| == 2 * |phrase|
  {
    if phrase == [] then []
    else Mask(phrase[..|phrase| - 1], guessed) + [MaskCell(phrase[|phrase| - 1], guessed), ' ']
  }

  /** The cell of a board that stands for phrase character `k`. */
  function Cell(board: seq<char>, k: int): char
    requires 0 <= k && 2 * k < |board|
  {
    board[2 * k]
  }

  /** A board of phrase `phrase`: twice as long, a space after every cell, and every cell
      either the phrase character itself or, for a character other than a space or an
      apostrophe, the placeholder. */
  ghost predicate BoardInv(phrase: string, board: seq<char>) {
    |board| == 2 * |phrase| &&
    forall k :: 0 <= k < |phrase| ==>
      board[2 * k + 1] == ' ' &&
      (Cell(board, k) == phrase[k] || (Cell(board, k) == MASKED && phrase[k] != ' ' && phrase[k] != '\''))
  }

  /** No cell of the board is still masked. */
  ghost predicate AllRevealed(phrase: string, board: seq<char>)
    requires |board| == 2 * |phrase|
  {
    forall k :: 0 <= k < |phrase| ==> Cell(board, k) != MASKED
  }

  /** addLettersToSolvedPuzzle: an empty board is replaced by the new list; otherwise
      every cell where the new list holds a letter takes that letter. */
  function Merge(board: seq<char>, newList: seq<char>): seq<char>
    requires board == [] || |newList| <= |board|
  {
    if board == [] then newList
    else seq(|board|, i requires 0 <= i < |board| => MergeCell(board[i], newList, i))
  }

  /** Cell `i` after a merge: the new list's character there if it is a letter. */
  function MergeCell(current: char, newList: seq<char>, i: int): char {
    if 0 <= i < |newList| && IsLetter(newList[i]) then newList[i] else current
  }

  /** Cell 2k of a mask is the mask cell of phrase character k, and cell 2k+1 a space. */
  lemma {:induction false} MaskAt(phrase: string, guessed: char, k: int)
    requires 0 <= k < |phrase|
    ensures Mask(phrase, guessed)[2 * k] == MaskCell(phrase[k], guessed)
    ensures Mask(phrase, guessed)[2 * k + 1] == ' '
  {
    var n := |phrase|;
    if k < n - 1 {
      MaskAt(phrase[..n - 1], guessed, k);
    }
  }

  /** Every mask is a board of its phrase. */
  lemma MaskIsBoard(phrase: string, guessed: char)
    ensures BoardInv(phrase, Mask(phrase, guessed))
  {
    forall k | 0 <= k < |phrase|
      ensures Mask(phrase, guessed)[2 * k + 1] == ' '
      ensures Cell(Mask(phrase, guessed), k) == MaskCell(phrase[k], guessed)
    {
      MaskAt(phrase, guessed, k);
    }
  }

  /** The board a game starts with: letters masked, spaces and apostrophes shown, a space
      after every cell. */
  lemma InitialBoard(phrase: string)
    requires WellFormedPhrase(phrase)
    ensures BoardInv(phrase, Mask(phrase, NO_GUESS))
    ensures forall k :: 0 <= k < |phrase| ==>
      Mask(phrase, NO_GUESS)[2 * k + 1] == ' ' &&
      Cell(Mask(phrase, NO_GUESS), k) == (if IsLetter(phrase[k]) then MASKED else phrase[k])
  {
    MaskIsBoard(phrase, NO_GUESS);
    forall k | 0 <= k < |phrase|
      ensures Cell(Mask(phrase, NO_GUESS), k) == (if IsLetter(phrase[k]) then MASKED else phrase[k])
    {
      MaskAt(phrase, NO_GUESS, k);
      assert phrase[k] != NO_GUESS;
    }
  }

  /** Merging the same list twice is the same as merging it once. */
  lemma MergeIdempotent(board: seq<char>, newList: seq<char>)
    requires board == [] || |newList| <= |board|
    ensures Merge(Merge(board, newList), newList) == Merge(board, newList)
  {
  }

  /** Revealing guess `g` sets the cell of phrase character `k` to `g` when the two agree
      and `g` is a letter, and leaves it, and the space after it, as they were otherwise. */
  lemma RevealAt(phrase: string, board: seq<char>, g: char, k: int)
    requires |board| == 2 * |phrase| && 0 <= k < |phrase|
    ensures |Merge(board, Mask(phrase, g))| == |board|
    ensures Merge(board, Mask(phrase, g))[2 * k + 1] == board[2 * k + 1]
    ensures Cell(Merge(board, Mask(phrase, g)), k) ==
      (if phrase[k] == g && IsLetter(g) then g else Cell(board, k))
  {
    MaskAt(phrase, g, k);
  }

  /** Revealing guess `g` sets exactly the cells of the phrase characters equal to `g`,
      when `g` is a letter, and leaves every other cell as it was. */
  lemma RevealEffect(phrase: string, board: seq<char>, g: char)
    requires |board| == 2 * |phrase|
    ensures |Merge(board, Mask(phrase, g))| == |board|
    ensures forall i :: 0 <= i < |board| ==>
      Merge(board, Mask(phrase, g))[i] ==
        (if i % 2 == 0 && phrase[i / 2] == g && IsLetter(g) then g else board[i])
  {
    forall i | 0 <= i < |board|
      ensures Merge(board, Mask(phrase, g))[i] ==
        (if i % 2 == 0 && phrase[i / 2] == g && IsLetter(g) then g else board[i])
    {
      var k := i / 2;
      if i % 2 == 0 {
        assert i == 2 * k;
      } else {
        assert i == 2 * k + 1;
      }
      RevealAt(phrase, board, g, k);
    }
  }

  /** Revealing keeps a board a board of its phrase and never masks a shown cell again. */
  lemma RevealKeepsBoard(phrase: string, board: seq<char>, g: char)
    requires BoardInv(phrase, board)
    ensures BoardInv(phrase, Merge(board, Mask(phrase, g)))
    ensures forall k :: 0 <= k < |phrase| && Cell(board, k) != MASKED ==>
      Cell(Merge(board, Mask(phrase, g)), k) == Cell(board, k)
  {
    forall k | 0 <= k < |phrase|
      ensures Merge(board, Mask(phrase, g))[2 * k + 1] == board[2 * k + 1]
      ensures Cell(Merge(board, Mask(phrase, g)), k) ==
        (if phrase[k] == g && IsLetter(g) then g else Cell(board, k))
    {
      RevealAt(phrase, board, g, k);
    }
  }

  /** The board after revealing the letters of `guesses` one after the other. */
  function RevealAll(phrase: string, board: seq<char>, guesses: seq<char>): (r: seq<char>)
    requires |board| == 2 * |phrase|
    ensures |r| == |board|
    decreases |guesses|
  {
    if guesses == [] then board
    else RevealAll(phrase, Merge(board, Mask(phrase, guesses[0])), guesses[1..])
  }

  /** Over any sequence of guesses no shown cell is masked again, every phrase character
      that was guessed is shown, and so guessing every letter of the phrase reveals it all. */
  lemma {:induction false} RevealAllMonotone(phrase: string, board: seq<char>, guesses: seq<char>)
    requires BoardInv(phrase, board) && WellFormedPhrase(phrase)
    ensures BoardInv(phrase, RevealAll(phrase, board, guesses))
    ensures forall k :: 0 <= k < |phrase| && Cell(board, k) != MASKED ==>
      Cell(RevealAll(phrase, board, guesses), k) == Cell(board, k)
    ensures forall k :: 0 <= k < |phrase| && phrase[k] in guesses ==>
      Cell(RevealAll(phrase, board, guesses), k) == phrase[k]
    ensures (forall k :: 0 <= k < |phrase| && IsLetter(phrase[k]) ==> phrase[k] in guesses) ==>
      AllRevealed(phrase, RevealAll(phrase, board, guesses))
    decreases |guesses|
  {
    var final := RevealAll(phrase, board, guesses);
    if guesses != [] {
      var g := guesses[0];
      var next := Merge(board, Mask(phrase, g));
      RevealKeepsBoard(phrase, board, g);
      RevealEffect(phrase, board, g);
      RevealAllMonotone(phrase, next, guesses[1..]);
      forall k | 0 <= k < |phrase| && phrase[k] in guesses
        ensures Cell(final, k) == phrase[k]
      {
        if phrase[k] != g {
          assert phrase[k] in guesses[1..];
        } else {
          assert (2 * k) / 2 == k && (2 * k) % 2 == 0;
          assert Cell(next, k) == phrase[k];
        }
      }
    }
    forall k | 0 <= k < |phrase| && !IsLetter(phrase[k])
      ensures Cell(final, k) == phrase[k]
    {
    }
  }

  // ---------------------------------------------------------------------------
  // Solve detection

  /** isSolved: the guess is the phrase, or the phrase and the board agree, ignoring case,
      once all whitespace is removed from both. */
  predicate Solved(phrase: string, guess: string, board: seq<char>) {
    phrase == guess || EqualsIgnoreCase(StripWhitespace(phrase), StripWhitespace(board))
  }

  lemma EqualsIgnoreCaseCons(a: char, x: string, b: char, y: string)
    requires |x| == |y|
    ensures EqualsIgnoreCase([a] + x, [b] + y) <==> ToUpper(a) == ToUpper(b) && EqualsIgnoreCase(x, y)
  {
    if ToUpper(a) == ToUpper(b) && EqualsIgnoreCase(x, y) {
      forall i | 0 <= i < |x| + 1
        ensures ToUpper(([a] + x)[i]) == ToUpper(([b] + y)[i])
      {
        if i > 0 {
          assert ([a] + x)[i] == x[i - 1] && ([b] + y)[i] == y[i - 1];
        }
      }
    }
    if EqualsIgnoreCase([a] + x, [b] + y) {
      assert ToUpper(([a] + x)[0]) == ToUpper(([b] + y)[0]);
      forall i | 0 <= i < |x|
        ensures ToUpper(x[i]) == ToUpper(y[i])
      {
        assert ([a] + x)[i + 1] == x[i] && ([b] + y)[i + 1] == y[i];
      }
    }
  }

  /** Dropping the first phrase character and its two board cells keeps a board. */
  lemma BoardTail(phrase: string, board: seq<char>)
    requires BoardInv(phrase, board) && |phrase| > 0
    ensures BoardInv(phrase[1..], board[2..])
    ensures AllRevealed(phrase, board) <==>
      Cell(board, 0) != MASKED && AllRevealed(phrase[1..], board[2..])
  {
    var p, b := phrase[1..], board[2..];
    forall k | 0 <= k < |p|
      ensures b[2 * k + 1] == ' '
      ensures Cell(b, k) == p[k] || (Cell(b, k) == MASKED && p[k] != ' ' && p[k] != '\'')
    {
      assert p[k] == phrase[k + 1] && Cell(b, k) == Cell(board, k + 1);
      assert b[2 * k + 1] == board[2 * (k + 1) + 1];
    }
    if Cell(board, 0) != MASKED && AllRevealed(p, b) {
      forall k | 0 <= k < |phrase|
        ensures Cell(board, k) != MASKED
      {
        if k > 0 {
          assert Cell(board, k) == Cell(b, k - 1);
        }
      }
    }
    if AllRevealed(phrase, board) {
      forall k | 0 <= k < |p|
        ensures Cell(b, k) != MASKED
      {
        assert Cell(b, k) == Cell(board, k + 1);
      }
    }
  }

  /** For a well-formed phrase, the board comparison inside isSolved holds exactly when
      no cell of the board is still masked. */
  lemma {:induction false} BoardMatchesIffRevealed(phrase: string, board: seq<char>)
    requires BoardInv(phrase, board) && WellFormedPhrase(phrase)
    ensures |StripWhitespace(phrase)| == |StripWhitespace(board)|
    ensures EqualsIgnoreCase(StripWhitespace(phrase), StripWhitespace(board)) <==>
      AllRevealed(phrase, board)
    decreases |phrase|
  {
    if phrase != [] {
      var p, b := phrase[1..], board[2..];
      BoardTail(phrase, board);
      assert WellFormedPhrase(p) by {
        forall k | 0 <= k < |p|
          ensures IsLetter(p[k]) || p[k] == ' ' || p[k] == '\''
        {
          assert p[k] == phrase[k + 1];
        }
      }
      BoardMatchesIffRevealed(p, b);
      assert board[1..][0] == ' ' && board[1..][1..] == b;
      assert StripWhitespace(board[1..]) == StripWhitespace(b);
      assert StripWhitespace(board) ==
        (if IsWhitespace(board[0]) then [] else [board[0]]) + StripWhitespace(b);
      assert StripWhitespace(phrase) ==
        (if IsWhitespace(phrase[0]) then [] else [phrase[0]]) + StripWhitespace(p);
      if phrase[0] != ' ' {
        EqualsIgnoreCaseCons(phrase[0], StripWhitespace(p), board[0], StripWhitespace(b));
      }
    }
  }

  /** isSolved holds, for a well-formed phrase, exactly when the guess is the phrase or
      every cell of the board is revealed. */
  lemma SolvedIff(phrase: string, guess: string, board: seq<char>)
    requires BoardInv(phrase, board) && WellFormedPhrase(phrase)
    ensures Solved(phrase, guess, board) <==> phrase == guess || AllRevealed(phrase, board)
    ensures Solved(phrase, guess, board) <==>
      phrase == guess || forall k :: 0 <= k < |phrase| ==> Cell(board, k) == phrase[k]
  {
    BoardMatchesIffRevealed(phrase, board);
  }

  /** While a cell of a well-formed phrase is still masked, only the phrase itself
      solves the puzzle. */
  lemma UnsolvedWhileMasked(phrase: string, guess: string, board: seq<char>, k: int)
    requires BoardInv(phrase, board) && WellFormedPhrase(phrase)
    requires 0 <= k < |phrase| && Cell(board, k) == MASKED
    ensures Solved(phrase, guess, board) <==> guess == phrase
  {
    SolvedIff(phrase, guess, board);
  }

  /** SolvedIff, for any board: it applies whenever the board is a board of a well-formed
      phrase. */
  lemma SolvedIffOnBoard(phrase: string, guess: string, board: seq<char>)
    ensures BoardInv(phrase, board) && WellFormedPhrase(phrase) ==>
      (Solved(phrase, guess, board) <==> phrase == guess || AllRevealed(phrase, board))
  {
    if BoardInv(phrase, board) && WellFormedPhrase(phrase) {
      SolvedIff(phrase, guess, board);
    }
  }

  // ---------------------------------------------------------------------------
  // Counting occurrences

  /** The number of (possibly overlapping) matches of `sub` in `s` that start at or after
      `from`. */
  function CountFrom(s: string, sub: string, from: nat): nat
    decreases |s| - from
  {
    if from + |sub| > |s| then 0
    else (if MatchAt(s, sub, from) then 1 else 0) + CountFrom(s, sub, from + 1)
  }

  /** The number of start positions of `sub` in `s`. */
  function Occurrences(s: string, sub: string): nat {
    CountFrom(s, sub, 0)
  }

  /** A non-empty needle starts at most once per position. */
  lemma {:induction false} CountFromBound(s: string, sub: string, from: nat)
    requires |sub| > 0 && from <= |s|
    ensures CountFrom(s, sub, from) <= |s| - from
    decreases |s| - from
  {
    if from + |sub| <= |s| {
      CountFromBound(s, sub, from + 1);
    }
  }

  /** Counting from `from` is counting from the first match at or after it. */
  lemma {:induction false} CountFromFirstMatch(s: string, sub: string, from: nat)
    requires |sub| > 0
    ensures IndexOf(s, sub, from) == -1 ==> CountFrom(s, sub, from) == 0
    ensures IndexOf(s, sub, from) != -1 ==> CountFrom(s, sub, from) == CountFrom(s, sub, IndexOf(s, sub, from))
    decreases |s| - from
  {
    if from + |sub| <= |s| && !MatchAt(s, sub, from) {
      CountFromFirstMatch(s, sub, from + 1);
    }
  }

  /** For a one-character needle the count is the number of positions holding it. */
  lemma {:induction false} OccurrencesOfChar(s: string, c: char, from: nat)
    requires from <= |s|
    ensures CountFrom(s, [c], from) == multiset(s[from..])[c]
    decreases |s| - from
  {
    if from < |s| {
      OccurrencesOfChar(s, c, from + 1);
      assert s[from..] == [s[from]] + s[from + 1..];
      assert MatchAt(s, [c], from) <==> s[from] == c by {
        assert s[from..from + 1] == [s[from]];
      }
    }
  }

  /** A needle is counted at least once exactly when the string contains it. */
  lemma {:induction false} OccurrencesPositive(s: string, sub: string, from: nat)
    ensures CountFrom(s, sub, from) > 0 <==> exists k :: from <= k && MatchAt(s, sub, k)
    decreases |s| - from
  {
    if from + |sub| <= |s| {
      OccurrencesPositive(s, sub, from + 1);
      if MatchAt(s, sub, from) {
        assert from <= from && MatchAt(s, sub, from);
      }
      if exists k :: from <= k && MatchAt(s, sub, k) {
        var k :| from <= k && MatchAt(s, sub, k);
        if k != from {
          assert from + 1 <= k;
        }
      }
    }
  }

  /** Occurrences is positive exactly when String.contains holds. */
  lemma OccurrencesPositiveIffContains(s: string, sub: string)
    ensures Occurrences(s, sub) > 0 <==> Contains(s, sub)
  {
    OccurrencesPositive(s, sub, 0);
    if exists k :: 0 <= k && MatchAt(s, sub, k) {
      var k :| 0 <= k && MatchAt(s, sub, k);
      assert 0 <= k <= |s| - |sub| && MatchAt(s, sub, k);
    }
  }

  /** The number of times the letter `c` occurs in `s`. */
  lemma LetterOccurrences(s: string, c: char)
    ensures Occurrences(s, [c]) == multiset(s)[c]
    ensures Occurrences(s, [c]) > 0 <==> c in s
  {
    OccurrencesOfChar(s, c, 0);
    assert s[0..] == s;
  }

  // ---------------------------------------------------------------------------
  // Available letters and the earnings rule

  /** isLetterAvailable: the upper-cased guess occurs in the available-letters string. */
  predicate LetterAvailable(letters: string, guess: string) {
    Contains(letters, ToUpperString(guess))
  }

  /** After an upper-case letter is consumed it is no longer available, the string keeps
      its length, and consuming it again changes nothing. */
  lemma ConsumedLetterUnavailable(letters: string, c: char)
    requires 'A' <= c <= 'Z'
    ensures |Replace(letters, [c], " ")| == |letters|
    ensures !LetterAvailable(Replace(letters, [c], " "), [c])
    ensures Replace(Replace(letters, [c], " "), [c], " ") == Replace(letters, [c], " ")
  {
    assert ToUpperString([c]) == [c];
    ReplaceCharRemoves(letters, c);
  }

  function Max(a: int, b: int): int {
    if a < b then b else a
  }

  /** updatePlayerAmt: a negative wheel value is subtracted, but never below zero; any
      other value is paid once per occurrence of the guessed letter. */
  function UpdatedBalance(balance: int, baseEarning: int, occurrences: nat): (r: int)
    ensures baseEarning < 0 ==> r == Max(0, balance + baseEarning)
    ensures baseEarning >= 0 ==> r - balance == baseEarning * occurrences
    ensures balance >= 0 ==> r >= 0
  {
    if baseEarning < 0 && balance + baseEarning >= 0 then balance + baseEarning
    else if baseEarning < 0 && balance + baseEarning < 0 then 0
    else balance + baseEarning * occurrences
  }

  // ---------------------------------------------------------------------------
  // The state of one game

  class PuzzleState {
    var letters: string
    var category: string
    var currentPuzzle: string
    var solvedPuzzle: seq<char>
    var currentGuess: string
    var letterOccurrencesInPuzzle: nat
    var player: Player
    const ledger: Ledger

    ghost predicate Valid()
      reads this, ledger, ledger.earnings
    {
      ledger.Valid() &&
      BoardInv(currentPuzzle, solvedPuzzle) &&
      letterOccurrencesInPuzzle <= |currentPuzzle| &&
      forall p :: ledger.GetEarnings(p) >= 0
    }

    /** A game on `puzzle`: all letters available, the board masked, Player1 to play and
        every balance zero. The puzzle and its category are chosen by the caller. */
    constructor (puzzle: string, cat: string)
      ensures Valid()
      ensures fresh(ledger) && fresh(ledger.earnings)
      ensures letters == ALPHABET && |letters| == 51
      ensures category == cat && currentPuzzle == puzzle && currentGuess == ""
      ensures solvedPuzzle == Mask(puzzle, NO_GUESS)
      ensures player == Player1 && letterOccurrencesInPuzzle == 0
      ensures ledger.earnings[..] == [0, 0, 0]
    {
      ledger := new Ledger();
      letters := ALPHABET;
      category := cat;
      currentPuzzle := puzzle;
      currentGuess := "";
      solvedPuzzle := [];
      new;
      UpdateSolvedPuzzle();
      player := Init();
      letterOccurrencesInPuzzle := 0;
    }

    /** Builds the mask of the current guess and merges it into the board. */
    method UpdateSolvedPuzzle()
      requires solvedPuzzle == [] || BoardInv(currentPuzzle, solvedPuzzle)
      modifies this`solvedPuzzle
      ensures solvedPuzzle == Merge(old(solvedPuzzle), Mask(currentPuzzle, Guessed(currentGuess)))
      ensures BoardInv(currentPuzzle, solvedPuzzle)
    {
      var guessed := if |currentGuess| > 0 then currentGuess[0] else NO_GUESS;
      var converted: seq<char> := [];
      for k := 0 to |currentPuzzle|
        invariant converted == Mask(currentPuzzle[..k], guessed)
      {
        var c := currentPuzzle[k];
        if c == guessed {
          converted := converted + [guessed];
        } else if c == '\'' {
          converted := converted + [c];
        } else if c != ' ' {
          converted := converted + [MASKED];
        } else {
          converted := converted + [' '];
        }
        converted := converted + [' '];
        assert currentPuzzle[..k + 1][..k] == currentPuzzle[..k];
      }
      assert currentPuzzle[..|currentPuzzle|] == currentPuzzle;
      MaskIsBoard(currentPuzzle, guessed);
      if solvedPuzzle != [] {
        RevealKeepsBoard(currentPuzzle, solvedPuzzle, guessed);
      }
      AddLettersToSolvedPuzzle(converted);
    }

    /** Merges `newList` into the board, in place. */
    method AddLettersToSolvedPuzzle(newList: seq<char>)
      requires solvedPuzzle == [] || |newList| <= |solvedPuzzle|
      modifies this`solvedPuzzle
      ensures solvedPuzzle == Merge(old(solvedPuzzle), newList)
    {
      if solvedPuzzle == [] {
        solvedPuzzle := newList;
      } else {
        for i := 0 to |newList|
          invariant |solvedPuzzle| == |old(solvedPuzzle)|
          invariant forall j :: 0 <= j < |solvedPuzzle| ==>
            solvedPuzzle[j] == (if j < i && IsLetter(newList[j]) then newList[j] else old(solvedPuzzle)[j])
        {
          var c := newList[i];
          if IsLetter(c) {
            solvedPuzzle := solvedPuzzle[i := c];
          }
        }
      }
    }

    /** The board as a string: its cells in order. */
    method GetSolvedPuzzleAsString() returns (output: string)
      ensures output == solvedPuzzle
    {
      output := "";
      for i := 0 to |solvedPuzzle|
        invariant output == solvedPuzzle[..i]
      {
        output := output + [solvedPuzzle[i]];
      }
    }

    /** Records the guess and consumes it from the available letters. */
    method SetGuess(guess: string)
      modifies this`currentGuess, this`letters
      ensures currentGuess == guess
      ensures letters == Replace(old(letters), guess, " ")
    {
      currentGuess := guess;
      UpdateAvailableLetters();
    }

    /** Replaces every occurrence of the current guess in the available letters by a space. */
    method UpdateAvailableLetters()
      modifies this`letters
      ensures letters == Replace(old(letters), currentGuess, " ")
    {
      letters := Replace(letters, currentGuess, " ");
    }

    /** isLetterAvailable; for a one-character guess, whether its upper case is among the
        available letters. */
    function IsLetterAvailable(guess: string): (r: bool)
      reads this
      ensures |guess| == 1 ==> (r <==> ToUpper(guess[0]) in letters)
    {
      if |guess| == 1 then
        assert ToUpperString(guess) == [ToUpper(guess[0])];
        ContainsChar(letters, ToUpper(guess[0]));
        LetterAvailable(letters, guess)
      else
        LetterAvailable(letters, guess)
    }

    /** The number of start positions of the non-empty `sub` in `s`, found by repeated
        indexOf searches each starting one past the previous match. */
    method Count(s: string, sub: string) returns (count: nat)
      requires |sub| > 0
      ensures count == Occurrences(s, sub)
    {
      count := 0;
      var idx := IndexOf(s, sub, 0);
      CountFromFirstMatch(s, sub, 0);
      while idx != -1
        invariant idx == -1 || MatchAt(s, sub, idx)
        invariant count + (if idx == -1 then 0 else CountFrom(s, sub, idx)) == Occurrences(s, sub)
        decreases if idx == -1 then 0 else |s| + 1 - idx
      {
        idx := idx + 1;
        count := count + 1;
        CountFromFirstMatch(s, sub, idx);
        idx := IndexOf(s, sub, idx);
      }
    }

    /** Whether the current guess occurs in the puzzle; if it does, its number of
        occurrences is recorded. */
    method LetterExists() returns (found: bool)
      requires Valid() && |currentGuess| > 0
      modifies this`letterOccurrencesInPuzzle
      ensures Valid()
      ensures found == Contains(currentPuzzle, currentGuess)
      ensures found ==> letterOccurrencesInPuzzle == Occurrences(currentPuzzle, currentGuess) >= 1
      ensures !found ==> letterOccurrencesInPuzzle == old(letterOccurrencesInPuzzle)
    {
      found := false;
      if Contains(currentPuzzle, currentGuess) {
        letterOccurrencesInPuzzle := Count(currentPuzzle, currentGuess);
        OccurrencesPositiveIffContains(currentPuzzle, currentGuess);
        CountFromBound(currentPuzzle, currentGuess, 0);
        found := true;
      }
    }

    /** The stored number of occurrences of the last guess found, which never exceeds the
        length of the puzzle. */
    function GetLetterOccurrences(): (n: nat)
      reads this, ledger, ledger.earnings
      ensures n == letterOccurrencesInPuzzle
      ensures Valid() ==> n <= |currentPuzzle|
    {
      letterOccurrencesInPuzzle
    }

    /** isSolved; on a board of a well-formed puzzle it holds exactly when the guess is the
        puzzle or no cell is masked. */
    function IsSolved(): (r: bool)
      reads this
      ensures BoardInv(currentPuzzle, solvedPuzzle) && WellFormedPhrase(currentPuzzle) ==>
        (r <==> currentGuess == currentPuzzle || AllRevealed(currentPuzzle, solvedPuzzle))
    {
      SolvedIffOnBoard(currentPuzzle, currentGuess, solvedPuzzle);
      Solved(currentPuzzle, currentGuess, solvedPuzzle)
    }

    /** Passes the turn to the next player. */
    method ToggleCurrentPlayer()
      modifies this`player
      ensures player == Next(old(player))
    {
      player := Next(player);
    }

    /** The current player's balance, never negative in a valid state. */
    function GetPlayerEarnings(): (e: int)
      reads this, ledger, ledger.earnings
      requires ledger.Valid()
      ensures e == ledger.earnings[Index(player)]
      ensures Valid() ==> e >= 0
    {
      ledger.GetEarnings(player)
    }

    /** Applies the earnings rule to the current player's balance only. */
    method UpdatePlayerAmt(baseEarning: int)
      requires Valid()
      modifies ledger.earnings
      ensures Valid()
      ensures ledger.earnings[..] == old(ledger.earnings[..])[Index(player) :=
        UpdatedBalance(old(GetPlayerEarnings()), baseEarning, letterOccurrencesInPuzzle)]
    {
      var currentPlayerBalance := GetPlayerEarnings();
      if baseEarning < 0 && currentPlayerBalance + baseEarning >= 0 {
        ledger.SetEarnings(player, baseEarning);
      } else if baseEarning < 0 && currentPlayerBalance + baseEarning < 0 {
        ledger.ResetEarnings(player);
      } else {
        ledger.SetEarnings(player, baseEarning * letterOccurrencesInPuzzle);
      }
      forall p
        ensures ledger.GetEarnings(p) >= 0
      {
        assert old(ledger.GetEarnings(p)) >= 0;
        assert ledger.earnings[Index(p)] == ledger.earnings[..][Index(p)];
      }
    }
  }
}

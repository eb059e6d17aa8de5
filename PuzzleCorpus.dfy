/** The categories and phrases a game is drawn from, and the choice of a phrase from a
    random number in [0, 1). The random number is a parameter; its arithmetic is done on
    exact reals. */
module Corpus {
  import opened JavaStrings
  import opened Puzzle

  datatype Category = Songs | Places | Food | Phrases | Landmarks

  /** The categories in declaration order, as values() lists them. */
  const CATEGORIES: seq<Category> := [Songs, Places, Food, Phrases, Landmarks]

  /** The category's name, as toString gives it. */
  function Name(c: Category): string {
    match c
    case Songs => "Songs"
    case Places => "Places"
    case Food => "Food"
    case Phrases => "Phrases"
    case Landmarks => "Landmarks"
  }

  /** The phrases of each category. */
  function Puzzles(c: Category): seq<string> {
    match c
    case Songs => ["STAIRWAY TO HEAVEN", "WE BELONG TOGETHER", "ROLLING IN THE DEEP",
                   "PLEASE DON'T STOP THE MUSIC"]
    case Places => ["SKI RESORT IN THE MOUNTAINS", "AIR FORCE BASE", "AMUSEMENT PARK",
                    "ADORABLE BOUTIQUE HOTEL"]
    case Food => ["HOMEMADE BISCUITS AND GRAVY", "BOWL OF RAMEN NOODLES",
                  "GIANT SLICE OF APPLE PIE", "ALASKAN KING SALMON FILET"]
    case Phrases => ["A BITTER PILL TO SWALLOW", "PIECE OF CAKE", "BITTER PILL TO SWALLOW",
                     "HARD DAY'S WORK"]
    case Landmarks => ["SHANGHAI WORLD FINANCIAL CENTER", "BROADWAY THEATRE",
                       "GRAND CANYON NATIONAL PARK", "EGYPTIAN PYRAMIDS"]
  }

  /** "PIECE OF CAKE" can be shown on the board and holds three Es. */
  lemma PieceOfCake()
    ensures "PIECE OF CAKE" in Puzzles(Phrases)
    ensures WellFormedPhrase("PIECE OF CAKE")
    ensures 'E' in "PIECE OF CAKE" && multiset("PIECE OF CAKE")['E'] == 3
  {
    assert "PIECE OF CAKE"[2] == 'E';
    assert Puzzles(Phrases)[1] == "PIECE OF CAKE";
  }

  lemma MulBelow(r: real, m: real)
    requires 0.0 <= r < 1.0 && m > 0.0
    ensures 0.0 <= r * m < m
  {
  }

  /** The index getNewPuzzle draws from a list of `size` phrases: the random number times
      one less than the size, truncated. */
  function PuzzleIndexAsWritten(r: real, size: nat): int
    requires 0.0 <= r < 1.0 && size >= 1
  {
    (r * (size - 1) as real).Floor
  }

  /** The index drawn as written is in range but never the last one, so the last phrase
      of every category is never played. */
  lemma LastPuzzleNeverPicked(r: real, size: nat)
    requires 0.0 <= r < 1.0 && size >= 2
    ensures 0 <= PuzzleIndexAsWritten(r, size) < size - 1
  {
    MulBelow(r, (size - 1) as real);
  }

  /** The uniform index into a list of `size` elements: the random number times the size,
      truncated, as Category.getRandom computes it. */
  function PuzzleIndex(r: real, size: nat): (i: int)
    requires 0.0 <= r < 1.0 && size >= 1
    ensures 0 <= i < size
  {
    MulBelow(r, size as real);
    (r * size as real).Floor
  }

  /** Every index, the last included, is drawn for some random number. */
  lemma EveryPuzzleCanBePicked(size: nat, i: nat)
    requires i < size
    ensures 0.0 <= i as real / size as real < 1.0
    ensures PuzzleIndex(i as real / size as real, size) == i
  {
    var r := i as real / size as real;
    assert r * size as real == i as real;
  }

  /** The category and phrase a new game is played on, from two random numbers. */
  function NewPuzzle(rCategory: real, rPuzzle: real): (p: (Category, string))
    requires 0.0 <= rCategory < 1.0 && 0.0 <= rPuzzle < 1.0
    ensures p.1 in Puzzles(p.0) && WellFormedPhrase(p.1)
  {
    var c := CATEGORIES[PuzzleIndex(rCategory, |CATEGORIES|)];
    CorpusWellFormed(c);
    (c, Puzzles(c)[PuzzleIndex(rPuzzle, |Puzzles(c)|)])
  }

  /** The category and phrase getNewPuzzle picks as written. */
  function NewPuzzleAsWritten(rCategory: real, rPuzzle: real): (p: (Category, string))
    requires 0.0 <= rCategory < 1.0 && 0.0 <= rPuzzle < 1.0
    ensures p.1 in Puzzles(p.0) && WellFormedPhrase(p.1)
  {
    var c := CATEGORIES[PuzzleIndex(rCategory, |CATEGORIES|)];
    LastPuzzleNeverPicked(rPuzzle, |Puzzles(c)|);
    CorpusWellFormed(c);
    (c, Puzzles(c)[PuzzleIndexAsWritten(rPuzzle, |Puzzles(c)|)])
  }

  /** As written, the fourth phrase of a category is never played, whatever the random
      numbers: "HARD DAY'S WORK" for instance never comes up. */
  lemma LastPhraseNeverPlayedAsWritten(rCategory: real, rPuzzle: real)
    requires 0.0 <= rCategory < 1.0 && 0.0 <= rPuzzle < 1.0
    ensures var p := NewPuzzleAsWritten(rCategory, rPuzzle);
      p.1 != Puzzles(p.0)[3] && p.1 != "HARD DAY'S WORK"
  {
    var c := CATEGORIES[PuzzleIndex(rCategory, |CATEGORIES|)];
    LastPuzzleNeverPicked(rPuzzle, |Puzzles(c)|);
  }

  /** With the uniform index the same phrase is played for suitable random numbers. */
  lemma LastPhrasePlayable()
    ensures NewPuzzle(0.6, 0.75) == (Phrases, "HARD DAY'S WORK")
  {
    assert PuzzleIndex(0.6, 5) == 3;
    assert PuzzleIndex(0.75, 4) == 3;
  }

  /** Every phrase of the corpus can be shown on the board. */
  lemma CorpusWellFormed(c: Category)
    ensures forall i :: 0 <= i < |Puzzles(c)| ==> WellFormedPhrase(Puzzles(c)[i])
  {
    forall i | 0 <= i < |Puzzles(c)|
      ensures WellFormedPhrase(Puzzles(c)[i])
    {
      PhraseWellFormed(c, Puzzles(c)[i]);
    }
  }

  lemma PhraseWellFormed(c: Category, s: string)
    requires s in Puzzles(c)
    ensures WellFormedPhrase(s)
  {
    match c
    case Songs => SongsWellFormed(s);
    case Places => PlacesWellFormed(s);
    case Food => FoodWellFormed(s);
    case Phrases => PhrasesWellFormed(s);
    case Landmarks => LandmarksWellFormed(s);
  }

  lemma SongsWellFormed(s: string)
    requires s in Puzzles(Songs)
    ensures WellFormedPhrase(s)
  {
  }

  lemma PlacesWellFormed(s: string)
    requires s in Puzzles(Places)
    ensures WellFormedPhrase(s)
  {
  }

  lemma FoodWellFormed(s: string)
    requires s in Puzzles(Food)
    ensures WellFormedPhrase(s)
  {
  }

  lemma PhrasesWellFormed(s: string)
    requires s in Puzzles(Phrases)
    ensures WellFormedPhrase(s)
  {
  }

  lemma LandmarksWellFormed(s: string)
    requires s in Puzzles(Landmarks)
    ensures WellFormedPhrase(s)
  {
  }
}

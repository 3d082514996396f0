/**
 * Per-query scoring and selection: the genre match of a row against the
 * requested genre, the fuzzy score derived from it, the boolean masks of
 * `recommend_games_by_genre` (CLI) and `recommend_games` (GUI), and the
 * projection of the kept rows to the output columns.
 */
module Recommend {
  import opened Strings
  import opened Seqs
  import opened Table
  import Fuzzy

  /** `get_genre_match` in recommended.py: nested conditionals. */
  function GenreMatchCli(gameGenre: Cell, inputGenre: Cell): (g: int)
    ensures g == 0 || g == 1
  {
    if gameGenre.Text? && inputGenre.Text? then
      if Lower(gameGenre.s) == Lower(inputGenre.s) then 1 else 0
    else
      0
  }

  /** `get_genre_match` in recommended_gui.py: one conditional expression. */
  function GenreMatchGui(gameGenre: Cell, inputGenre: Cell): (g: int)
    ensures g == 0 || g == 1
  {
    if gameGenre.Text? && inputGenre.Text? && Lower(gameGenre.s) == Lower(inputGenre.s) then 1 else 0
  }

  function GenreMatchOf(v: Variant, gameGenre: Cell, inputGenre: Cell): int
  {
    match v
    case Cli => GenreMatchCli(gameGenre, inputGenre)
    case Gui => GenreMatchGui(gameGenre, inputGenre)
  }

  /** Both programs' genre match agree on every pair of values. */
  lemma GenreMatchVariantsAgree(gameGenre: Cell, inputGenre: Cell)
    ensures GenreMatchCli(gameGenre, inputGenre) == GenreMatchGui(gameGenre, inputGenre)
  {
  }

  /**
   * The genre match is 1 exactly for two strings equal up to case, and 0 for
   * everything else, non-strings included.
   */
  lemma GenreMatchMeaning(v: Variant, gameGenre: Cell, inputGenre: Cell)
    ensures GenreMatchOf(v, gameGenre, inputGenre) == 0 || GenreMatchOf(v, gameGenre, inputGenre) == 1
    ensures GenreMatchOf(v, gameGenre, inputGenre) == 1 <==>
      gameGenre.Text? && inputGenre.Text? && Lower(gameGenre.s) == Lower(inputGenre.s)
  {
  }

  /** Case does not matter, on either side. */
  lemma GenreMatchIgnoresCase(v: Variant, s: string, t: string)
    ensures GenreMatchOf(v, Text(s), Text(t)) == GenreMatchOf(v, Text(Lower(s)), Text(t))
    ensures GenreMatchOf(v, Text(s), Text(t)) == GenreMatchOf(v, Text(s), Text(Lower(t)))
    ensures GenreMatchOf(v, Text(s), Text(t)) == GenreMatchOf(v, Text(t), Text(s))
  {
    LowerIdempotent(s);
    LowerIdempotent(t);
  }

  /** The genre antecedent is evaluated at a point of its universe {0, 1}. */
  lemma GenreMatchOnUniverse(v: Variant, gameGenre: Cell, inputGenre: Cell)
    ensures GenreMatchOf(v, gameGenre, inputGenre) as real in Fuzzy.GenreVariable().universe
  {
    var g := GenreMatchOf(v, gameGenre, inputGenre);
    assert Fuzzy.GenreVariable().universe[g] == g as real;
  }

  /** The score `get_recommendation` returns for a genre match value, under control system `s`. */
  function RecommendationFor(s: Fuzzy.ControlSystem, g: int): real
    requires Fuzzy.ValidSystem(s)
  {
    Fuzzy.Score(s, g as real)
  }

  /** A row after the first assignment, `df['Genre_Match'] = ...`. */
  function MarkGenre(v: Variant, r: Row, inputGenre: Cell): (m: Row)
    ensures Get(m, GenreMatch) == Number(GenreMatchOf(v, Get(m, Genre), inputGenre) as real)
    ensures forall c :: c != GenreMatch ==> Get(m, c) == Get(r, c)
  {
    Set(r, GenreMatch, Number(GenreMatchOf(v, r.genre, inputGenre) as real))
  }

  /** A row after the second assignment: its `Genre_Match` is read back and its score stored as `Recommendation`. */
  function Scored(s: Fuzzy.ControlSystem, r: Row): (scored: Row)
    requires Fuzzy.ValidSystem(s) && r.genreMatch.Number?
    ensures Get(scored, Recommendation) == Number(Fuzzy.Score(s, r.genreMatch.x))
    ensures forall c :: c != Recommendation ==> Get(scored, c) == Get(r, c)
  {
    Set(r, Recommendation, Number(Fuzzy.Score(s, r.genreMatch.x)))
  }

  /** A row after both assignments: the genre match of the game and its score. */
  function AnnotateRow(v: Variant, s: Fuzzy.ControlSystem, r: Row, inputGenre: Cell): (a: Row)
    requires Fuzzy.ValidSystem(s)
    ensures a.genreMatch == Number(GenreMatchOf(v, r.genre, inputGenre) as real)
    ensures a.recommendation == Number(RecommendationFor(s, GenreMatchOf(v, r.genre, inputGenre)))
    ensures forall c :: c != GenreMatch && c != Recommendation ==> Get(a, c) == Get(r, c)
  {
    Scored(s, MarkGenre(v, r, inputGenre))
  }

  function AnnotateAll(v: Variant, s: Fuzzy.ControlSystem, rows: seq<Row>, inputGenre: Cell): (out: seq<Row>)
    requires Fuzzy.ValidSystem(s)
    ensures |out| == |rows|
  {
    seq(|rows|, i requires 0 <= i < |rows| => AnnotateRow(v, s, rows[i], inputGenre))
  }

  /** Both programs attach the same two values to every row. */
  lemma AnnotationVariantsAgree(s: Fuzzy.ControlSystem, rows: seq<Row>, inputGenre: Cell)
    requires Fuzzy.ValidSystem(s)
    ensures AnnotateAll(Cli, s, rows, inputGenre) == AnnotateAll(Gui, s, rows, inputGenre)
  {
    forall i | 0 <= i < |rows| ensures AnnotateAll(Cli, s, rows, inputGenre)[i] == AnnotateAll(Gui, s, rows, inputGenre)[i] {
      GenreMatchVariantsAgree(rows[i].genre, inputGenre);
    }
  }

  /**
   * A numeric comparison `col >= t` on one cell; a missing cell (NaN) compares
   * false. pandas raises on a text cell instead, so the masks are only applied
   * to columns whose cells are all numbers (see `Pipeline.Dataset.RecommendGames`).
   */
  predicate AtLeast(c: Cell, t: real)
  {
    c.Number? && c.x >= t
  }

  /** `col.str.contains(pattern, case=False, na=False)` for a literal pattern. */
  predicate ContainsIgnoringCase(c: Cell, pattern: string)
  {
    c.Text? && Contains(Lower(c.s), Lower(pattern))
  }

  /** The CLI mask: `df['Recommendation'] >= threshold`. */
  predicate KeepByGenre(r: Row, threshold: real)
  {
    AtLeast(r.recommendation, threshold)
  }

  /** The GUI mask: the score threshold and the three extra filters, all four required. */
  predicate KeepByFilters(r: Row, threshold: real, platform: string, minUserScore: real, rating: string)
  {
    && AtLeast(r.recommendation, threshold)
    && ContainsIgnoringCase(r.platform, platform)
    && AtLeast(r.userScore, minUserScore)
    && ContainsIgnoringCase(r.rating, rating)
  }

  function KeptByGenre(rows: seq<Row>, threshold: real): seq<Row>
  {
    Filter(r => KeepByGenre(r, threshold), rows)
  }

  function KeptByFilters(rows: seq<Row>, threshold: real, platform: string, minUserScore: real, rating: string): seq<Row>
  {
    Filter(r => KeepByFilters(r, threshold, platform, minUserScore, rating), rows)
  }

  /** The seven CLI output columns. */
  datatype GenreResult = GenreResult(
    name: Cell, platform: Cell, yearOfRelease: Cell, genre: Cell,
    publisher: Cell, globalSales: Cell, recommendation: Cell)

  /** The six GUI output columns: no `Global_Sales`. */
  datatype FilterResult = FilterResult(
    name: Cell, platform: Cell, yearOfRelease: Cell, genre: Cell,
    publisher: Cell, recommendation: Cell)

  function ProjectGenre(r: Row): GenreResult
  {
    GenreResult(r.name, r.platform, r.yearOfRelease, r.genre, r.publisher, r.globalSales, r.recommendation)
  }

  function ProjectFilter(r: Row): FilterResult
  {
    FilterResult(r.name, r.platform, r.yearOfRelease, r.genre, r.publisher, r.recommendation)
  }

  /** What `recommend_games_by_genre` returns from an annotated table. */
  function SelectByGenre(rows: seq<Row>, threshold: real): (out: seq<GenreResult>)
  {
    var kept := KeptByGenre(rows, threshold);
    seq(|kept|, i requires 0 <= i < |kept| => ProjectGenre(kept[i]))
  }

  /** What `recommend_games` returns from an annotated table. */
  function SelectByFilters(rows: seq<Row>, threshold: real, platform: string, minUserScore: real, rating: string): (out: seq<FilterResult>)
  {
    var kept := KeptByFilters(rows, threshold, platform, minUserScore, rating);
    seq(|kept|, i requires 0 <= i < |kept| => ProjectFilter(kept[i]))
  }

  // ---------------------------------------------------------------------
  // Properties of the selection

  /** The CLI keeps exactly the rows scoring at least the threshold, as a subsequence of the table. */
  lemma KeptByGenreSpec(rows: seq<Row>, threshold: real)
    ensures IsSubsequence(KeptByGenre(rows, threshold), rows)
    ensures forall r :: r in KeptByGenre(rows, threshold) <==> r in rows && AtLeast(r.recommendation, threshold)
    ensures forall r :: (multiset(KeptByGenre(rows, threshold))[r]
      == if AtLeast(r.recommendation, threshold) then multiset(rows)[r] else 0)
  {
  }

  /** The GUI keeps exactly the rows passing all four conditions, as a subsequence of the table. */
  lemma KeptByFiltersSpec(rows: seq<Row>, threshold: real, platform: string, minUserScore: real, rating: string)
    ensures IsSubsequence(KeptByFilters(rows, threshold, platform, minUserScore, rating), rows)
    ensures forall r :: r in KeptByFilters(rows, threshold, platform, minUserScore, rating) <==>
      && r in rows
      && AtLeast(r.recommendation, threshold)
      && ContainsIgnoringCase(r.platform, platform)
      && AtLeast(r.userScore, minUserScore)
      && ContainsIgnoringCase(r.rating, rating)
    ensures forall r :: (multiset(KeptByFilters(rows, threshold, platform, minUserScore, rating))[r]
      == if KeepByFilters(r, threshold, platform, minUserScore, rating) then multiset(rows)[r] else 0)
  {
  }

  /** Every row `recommend_games_by_genre` returns shows a score of at least the threshold. */
  lemma SelectedByGenreMeetThreshold(rows: seq<Row>, threshold: real)
    ensures forall i :: 0 <= i < |SelectByGenre(rows, threshold)| ==>
      AtLeast(SelectByGenre(rows, threshold)[i].recommendation, threshold)
  {
    var kept := KeptByGenre(rows, threshold);
    KeptByGenreSpec(rows, threshold);
    assert forall i :: 0 <= i < |kept| ==> kept[i] in kept;
  }

  /** Every row `recommend_games` returns shows a score of at least the threshold and the requested platform. */
  lemma SelectedByFiltersMeetThreshold(rows: seq<Row>, threshold: real, platform: string, minUserScore: real, rating: string)
    ensures var out := SelectByFilters(rows, threshold, platform, minUserScore, rating);
      forall i :: 0 <= i < |out| ==>
        AtLeast(out[i].recommendation, threshold) && ContainsIgnoringCase(out[i].platform, platform)
  {
    var kept := KeptByFilters(rows, threshold, platform, minUserScore, rating);
    KeptByFiltersSpec(rows, threshold, platform, minUserScore, rating);
    assert forall i :: 0 <= i < |kept| ==> kept[i] in kept;
  }

  /** The threshold is inclusive: a score equal to it is kept. */
  lemma ThresholdInclusive(r: Row, threshold: real)
    requires r.recommendation == Number(threshold)
    ensures KeepByGenre(r, threshold)
  {
  }

  /** An empty platform or rating filter accepts every string cell. */
  lemma EmptyFilterAcceptsAll(s: string)
    ensures ContainsIgnoringCase(Text(s), "")
  {
    ContainsEmpty(Lower(s));
  }

  /** Case-insensitive containment means the lower-cased pattern occurs in the lower-cased cell. */
  lemma ContainsIgnoringCaseMeaning(c: Cell, pattern: string)
    ensures ContainsIgnoringCase(c, pattern) <==>
      c.Text? && exists i :: OccursAt(Lower(pattern), Lower(c.s), i)
  {
    if c.Text? { ContainsIff(Lower(c.s), Lower(pattern)); }
  }

  /** The extra GUI filters never add a row: its kept rows are a subsequence of the threshold-only ones. */
  lemma FiltersNarrow(rows: seq<Row>, threshold: real, platform: string, minUserScore: real, rating: string)
    ensures IsSubsequence(KeptByFilters(rows, threshold, platform, minUserScore, rating), KeptByGenre(rows, threshold))
    ensures |SelectByFilters(rows, threshold, platform, minUserScore, rating)| <= |SelectByGenre(rows, threshold)|
  {
    FilterMonotone(r => KeepByGenre(r, threshold), r => KeepByFilters(r, threshold, platform, minUserScore, rating), rows);
    SubsequenceLength(KeptByFilters(rows, threshold, platform, minUserScore, rating), KeptByGenre(rows, threshold));
  }

  /** For the same table, genre and threshold, the GUI's rows are among the CLI's, in the same order. */
  lemma GuiWithinCli(s: Fuzzy.ControlSystem, rows: seq<Row>, inputGenre: Cell, threshold: real, platform: string, minUserScore: real, rating: string)
    requires Fuzzy.ValidSystem(s)
    ensures IsSubsequence(
      KeptByFilters(AnnotateAll(Gui, s, rows, inputGenre), threshold, platform, minUserScore, rating),
      KeptByGenre(AnnotateAll(Cli, s, rows, inputGenre), threshold))
  {
    AnnotationVariantsAgree(s, rows, inputGenre);
    FiltersNarrow(AnnotateAll(Gui, s, rows, inputGenre), threshold, platform, minUserScore, rating);
  }

  /** With the default threshold 5 an annotated row is kept exactly when its genre matches. */
  lemma DefaultThresholdKeepsMatches(v: Variant, r: Row, inputGenre: Cell)
    ensures KeepByGenre(AnnotateRow(v, Fuzzy.Control(), r, inputGenre), 5.0) <==> GenreMatchOf(v, r.genre, inputGenre) == 1
  {
    Fuzzy.DefaultThresholdSeparates(GenreMatchOf(v, r.genre, inputGenre));
  }

  /** With the default threshold, an annotated row is in the CLI selection exactly when its genre matches. */
  lemma DefaultQueryKeepsMatches(v: Variant, rows: seq<Row>, inputGenre: Cell, j: int)
    requires 0 <= j < |rows|
    ensures var annotated := AnnotateAll(v, Fuzzy.Control(), rows, inputGenre);
      annotated[j] in KeptByGenre(annotated, 5.0) <==> GenreMatchOf(v, rows[j].genre, inputGenre) == 1
  {
    var annotated := AnnotateAll(v, Fuzzy.Control(), rows, inputGenre);
    KeptByGenreSpec(annotated, 5.0);
    DefaultThresholdKeepsMatches(v, rows[j], inputGenre);
  }

  /** Every attached score lies in [0, 10]. */
  lemma AnnotatedScoreRange(v: Variant, r: Row, inputGenre: Cell)
    ensures var a := AnnotateRow(v, Fuzzy.Control(), r, inputGenre);
      a.recommendation.Number? && 0.0 <= a.recommendation.x <= 10.0
  {
    Fuzzy.ScoreRange(GenreMatchOf(v, r.genre, inputGenre) as real);
  }

  /** "RPG" matches itself and "rpg" but not "Action". */
  lemma ExampleGenreMatches()
    ensures GenreMatchCli(Text("RPG"), Text("RPG")) == 1
    ensures GenreMatchCli(Text("rpg"), Text("RPG")) == 1
    ensures GenreMatchCli(Text("Action"), Text("RPG")) == 0
  {
    assert Lower("RPG") == "rpg";
    assert Lower("rpg") == "rpg";
    assert Lower("Action")[0] == 'a';
  }

  /** With the default threshold, rows of genre RPG and rpg are kept for the query "RPG" and Action is not. */
  lemma ExampleRowsKept(a: Row, b: Row, c: Row)
    requires a.genre == Text("RPG") && b.genre == Text("Action") && c.genre == Text("rpg")
    ensures KeepByGenre(AnnotateRow(Cli, Fuzzy.Control(), a, Text("RPG")), 5.0)
    ensures !KeepByGenre(AnnotateRow(Cli, Fuzzy.Control(), b, Text("RPG")), 5.0)
    ensures KeepByGenre(AnnotateRow(Cli, Fuzzy.Control(), c, Text("RPG")), 5.0)
  {
    ExampleGenreMatches();
    DefaultThresholdKeepsMatches(Cli, a, Text("RPG"));
    DefaultThresholdKeepsMatches(Cli, b, Text("RPG"));
    DefaultThresholdKeepsMatches(Cli, c, Text("RPG"));
  }

  /** Querying "RPG" over RPG, Action and rpg keeps the first and the third row. */
  lemma ExampleQuery(a: Row, b: Row, c: Row)
    requires a.genre == Text("RPG") && b.genre == Text("Action") && c.genre == Text("rpg")
    ensures var annotated := AnnotateAll(Cli, Fuzzy.Control(), [a, b, c], Text("RPG"));
      KeptByGenre(annotated, 5.0) == [annotated[0], annotated[2]]
  {
    var annotated := AnnotateAll(Cli, Fuzzy.Control(), [a, b, c], Text("RPG"));
    assert annotated[0] == AnnotateRow(Cli, Fuzzy.Control(), a, Text("RPG"));
    assert annotated[1] == AnnotateRow(Cli, Fuzzy.Control(), b, Text("RPG"));
    assert annotated[2] == AnnotateRow(Cli, Fuzzy.Control(), c, Text("RPG"));
    ExampleRowsKept(a, b, c);
    FilterDropsMiddle(r => KeepByGenre(r, 5.0), annotated);
  }
}

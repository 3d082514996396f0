/**
 * The shared, mutable table `df` of either program and the operations that
 * change it in place: start-up normalisation, and the two recommend calls,
 * which overwrite `Genre_Match` and `Recommendation` on every row before
 * selecting. Each method is proved against the pure definitions of the
 * Preprocess and Recommend modules.
 */
module Pipeline {
  import opened Wrappers
  import opened Table
  import opened Preprocess
  import opened Recommend
  import Fuzzy
  import Simulation

  class Dataset {
    /** The rows of `df`, in table order. */
    const rows: array<Row>
    /** `recommendation_sim`, shared by every call. */
    const sim: Simulation.ControlSystemSimulation

    /** `pd.read_csv` has produced `raw`; the simulation of the two-rule system is built. */
    constructor(raw: seq<Row>)
      ensures fresh(rows) && fresh(sim)
      ensures rows[..] == raw
      ensures sim.system == Fuzzy.Control() && Fuzzy.ValidSystem(sim.system)
      ensures sim.input.None? && sim.output.None?
    {
      rows := new Row[|raw|](i requires 0 <= i < |raw| => raw[i]);
      Fuzzy.ControlIsValid();
      sim := new Simulation.ControlSystemSimulation(Fuzzy.Control());
    }

    /** `fillna({...}, inplace=True)`, row by row. */
    method FillMissing(v: Variant)
      modifies rows
      ensures rows[..] == FillAll(v, old(rows[..]))
    {
      ghost var before := rows[..];
      for i := 0 to rows.Length
        invariant forall j :: 0 <= j < i ==> rows[j] == FillRow(v, before[j])
        invariant forall j :: i <= j < rows.Length ==> rows[j] == before[j]
      {
        rows[i] := FillRow(v, rows[i]);
      }
      assert forall j :: 0 <= j < rows.Length ==> rows[..][j] == FillAll(v, before)[j];
    }

    /** `User_Score` coerced to a number, unparseable values 0, then multiplied by 10. */
    method CoerceUserScore()
      modifies rows
      ensures rows[..] == CoerceAll(old(rows[..]))
    {
      for i := 0 to rows.Length
        invariant forall j :: 0 <= j < i ==> rows[j] == CoerceRow(old(rows[j]))
        invariant forall j :: i <= j < rows.Length ==> rows[j] == old(rows[j])
      {
        rows[i] := CoerceRow(rows[i]);
      }
    }

    /** `df[c].mean()` over a numeric column: the sum of every cell, zeros included, over the row count. */
    method ColumnMean(c: Column) returns (m: real)
      requires NumericColumn(rows[..], c) && rows.Length > 0
      ensures m == Mean(rows[..], c)
    {
      var sum := 0.0;
      for i := 0 to rows.Length
        invariant NumericColumn(rows[..i], c)
        invariant sum == ColumnSum(rows[..i], c)
      {
        assert rows[..i + 1][..i] == rows[..i];
        sum := sum + Get(rows[i], c).x;
      }
      assert rows[..rows.Length] == rows[..];
      m := sum / rows.Length as real;
    }

    /** `df[c] = df[c].replace(0, df[c].mean())`: the mean is taken once, before any cell changes. */
    method ReplaceZerosWithMean(c: Column)
      requires NumericColumn(rows[..], c)
      modifies rows
      ensures rows[..] == ReplaceZeros(old(rows[..]), c)
    {
      if rows.Length == 0 {
        return;
      }
      var m := ColumnMean(c);
      ghost var before := rows[..];
      for i := 0 to rows.Length
        invariant forall j :: 0 <= j < i ==>
          rows[j] == if Get(before[j], c) == Number(0.0) then Set(before[j], c, Number(m)) else before[j]
        invariant forall j :: i <= j < rows.Length ==> rows[j] == before[j]
      {
        if Get(rows[i], c) == Number(0.0) {
          rows[i] := Set(rows[i], c, Number(m));
        }
      }
    }

    /** The start-up normalisation of either program. */
    method Normalize(v: Variant)
      requires v == Cli ==> CriticScoresNumeric(rows[..])
      modifies rows
      ensures rows[..] == Preprocess.Normalize(v, old(rows[..]))
    {
      ghost var raw := rows[..];
      FillMissing(v);
      CoerceUserScore();
      if v == Cli {
        CoercedCriticNumeric(raw);
        ReplaceZerosWithMean(CriticScore);
      }
      ReplaceZerosWithMean(UserScore);
    }

    /** `df['Genre_Match'] = df['Genre'].apply(...)`: the genre match of every row. */
    method WriteGenreMatch(v: Variant, inputGenre: Cell)
      modifies rows
      ensures forall j :: 0 <= j < rows.Length ==> rows[j] == MarkGenre(v, old(rows[j]), inputGenre)
    {
      for i := 0 to rows.Length
        invariant forall j :: 0 <= j < i ==> rows[j] == MarkGenre(v, old(rows[j]), inputGenre)
        invariant forall j :: i <= j < rows.Length ==> rows[j] == old(rows[j])
      {
        var g := GenreMatchOf(v, rows[i].genre, inputGenre);
        rows[i] := Set(rows[i], GenreMatch, Number(g as real));
      }
    }

    /**
     * `df['Recommendation'] = df.apply(...)`: every row's `Genre_Match` is read
     * back and handed to the shared simulation, whose score is stored.
     */
    method WriteRecommendation()
      requires Fuzzy.ValidSystem(sim.system)
      requires forall j :: 0 <= j < rows.Length ==> rows[j].genreMatch.Number?
      modifies rows, sim
      ensures forall j :: 0 <= j < rows.Length ==> rows[j] == Scored(sim.system, old(rows[j]))
      ensures rows.Length == 0 ==> sim.input == old(sim.input) && sim.output == old(sim.output)
      ensures rows.Length > 0 ==> LastScoredBy(old(rows[rows.Length - 1]))
    {
      for i := 0 to rows.Length
        invariant forall j :: 0 <= j < i ==> rows[j] == Scored(sim.system, old(rows[j]))
        invariant forall j :: i <= j < rows.Length ==> rows[j] == old(rows[j])
        invariant i == 0 ==> sim.input == old(sim.input) && sim.output == old(sim.output)
        invariant i > 0 ==> LastScoredBy(old(rows[i - 1]))
      {
        WriteRecommendationAt(i);
      }
    }

    /** One iteration of `df.apply`: row `i` gets the simulation's score for its `Genre_Match`. */
    method WriteRecommendationAt(i: nat)
      requires Fuzzy.ValidSystem(sim.system)
      requires i < rows.Length && rows[i].genreMatch.Number?
      modifies rows, sim
      ensures rows[i] == Scored(sim.system, old(rows[i]))
      ensures forall j :: 0 <= j < rows.Length && j != i ==> rows[j] == old(rows[j])
      ensures LastScoredBy(old(rows[i]))
    {
      var score := Simulation.GetRecommendation(sim, rows[i].genreMatch.x);
      rows[i] := Set(rows[i], Recommendation, Number(score));
    }

    /**
     * The simulation's slots after it last scored row `r`: the input holds the
     * row's `Genre_Match`, and the output holds its score when `compute()`
     * succeeded; after a failure the output keeps an earlier value.
     */
    ghost predicate LastScoredBy(r: Row)
      reads sim
      requires r.genreMatch.Number? && Fuzzy.ValidSystem(sim.system)
    {
      && sim.input == Some(r.genreMatch.x)
      && (Fuzzy.Infer(sim.system, r.genreMatch.x).Success? ==> sim.output == Some(Fuzzy.Score(sim.system, r.genreMatch.x)))
    }

    /** Both assignments of a recommend call: every row annotated for `inputGenre`. */
    method Annotate(v: Variant, inputGenre: Cell)
      requires Fuzzy.ValidSystem(sim.system)
      modifies rows, sim
      ensures rows[..] == AnnotateAll(v, sim.system, old(rows[..]), inputGenre)
      ensures rows.Length > 0 ==> sim.input == Some(GenreMatchOf(v, old(rows[rows.Length - 1]).genre, inputGenre) as real)
      ensures rows.Length > 0 ==> rows[rows.Length - 1].genreMatch.Number? && LastScoredBy(rows[rows.Length - 1])
      ensures rows.Length == 0 ==> sim.input == old(sim.input) && sim.output == old(sim.output)
    {
      ghost var before := rows[..];
      WriteGenreMatch(v, inputGenre);
      WriteRecommendation();
      assert forall j :: 0 <= j < rows.Length ==> rows[..][j] == AnnotateAll(v, sim.system, before, inputGenre)[j];
    }

    /** `recommend_games_by_genre`: annotate, keep the rows scoring at least `threshold`, project seven columns. */
    method RecommendGamesByGenre(inputGenre: Cell, threshold: real) returns (result: seq<GenreResult>)
      requires Fuzzy.ValidSystem(sim.system)
      modifies rows, sim
      ensures rows[..] == AnnotateAll(Cli, sim.system, old(rows[..]), inputGenre)
      ensures result == SelectByGenre(rows[..], threshold)
      ensures rows.Length > 0 ==> rows[rows.Length - 1].genreMatch.Number? && LastScoredBy(rows[rows.Length - 1])
      ensures rows.Length == 0 ==> sim.input == old(sim.input) && sim.output == old(sim.output)
    {
      Annotate(Cli, inputGenre);
      result := SelectByGenre(rows[..], threshold);
    }

    /** `recommend_games`: annotate, keep the rows passing all four conditions, project six columns. */
    method RecommendGames(inputGenre: Cell, platform: string, minUserScore: real, rating: string, threshold: real)
      returns (result: seq<FilterResult>)
      requires Fuzzy.ValidSystem(sim.system)
      requires NumericColumn(rows[..], UserScore)
      modifies rows, sim
      ensures rows[..] == AnnotateAll(Gui, sim.system, old(rows[..]), inputGenre)
      ensures result == SelectByFilters(rows[..], threshold, platform, minUserScore, rating)
      ensures rows.Length > 0 ==> rows[rows.Length - 1].genreMatch.Number? && LastScoredBy(rows[rows.Length - 1])
      ensures rows.Length == 0 ==> sim.input == old(sim.input) && sim.output == old(sim.output)
    {
      Annotate(Gui, inputGenre);
      result := SelectByFilters(rows[..], threshold, platform, minUserScore, rating);
    }
  }

  /**
   * The GUI's minimum user score is compared with the rescaled value: a raw
   * score that parses to a non-zero `p` passes a minimum `m` exactly when
   * `10 * p >= m`.
   */
  lemma MinUserScoreSeesRescaled(rows: seq<Row>, i: int, minUserScore: real)
    requires 0 <= i < |rows| && NumericValue(rows[i].userScore) != 0.0
    ensures AtLeast(Get(NormalizeGui(rows)[i], UserScore), minUserScore)
      <==> NumericValue(rows[i].userScore) * 10.0 >= minUserScore
  {
    NormalizedUserScore(Gui, rows, i);
  }
}

/**
 * Normalisation of the raw table, as both programs do it once at start-up:
 * `fillna` with per-column defaults, `User_Score` coerced to a number and
 * rescaled by 10, then zero scores replaced by the column mean. The CLI
 * mean-replaces `Critic_Score` and `User_Score`; the GUI only `User_Score`,
 * and the GUI also fills `Platform`.
 */
module Preprocess {
  import opened Wrappers
  import opened Strings
  import opened Table

  /** The `fillna` table: the default of each listed column, `None` for unlisted ones. */
  function Default(v: Variant, c: Column): Option<Cell>
  {
    match c
    case CriticScore | UserScore | NaSales | EuSales | JpSales | OtherSales | GlobalSales =>
      Some(Number(0.0))
    case Publisher | Developer | Rating | Genre =>
      Some(Text(""))
    case Platform =>
      if v == Gui then Some(Text("")) else None
    case _ => None
  }

  function FillCell(cell: Cell, d: Option<Cell>): Cell
  {
    if cell.Missing? && d.Some? then d.value else cell
  }

  /** `fillna(..., inplace=True)` on one row. */
  function FillRow(v: Variant, r: Row): Row
  {
    Row(
      FillCell(r.name, Default(v, Name)), FillCell(r.platform, Default(v, Platform)),
      FillCell(r.yearOfRelease, Default(v, YearOfRelease)), FillCell(r.genre, Default(v, Genre)),
      FillCell(r.publisher, Default(v, Publisher)), FillCell(r.developer, Default(v, Developer)),
      FillCell(r.criticScore, Default(v, CriticScore)), FillCell(r.userScore, Default(v, UserScore)),
      FillCell(r.rating, Default(v, Rating)), FillCell(r.naSales, Default(v, NaSales)),
      FillCell(r.euSales, Default(v, EuSales)), FillCell(r.jpSales, Default(v, JpSales)),
      FillCell(r.otherSales, Default(v, OtherSales)), FillCell(r.globalSales, Default(v, GlobalSales)),
      FillCell(r.genreMatch, Default(v, GenreMatch)), FillCell(r.recommendation, Default(v, Recommendation)))
  }

  lemma FillRowColumn(v: Variant, r: Row, c: Column)
    ensures Get(FillRow(v, r), c) == FillCell(Get(r, c), Default(v, c))
  {
    match c
    case Name => case Platform => case YearOfRelease => case Genre => case Publisher =>
    case Developer => case CriticScore => case UserScore => case Rating => case NaSales =>
    case EuSales => case JpSales => case OtherSales => case GlobalSales => case GenreMatch =>
    case Recommendation =>
  }

  /**
   * Filling gives every listed column a value, puts the default exactly where
   * a cell was missing, and leaves present cells and unlisted columns alone.
   */
  lemma FillRowSpec(v: Variant, r: Row, c: Column)
    ensures Default(v, c).Some? ==> !Get(FillRow(v, r), c).Missing?
    ensures Default(v, c).Some? && Get(r, c).Missing? ==> Get(FillRow(v, r), c) == Default(v, c).value
    ensures !Get(r, c).Missing? ==> Get(FillRow(v, r), c) == Get(r, c)
    ensures Default(v, c).None? ==> Get(FillRow(v, r), c) == Get(r, c)
  {
    FillRowColumn(v, r, c);
  }

  function FillAll(v: Variant, rows: seq<Row>): (out: seq<Row>)
    ensures |out| == |rows|
  {
    seq(|rows|, i requires 0 <= i < |rows| => FillRow(v, rows[i]))
  }

  /** `pd.to_numeric(..., errors='coerce').fillna(0)` on one cell. */
  function NumericValue(c: Cell): real
  {
    match c
    case Number(x) => x
    case Text(s) => (match ParseDecimal(s) case Some(x) => x case None => 0.0)
    case Missing => 0.0
  }

  /** The user score as a number, rescaled from the 0-10 to the 0-100 scale. */
  function CoerceRow(r: Row): (f: Row)
    ensures Get(f, UserScore) == Number(NumericValue(r.userScore) * 10.0)
    ensures forall c :: c != UserScore ==> Get(f, c) == Get(r, c)
  {
    Set(r, UserScore, Number(NumericValue(r.userScore) * 10.0))
  }

  function CoerceAll(rows: seq<Row>): (out: seq<Row>)
    ensures |out| == |rows| && NumericColumn(out, UserScore)
  {
    seq(|rows|, i requires 0 <= i < |rows| => CoerceRow(rows[i]))
  }

  /** `col.replace(0, col.mean())`: zeros become the mean of the whole column, zeros included. */
  function ReplaceZeros(rows: seq<Row>, c: Column): (out: seq<Row>)
    requires NumericColumn(rows, c)
    ensures |out| == |rows| && NumericColumn(out, c)
    ensures forall i, d :: 0 <= i < |rows| && d != c ==> Get(out[i], d) == Get(rows[i], d)
    ensures forall i :: 0 <= i < |rows| && Get(rows[i], c) != Number(0.0) ==> out[i] == rows[i]
    ensures forall i :: 0 <= i < |rows| && Get(rows[i], c) == Number(0.0) ==>
              Get(out[i], c) == Number(Mean(rows, c))
  {
    if |rows| == 0 then rows
    else
      var m := Mean(rows, c);
      seq(|rows|, i requires 0 <= i < |rows| =>
        if Get(rows[i], c) == Number(0.0) then Set(rows[i], c, Number(m)) else rows[i])
  }

  /** The raw critic scores are numbers or missing, as `mean()` needs. */
  predicate CriticScoresNumeric(rows: seq<Row>)
  {
    forall i :: 0 <= i < |rows| ==> !rows[i].criticScore.Text?
  }

  /** recommended.py, lines 10-30. */
  function NormalizeCli(rows: seq<Row>): (out: seq<Row>)
    requires CriticScoresNumeric(rows)
    ensures |out| == |rows|
  {
    var filled := CoerceAll(FillAll(Cli, rows));
    assert NumericColumn(filled, CriticScore) by {
      forall i | 0 <= i < |filled| ensures Get(filled[i], CriticScore).Number? {
        FillRowColumn(Cli, rows[i], CriticScore);
        assert Get(FillAll(Cli, rows)[i], CriticScore) == Get(filled[i], CriticScore);
      }
    }
    ReplaceZeros(ReplaceZeros(filled, CriticScore), UserScore)
  }

  /** recommended_gui.py, lines 11-30. */
  function NormalizeGui(rows: seq<Row>): (out: seq<Row>)
    ensures |out| == |rows|
  {
    ReplaceZeros(CoerceAll(FillAll(Gui, rows)), UserScore)
  }

  function Normalize(v: Variant, rows: seq<Row>): (out: seq<Row>)
    requires v == Cli ==> CriticScoresNumeric(rows)
  {
    if v == Cli then NormalizeCli(rows) else NormalizeGui(rows)
  }

  // ---------------------------------------------------------------------
  // Properties

  /** A cell of the filled and coerced table, before any mean replacement. */
  lemma CoercedCell(v: Variant, rows: seq<Row>, i: int, c: Column)
    requires 0 <= i < |rows|
    ensures Get(CoerceAll(FillAll(v, rows))[i], c) ==
      if c == UserScore then Number(NumericValue(FillRow(v, rows[i]).userScore) * 10.0)
      else FillCell(Get(rows[i], c), Default(v, c))
  {
    FillRowColumn(v, rows[i], c);
  }

  /** After normalisation no listed column has a missing cell; the user score (and in the CLI the critic score) is a number. */
  lemma NormalizedComplete(v: Variant, rows: seq<Row>, i: int, c: Column)
    requires v == Cli ==> CriticScoresNumeric(rows)
    requires 0 <= i < |rows| && Default(v, c).Some?
    ensures !Get(Normalize(v, rows)[i], c).Missing?
    ensures Get(Normalize(v, rows)[i], UserScore).Number?
    ensures v == Cli ==> Get(Normalize(v, rows)[i], CriticScore).Number?
  {
    var coerced := CoerceAll(FillAll(v, rows));
    CoercedCell(v, rows, i, c);
    if v == Cli {
      CoercedCell(v, rows, i, CriticScore);
      CoercedCriticNumeric(rows);
      var once := ReplaceZeros(coerced, CriticScore);
      assert Normalize(v, rows) == ReplaceZeros(once, UserScore);
    } else {
      assert Normalize(v, rows) == ReplaceZeros(coerced, UserScore);
    }
  }

  /** In the CLI, filling and coercing leave a numeric critic-score column. */
  lemma CoercedCriticNumeric(rows: seq<Row>)
    requires CriticScoresNumeric(rows)
    ensures NumericColumn(CoerceAll(FillAll(Cli, rows)), CriticScore)
  {
    var filled := FillAll(Cli, rows);
    var coerced := CoerceAll(filled);
    forall j | 0 <= j < |coerced| ensures Get(coerced[j], CriticScore).Number? {
      FillRowColumn(Cli, rows[j], CriticScore);
      assert Get(coerced[j], CriticScore) == Get(filled[j], CriticScore);
    }
  }

  /**
   * The user score ends up as the parsed raw value (0 if unparseable or
   * missing) times 10, unless that is 0, in which case it is the mean of the
   * rescaled column.
   */
  lemma NormalizedUserScore(v: Variant, rows: seq<Row>, i: int)
    requires v == Cli ==> CriticScoresNumeric(rows)
    requires 0 <= i < |rows|
    ensures var p := NumericValue(rows[i].userScore) * 10.0;
      Get(Normalize(v, rows)[i], UserScore) ==
        if p != 0.0 then Number(p) else Number(Mean(CoerceAll(FillAll(v, rows)), UserScore))
  {
    var filled := FillAll(v, rows);
    var coerced := CoerceAll(filled);
    assert NumericValue(filled[i].userScore) == NumericValue(rows[i].userScore) by {
      FillRowColumn(v, rows[i], UserScore);
    }
    if v == Cli {
      CoercedCriticNumeric(rows);
      var once := ReplaceZeros(coerced, CriticScore);
      assert Get(once[i], UserScore) == Get(coerced[i], UserScore);
      assert forall j :: 0 <= j < |once| ==> Get(once[j], UserScore) == Get(coerced[j], UserScore);
      MeanAgrees(once, coerced, UserScore);
      assert Normalize(v, rows) == ReplaceZeros(once, UserScore);
    }
  }

  /**
   * In the CLI the critic score ends up as the raw number (0 if missing),
   * unless that is 0, in which case it is the mean of the filled column.
   */
  lemma NormalizedCriticScore(rows: seq<Row>, i: int)
    requires CriticScoresNumeric(rows)
    requires 0 <= i < |rows|
    ensures var filled := CoerceAll(FillAll(Cli, rows));
      var p := if rows[i].criticScore.Number? then rows[i].criticScore.x else 0.0;
      && NumericColumn(filled, CriticScore)
      && Get(NormalizeCli(rows)[i], CriticScore) ==
           if p != 0.0 then Number(p) else Number(Mean(filled, CriticScore))
  {
    var filled := CoerceAll(FillAll(Cli, rows));
    CoercedCriticNumeric(rows);
    CoercedCell(Cli, rows, i, CriticScore);
    var once := ReplaceZeros(filled, CriticScore);
    assert NormalizeCli(rows) == ReplaceZeros(once, UserScore);
  }

  /** Two tables that agree on a numeric column have the same mean there. */
  lemma {:induction false} MeanAgrees(a: seq<Row>, b: seq<Row>, c: Column)
    requires |a| == |b| && NumericColumn(a, c) && NumericColumn(b, c)
    requires forall j :: 0 <= j < |a| ==> Get(a[j], c) == Get(b[j], c)
    ensures ColumnSum(a, c) == ColumnSum(b, c)
    ensures |a| > 0 ==> Mean(a, c) == Mean(b, c)
  {
    if |a| > 0 {
      MeanAgrees(a[..|a| - 1], b[..|b| - 1], c);
    }
  }

  /** The GUI leaves a zero critic score at zero: it fills but never mean-replaces that column. */
  lemma GuiCriticScoreOnlyFilled(rows: seq<Row>, i: int)
    requires 0 <= i < |rows|
    ensures Get(NormalizeGui(rows)[i], CriticScore) == FillCell(rows[i].criticScore, Some(Number(0.0)))
  {
    FillRowColumn(Gui, rows[i], CriticScore);
  }

  /**
   * Replacing zeros twice is replacing them once: after the first pass the only
   * zeros left are those replaced by a zero mean.
   */
  lemma ReplaceZerosIdempotent(rows: seq<Row>, c: Column)
    requires NumericColumn(rows, c)
    ensures ReplaceZeros(ReplaceZeros(rows, c), c) == ReplaceZeros(rows, c)
  {
    var once := ReplaceZeros(rows, c);
    if |rows| > 0 {
      var m := Mean(rows, c);
      if m == 0.0 {
        forall i | 0 <= i < |rows| ensures once[i] == rows[i] {
          if Get(rows[i], c) == Number(0.0) {
            RowExtensionality(once[i], rows[i]);
          }
        }
        assert once == rows;
      } else {
        assert forall i :: 0 <= i < |once| ==> Get(once[i], c) != Number(0.0);
      }
    }
  }

  /** When the mean is not zero, no zero is left in the column. */
  lemma ReplaceZerosLeavesNoZero(rows: seq<Row>, c: Column, i: int)
    requires NumericColumn(rows, c) && 0 <= i < |rows| && Mean(rows, c) != 0.0
    ensures Get(ReplaceZeros(rows, c)[i], c) != Number(0.0)
  {
  }

  /** Three rows whose critic scores are missing, 50 and 70. */
  predicate CriticExample(rows: seq<Row>)
  {
    |rows| == 3 && rows[0].criticScore == Missing
    && rows[1].criticScore == Number(50.0) && rows[2].criticScore == Number(70.0)
  }

  lemma CriticExampleNumeric(rows: seq<Row>)
    requires CriticExample(rows)
    ensures CriticScoresNumeric(rows)
  {
  }

  /** After filling, the example's critic scores are 0, 50 and 70, whose mean is 40. */
  lemma CriticExampleFilled(rows: seq<Row>)
    requires CriticExample(rows)
    ensures var coerced := CoerceAll(FillAll(Cli, rows));
      && NumericColumn(coerced, CriticScore)
      && Get(coerced[0], CriticScore) == Number(0.0)
      && Get(coerced[1], CriticScore) == Number(50.0)
      && Get(coerced[2], CriticScore) == Number(70.0)
      && Mean(coerced, CriticScore) == 40.0
  {
    var coerced := CoerceAll(FillAll(Cli, rows));
    FillRowColumn(Cli, rows[0], CriticScore);
    FillRowColumn(Cli, rows[1], CriticScore);
    FillRowColumn(Cli, rows[2], CriticScore);
    CriticExampleNumeric(rows);
    CoercedCriticNumeric(rows);
    var scores := [0.0, 50.0, 70.0];
    assert forall j :: 0 <= j < 3 ==> Get(coerced[j], CriticScore) == Number(scores[j]);
    assert coerced[..2][..1] == coerced[..1];
    assert coerced[..3][..2] == coerced[..2];
    assert coerced[..3] == coerced;
    assert ColumnSum(coerced[..1], CriticScore) == 0.0;
    assert ColumnSum(coerced[..2], CriticScore) == 50.0;
  }

  /**
   * Missing, 50 and 70 critic scores become 40, 50 and 70: the missing score
   * is first filled with 0 and the mean is taken with that 0 in it.
   */
  lemma CriticMeanIncludesFilledZeros(rows: seq<Row>)
    requires CriticExample(rows)
    ensures (CriticExampleNumeric(rows); var out := NormalizeCli(rows);
      out[0].criticScore == Number(40.0) && out[1].criticScore == Number(50.0) && out[2].criticScore == Number(70.0))
  {
    CriticExampleNumeric(rows);
    var coerced := CoerceAll(FillAll(Cli, rows));
    CriticExampleFilled(rows);
    var once := ReplaceZeros(coerced, CriticScore);
    var out := ReplaceZeros(once, UserScore);
    assert NormalizeCli(rows) == out;
    assert forall j :: 0 <= j < 3 ==> Get(out[j], CriticScore) == Get(once[j], CriticScore);
  }

  /** CLI normalisation leaves a critic-score column that can be normalised again. */
  lemma NormalizedCriticNumeric(rows: seq<Row>)
    requires CriticScoresNumeric(rows)
    ensures CriticScoresNumeric(NormalizeCli(rows))
  {
    forall j | 0 <= j < |rows| ensures !NormalizeCli(rows)[j].criticScore.Text? {
      NormalizedComplete(Cli, rows, j, CriticScore);
    }
  }

  /**
   * Normalising an already normalised table rescales a non-zero user score a
   * second time: a raw value p becomes 10p, then 100p.
   */
  lemma NormalizeRescalesAgain(rows: seq<Row>, i: int)
    requires CriticScoresNumeric(rows) && 0 <= i < |rows|
    requires NumericValue(rows[i].userScore) != 0.0
    ensures NormalizeCli(rows)[i].userScore == Number(NumericValue(rows[i].userScore) * 10.0)
    ensures (NormalizedCriticNumeric(rows);
      NormalizeCli(NormalizeCli(rows))[i].userScore == Number(NumericValue(rows[i].userScore) * 100.0))
  {
    var p := NumericValue(rows[i].userScore);
    NormalizedUserScore(Cli, rows, i);
    var once := NormalizeCli(rows);
    NormalizedCriticNumeric(rows);
    NormalizedUserScore(Cli, once, i);
    assert NumericValue(once[i].userScore) == p * 10.0;
    assert p * 10.0 * 10.0 == p * 100.0;
  }
}

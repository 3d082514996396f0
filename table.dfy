/**
 * The game table: one row per catalogue entry, one cell per column. A cell
 * is missing (NaN), a string, or a number, which is what a pandas object
 * column can hold and what `isinstance(..., str)` and `na=False` look at.
 */
module Table {

  datatype Cell = Missing | Text(s: string) | Number(x: real)

  /** Which of the two programs a definition belongs to. */
  datatype Variant = Cli | Gui

  datatype Row = Row(
    name: Cell, platform: Cell, yearOfRelease: Cell, genre: Cell,
    publisher: Cell, developer: Cell, criticScore: Cell, userScore: Cell,
    rating: Cell, naSales: Cell, euSales: Cell, jpSales: Cell,
    otherSales: Cell, globalSales: Cell,
    genreMatch: Cell, recommendation: Cell)

  datatype Column =
    | Name | Platform | YearOfRelease | Genre | Publisher | Developer
    | CriticScore | UserScore | Rating | NaSales | EuSales | JpSales
    | OtherSales | GlobalSales | GenreMatch | Recommendation

  function Get(r: Row, c: Column): Cell
  {
    match c
    case Name => r.name
    case Platform => r.platform
    case YearOfRelease => r.yearOfRelease
    case Genre => r.genre
    case Publisher => r.publisher
    case Developer => r.developer
    case CriticScore => r.criticScore
    case UserScore => r.userScore
    case Rating => r.rating
    case NaSales => r.naSales
    case EuSales => r.euSales
    case JpSales => r.jpSales
    case OtherSales => r.otherSales
    case GlobalSales => r.globalSales
    case GenreMatch => r.genreMatch
    case Recommendation => r.recommendation
  }

  /** Overwrite one cell; every other column of the row is left as it was. */
  function Set(r: Row, c: Column, v: Cell): (r': Row)
    ensures Get(r', c) == v
    ensures forall d :: d != c ==> Get(r', d) == Get(r, d)
  {
    match c
    case Name => r.(name := v)
    case Platform => r.(platform := v)
    case YearOfRelease => r.(yearOfRelease := v)
    case Genre => r.(genre := v)
    case Publisher => r.(publisher := v)
    case Developer => r.(developer := v)
    case CriticScore => r.(criticScore := v)
    case UserScore => r.(userScore := v)
    case Rating => r.(rating := v)
    case NaSales => r.(naSales := v)
    case EuSales => r.(euSales := v)
    case JpSales => r.(jpSales := v)
    case OtherSales => r.(otherSales := v)
    case GlobalSales => r.(globalSales := v)
    case GenreMatch => r.(genreMatch := v)
    case Recommendation => r.(recommendation := v)
  }

  /** Two rows that agree on every column are the same row. */
  lemma RowExtensionality(r: Row, r': Row)
    requires forall c :: Get(r, c) == Get(r', c)
    ensures r == r'
  {
    assert Get(r, Name) == Get(r', Name) && Get(r, Platform) == Get(r', Platform);
    assert Get(r, YearOfRelease) == Get(r', YearOfRelease) && Get(r, Genre) == Get(r', Genre);
    assert Get(r, Publisher) == Get(r', Publisher) && Get(r, Developer) == Get(r', Developer);
    assert Get(r, CriticScore) == Get(r', CriticScore) && Get(r, UserScore) == Get(r', UserScore);
    assert Get(r, Rating) == Get(r', Rating) && Get(r, NaSales) == Get(r', NaSales);
    assert Get(r, EuSales) == Get(r', EuSales) && Get(r, JpSales) == Get(r', JpSales);
    assert Get(r, OtherSales) == Get(r', OtherSales) && Get(r, GlobalSales) == Get(r', GlobalSales);
    assert Get(r, GenreMatch) == Get(r', GenreMatch) && Get(r, Recommendation) == Get(r', Recommendation);
  }

  /** Every cell of column `c` holds a number. */
  predicate NumericColumn(rows: seq<Row>, c: Column)
  {
    forall i :: 0 <= i < |rows| ==> Get(rows[i], c).Number?
  }

  /** Sum of a numeric column, accumulated from the first row to the last. */
  function ColumnSum(rows: seq<Row>, c: Column): real
    requires NumericColumn(rows, c)
  {
    if rows == [] then 0.0
    else ColumnSum(rows[..|rows| - 1], c) + Get(rows[|rows| - 1], c).x
  }

  /** `Series.mean()` of a numeric column without NaN: every cell counts, zeros included. */
  function Mean(rows: seq<Row>, c: Column): real
    requires NumericColumn(rows, c) && |rows| > 0
  {
    ColumnSum(rows, c) / |rows| as real
  }
}

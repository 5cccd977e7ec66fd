/**
 * The fixed table of World Cup finals (year, winner, runner-up) and the
 * normalisation that folds the historical name "West Germany" into "Germany"
 * in both name columns before anything is counted.
 */
module Dataset {

  /** One row of the table: a tournament and its two finalists. */
  datatype Record = Record(year: int, winner: string, runnerUp: string)

  /** The three columns as they are written in the program. */
  const YearLiterals: seq<int> :=
    [1930, 1934, 1938, 1950, 1954, 1958, 1962, 1966, 1970, 1974, 1978,
     1982, 1986, 1990, 1994, 1998, 2002, 2006, 2010, 2014, 2018, 2022]

  const WinnerLiterals: seq<string> :=
    ["Uruguay", "Italy", "Italy", "Uruguay", "West Germany", "Brazil", "Brazil",
     "England", "Brazil", "West Germany", "Argentina", "Italy", "Argentina",
     "West Germany", "Brazil", "France", "Brazil", "Italy", "Spain", "Germany",
     "France", "Argentina"]

  const RunnerUpLiterals: seq<string> :=
    ["Argentina", "Czechoslovakia", "Hungary", "Brazil", "Hungary", "Sweden",
     "Czechoslovakia", "West Germany", "Italy", "Netherlands", "Netherlands",
     "West Germany", "West Germany", "Argentina", "Italy", "Brazil", "Germany",
     "France", "Netherlands", "Argentina", "Croatia", "France"]

  const WestGermany: string := "West Germany"
  const Germany: string := "Germany"

  function YearColumn(t: seq<Record>): seq<int> {
    seq(|t|, i requires 0 <= i < |t| => t[i].year)
  }

  function WinnerColumn(t: seq<Record>): seq<string> {
    seq(|t|, i requires 0 <= i < |t| => t[i].winner)
  }

  function RunnerUpColumn(t: seq<Record>): seq<string> {
    seq(|t|, i requires 0 <= i < |t| => t[i].runnerUp)
  }

  /**
   * A data frame built from three equally long columns: row `i` holds the
   * `i`-th entry of each. Columns of different lengths are refused when the
   * frame is built, hence the precondition.
   */
  function FromColumns(years: seq<int>, winners: seq<string>, runnersUp: seq<string>): (t: seq<Record>)
    requires |years| == |winners| == |runnersUp|
    ensures YearColumn(t) == years
    ensures WinnerColumn(t) == winners
    ensures RunnerUpColumn(t) == runnersUp
  {
    seq(|years|, i requires 0 <= i < |years| => Record(years[i], winners[i], runnersUp[i]))
  }

  /** A table is rebuilt exactly from its three columns. */
  lemma FromColumnsOfColumns(t: seq<Record>)
    ensures FromColumns(YearColumn(t), WinnerColumn(t), RunnerUpColumn(t)) == t
  {
  }

  /** The table as it is first built, before normalisation. */
  const RawTable: seq<Record> := FromColumns(YearLiterals, WinnerLiterals, RunnerUpLiterals)

  /** The raw table has 22 rows whose columns are the three literal columns. */
  lemma RawTableColumns()
    ensures |RawTable| == 22
    ensures YearColumn(RawTable) == YearLiterals
    ensures WinnerColumn(RawTable) == WinnerLiterals
    ensures RunnerUpColumn(RawTable) == RunnerUpLiterals
  {
  }

  /** The single value replacement applied to each name column. */
  function Normalize(name: string): (r: string)
    ensures r != WestGermany
    ensures name == WestGermany ==> r == Germany
    ensures name != WestGermany ==> r == name
  {
    if name == WestGermany then Germany else name
  }

  /** One row with the replacement applied to both of its names. */
  function NormalizeRecord(r: Record): (n: Record)
    ensures n.year == r.year
    ensures n.winner != WestGermany && n.runnerUp != WestGermany
    ensures r.winner == WestGermany ==> n.winner == Germany
    ensures r.winner != WestGermany ==> n.winner == r.winner
    ensures r.runnerUp == WestGermany ==> n.runnerUp == Germany
    ensures r.runnerUp != WestGermany ==> n.runnerUp == r.runnerUp
  {
    r.(winner := Normalize(r.winner), runnerUp := Normalize(r.runnerUp))
  }

  /** No name in the table is "West Germany". */
  ghost predicate Normalized(t: seq<Record>) {
    forall i :: 0 <= i < |t| ==> t[i].winner != WestGermany && t[i].runnerUp != WestGermany
  }

  /**
   * Both name columns with "West Germany" replaced by "Germany": the result has
   * no "West Germany" left, keeps the number, order and years of the rows, and
   * changes no other name.
   */
  function NormalizeTable(t: seq<Record>): (n: seq<Record>)
    ensures Normalized(n)
    ensures |n| == |t| && YearColumn(n) == YearColumn(t)
    ensures forall i :: 0 <= i < |t| ==>
      && (t[i].winner != WestGermany ==> n[i].winner == t[i].winner)
      && (t[i].winner == WestGermany ==> n[i].winner == Germany)
      && (t[i].runnerUp != WestGermany ==> n[i].runnerUp == t[i].runnerUp)
      && (t[i].runnerUp == WestGermany ==> n[i].runnerUp == Germany)
  {
    seq(|t|, i requires 0 <= i < |t| => NormalizeRecord(t[i]))
  }

  /** A table that is already normalised is left as it is. */
  lemma NormalizeTableOfNormalized(t: seq<Record>)
    requires Normalized(t)
    ensures NormalizeTable(t) == t
  {
  }

  /** Normalising twice is the same as normalising once. */
  lemma NormalizeTableIdempotent(t: seq<Record>)
    ensures NormalizeTable(NormalizeTable(t)) == NormalizeTable(t)
  {
    NormalizeTableOfNormalized(NormalizeTable(t));
  }

  /** The table every later step reads: the raw table, normalised. */
  const Table: seq<Record> := NormalizeTable(RawTable)

  /** The winner column after normalisation, as it reads. */
  const NormalizedWinners: seq<string> :=
    ["Uruguay", "Italy", "Italy", "Uruguay", "Germany", "Brazil", "Brazil",
     "England", "Brazil", "Germany", "Argentina", "Italy", "Argentina",
     "Germany", "Brazil", "France", "Brazil", "Italy", "Spain", "Germany",
     "France", "Argentina"]

  /** The runner-up column after normalisation, as it reads. */
  const NormalizedRunnersUp: seq<string> :=
    ["Argentina", "Czechoslovakia", "Hungary", "Brazil", "Hungary", "Sweden",
     "Czechoslovakia", "Germany", "Italy", "Netherlands", "Netherlands",
     "Germany", "Germany", "Argentina", "Italy", "Brazil", "Germany",
     "France", "Netherlands", "Argentina", "Croatia", "France"]

  /** The normalised table has 22 rows, the given years, and the names above. */
  lemma TableColumns()
    ensures |Table| == 22
    ensures YearColumn(Table) == YearLiterals
    ensures WinnerColumn(Table) == NormalizedWinners
    ensures RunnerUpColumn(Table) == NormalizedRunnersUp
  {
    RawTableColumns();
    assert WinnerColumn(Table) == NormalizedWinners;
    assert RunnerUpColumn(Table) == NormalizedRunnersUp;
  }
}

/**
 * The two dropdowns of the dashboard: the values each one offers, and the
 * text each one's callback shows for the current selection. A selection is
 * `None` until the user picks an entry; the text is then empty.
 */
module Dropdowns {

  import opened Wrappers
  import opened Series
  import opened Dataset
  import opened WinCounts

  /** Text under the country dropdown: empty, or "{country} has won the World Cup {wins} times." */
  datatype CountryText = NoCountryText | WinsText(country: string, wins: nat)

  /** Text under the year dropdown: empty, or "In {year}, the winner was {winner} and the runner-up was {runnerUp}." */
  datatype YearText = NoYearText | ResultText(year: int, winner: string, runnerUp: string)

  /** The country dropdown offers each distinct winner once, in order of first title. */
  function CountryOptions(t: seq<Record>): (o: seq<string>)
    ensures NoDup(o)
    ensures forall c :: c in o <==> c in WinnerColumn(t)
  {
    Unique(WinnerColumn(t))
  }

  /** The year dropdown offers the distinct years of the table, in table order. */
  function YearOptions(t: seq<Record>): (o: seq<int>)
    ensures NoDup(o)
    ensures forall y :: y in o <==> y in YearColumn(t)
  {
    Unique(YearColumn(t))
  }

  /** The wins of the first entry of `wc` for country `c`; there must be one. */
  function WinsOf(wc: seq<CountryWins<string>>, c: string): (w: nat)
    requires c in Countries(wc)
    ensures exists i :: 0 <= i < |wc| && wc[i] == CountryWins(c, w) && forall j :: 0 <= j < i ==> wc[j].country != c
  {
    var k := FirstIndex(Countries(wc), c);
    assert forall j :: 0 <= j < k ==> Countries(wc)[j] == wc[j].country;
    wc[k].wins
  }

  /**
   * The country callback: nothing for no selection; otherwise the wins of the
   * selected country's entry. A country without an entry has no result.
   */
  function ShowCountryWins(wc: seq<CountryWins<string>>, selected: Option<string>): (out: CountryText)
    requires selected.Some? ==> selected.value in Countries(wc)
    ensures selected.None? ==> out == NoCountryText
    ensures selected.Some? ==> out.WinsText? && out.country == selected.value
    ensures selected.Some? ==> exists i :: 0 <= i < |wc| && wc[i] == CountryWins(out.country, out.wins) && forall j :: 0 <= j < i ==> wc[j].country != out.country
  {
    match selected
    case None => NoCountryText
    case Some(c) => WinsText(c, WinsOf(wc, c))
  }

  /** The first row of `t` for year `y`; there must be one. */
  function RowOf(t: seq<Record>, y: int): (r: Record)
    requires y in YearColumn(t)
    ensures r.year == y
    ensures exists i :: 0 <= i < |t| && t[i] == r && forall j :: 0 <= j < i ==> t[j].year != y
  {
    var k := FirstIndex(YearColumn(t), y);
    assert forall j :: 0 <= j < k ==> YearColumn(t)[j] == t[j].year;
    t[k]
  }

  /**
   * The year callback: nothing for no selection; otherwise the winner and the
   * runner-up of the first row for the selected year. A year without a row has
   * no result.
   */
  function ShowYearResult(t: seq<Record>, selected: Option<int>): (out: YearText)
    requires selected.Some? ==> selected.value in YearColumn(t)
    ensures selected.None? ==> out == NoYearText
    ensures selected.Some? ==> out.ResultText? && out.year == selected.value
    ensures selected.Some? ==> exists i :: 0 <= i < |t| && t[i] == Record(out.year, out.winner, out.runnerUp) && forall j :: 0 <= j < i ==> t[j].year != out.year
  {
    match selected
    case None => NoYearText
    case Some(y) =>
      var r := RowOf(t, y);
      ResultText(y, r.winner, r.runnerUp)
  }

  /**
   * For a selected winner, the country callback over the win-count table of a
   * winner column shows the number of times that country occurs in it.
   */
  lemma ShowCountryWinsCounts(names: seq<string>, c: string)
    requires c in names
    ensures c in Countries(ValueCounts(names))
    ensures ShowCountryWins(ValueCounts(names), Some(c)) == WinsText(c, Count(names, c))
  {
    ValueCountsCoverNames(names);
    ValueCountsWins(names);
  }

  /** Where every year occurs once, the year callback shows the row of that year. */
  lemma ShowYearResultOfUniqueYears(t: seq<Record>, k: int)
    requires NoDup(YearColumn(t))
    requires 0 <= k < |t|
    ensures t[k].year in YearColumn(t)
    ensures ShowYearResult(t, Some(t[k].year)) == ResultText(t[k].year, t[k].winner, t[k].runnerUp)
  {
    assert YearColumn(t)[k] == t[k].year;
    var out := ShowYearResult(t, Some(t[k].year));
    var i :| 0 <= i < |t| && t[i] == Record(out.year, out.winner, out.runnerUp);
    assert YearColumn(t)[i] == YearColumn(t)[k];
  }

  /** Every country the dropdown offers is one the country callback can answer. */
  lemma CountryOptionsAnswerable(t: seq<Record>)
    ensures forall c :: c in CountryOptions(t) ==> c in Countries(ValueCounts(WinnerColumn(t)))
  {
    ValueCountsCoverNames(WinnerColumn(t));
  }

  /**
   * The country dropdown lists every winner of the table exactly once, in the
   * order of each country's first title, and nothing else.
   */
  lemma CountryOptionsFirstOccurrence(t: seq<Record>)
    ensures NoDup(CountryOptions(t))
    ensures forall c :: c in CountryOptions(t) <==> c in WinnerColumn(t)
    ensures InFirstOccurrenceOrder(WinnerColumn(t), CountryOptions(t))
  {
    var w := WinnerColumn(t);
    UniqueIsFirstOccurrenceOrder(w);
    forall c
      ensures c in CountryOptions(t) <==> c in w
    {
      if c in w {
        var i :| 0 <= i < |w| && w[i] == c;
      }
    }
  }

  /** Where every year occurs once, the year dropdown lists the years in table order. */
  lemma YearOptionsInTableOrder(t: seq<Record>)
    requires NoDup(YearColumn(t))
    ensures YearOptions(t) == YearColumn(t)
  {
    UniqueOfNoDup(YearColumn(t));
  }
}

/**
 * The dashboard over its fixed table: the win-count table it renders and the
 * values and texts of its two dropdowns, worked out for the 22 tournaments.
 */
module Dashboard {

  import opened Wrappers
  import opened Series
  import opened Dataset
  import opened WinCounts
  import opened Dropdowns
  import opened WinnerScan

  /** The win-count table behind the map and the country callback. */
  const WinsCount: seq<CountryWins<string>> := ValueCounts(WinnerColumn(Table))

  /** The eight champions, in the order of their first title. */
  const Champions: seq<string> :=
    ["Uruguay", "Italy", "Germany", "Brazil", "England", "Argentina", "France", "Spain"]

  /** Each champion with its number of titles, in the order of its first title. */
  const ChampionTally: seq<CountryWins<string>> :=
    [CountryWins("Uruguay", 2), CountryWins("Italy", 4), CountryWins("Germany", 4),
     CountryWins("Brazil", 5), CountryWins("England", 1), CountryWins("Argentina", 3),
     CountryWins("France", 2), CountryWins("Spain", 1)]

  /** The same entries from most titles to fewest, as the map and the country callback see them. */
  const ExpectedWins: seq<CountryWins<string>> :=
    [CountryWins("Brazil", 5), CountryWins("Italy", 4), CountryWins("Germany", 4),
     CountryWins("Argentina", 3), CountryWins("Uruguay", 2), CountryWins("France", 2),
     CountryWins("England", 1), CountryWins("Spain", 1)]

  /** The years of the table rise strictly, so none occurs twice. */
  lemma YearsIncreasing()
    ensures forall i, j :: 0 <= i < j < |Table| ==> Table[i].year < Table[j].year
    ensures NoDup(YearColumn(Table))
  {
    TableColumns();
    var y := YearColumn(Table);
    assert forall i :: 0 <= i < |y| - 1 ==> y[i] < y[i + 1];
    StepwiseIncreasing(y);
    assert forall i :: 0 <= i < |Table| ==> Table[i].year == y[i];
  }

  /** The year dropdown offers the 22 years in the order of the table. */
  lemma YearOptionsOfTable()
    ensures YearOptions(Table) == YearLiterals
  {
    YearsIncreasing();
    YearOptionsInTableOrder(Table);
    TableColumns();
  }

  /** The eight champions' names differ from one another. */
  lemma ChampionsDistinct()
    ensures Distinct("Uruguay", "Italy", "Germany", "Brazil", "England", "Argentina", "France", "Spain")
  {
  }

  /** The normalised winner column is the column of the scans over the eight champions. */
  lemma WinnerColumnOfTable()
    ensures WinnerColumn(Table) == Winners("Uruguay", "Italy", "Germany", "Brazil", "England", "Argentina", "France", "Spain")
  {
    TableColumns();
  }

  /** The country dropdown offers the eight champions in the order of their first title. */
  lemma CountryOptionsOfTable()
    ensures CountryOptions(Table) == Champions
  {
    WinnerColumnOfTable();
    ChampionsDistinct();
    WinnersUnique("Uruguay", "Italy", "Germany", "Brazil", "England", "Argentina", "France", "Spain");
  }

  /** The tally of the winner column, and the win-count table sorted from it. */
  lemma WinsCountValue()
    ensures Tally(WinnerColumn(Table)) == ChampionTally
    ensures WinsCount == ExpectedWins
  {
    WinnerColumnOfTable();
    ChampionsDistinct();
    WinnersTally("Uruguay", "Italy", "Germany", "Brazil", "England", "Argentina", "France", "Spain");
    WinnersSorted("Uruguay", "Italy", "Germany", "Brazil", "England", "Argentina", "France", "Spain");
  }

  /** The win-count table has one entry per champion and its wins add up to 22. */
  lemma WinsCountShape()
    ensures |WinsCount| == 8
    ensures NoDup(Countries(WinsCount))
    ensures TotalWins(WinsCount) == 22
    ensures SortedByWins(WinsCount)
  {
    TableColumns();
    CountryOptionsOfTable();
    ValueCountsSize(WinnerColumn(Table));
    ValueCountsNoDup(WinnerColumn(Table));
  }

  /** The title counts of the table, after "West Germany" is read as "Germany". */
  lemma TitleCounts()
    ensures Count(WinnerColumn(Table), "Brazil") == 5
    ensures Count(WinnerColumn(Table), "Germany") == 4
    ensures Count(WinnerColumn(Table), "Italy") == 4
    ensures Count(WinnerColumn(Table), "Argentina") == 3
    ensures Count(WinnerColumn(Table), "Uruguay") == 2
    ensures Count(WinnerColumn(Table), "France") == 2
    ensures Count(WinnerColumn(Table), "England") == 1
    ensures Count(WinnerColumn(Table), "Spain") == 1
  {
    WinsCountValue();
    var t := Tally(WinnerColumn(Table));
    assert t[0].wins == Count(WinnerColumn(Table), t[0].country);
    assert t[1].wins == Count(WinnerColumn(Table), t[1].country);
    assert t[2].wins == Count(WinnerColumn(Table), t[2].country);
    assert t[3].wins == Count(WinnerColumn(Table), t[3].country);
    assert t[4].wins == Count(WinnerColumn(Table), t[4].country);
    assert t[5].wins == Count(WinnerColumn(Table), t[5].country);
    assert t[6].wins == Count(WinnerColumn(Table), t[6].country);
    assert t[7].wins == Count(WinnerColumn(Table), t[7].country);
  }

  /** Before a selection, both texts are empty. */
  lemma NothingSelected()
    ensures ShowCountryWins(WinsCount, None) == NoCountryText
    ensures ShowYearResult(Table, None) == NoYearText
  {
  }

  /** The countries of the expected table, none twice. */
  lemma ExpectedCountries(wc: seq<CountryWins<string>>)
    requires wc == ExpectedWins
    ensures Countries(wc) == ["Brazil", "Italy", "Germany", "Argentina", "Uruguay", "France", "England", "Spain"]
    ensures NoDup(Countries(wc))
  {
    assert Countries(wc) == ["Brazil", "Italy", "Germany", "Argentina", "Uruguay", "France", "England", "Spain"];
  }

  /** The country callback over the expected table, for the four most successful champions. */
  lemma ExpectedWinsLookupsTop(wc: seq<CountryWins<string>>)
    requires wc == ExpectedWins
    ensures Countries(wc) == ["Brazil", "Italy", "Germany", "Argentina", "Uruguay", "France", "England", "Spain"]
    ensures ShowCountryWins(wc, Some("Brazil")) == WinsText("Brazil", 5)
    ensures ShowCountryWins(wc, Some("Italy")) == WinsText("Italy", 4)
    ensures ShowCountryWins(wc, Some("Germany")) == WinsText("Germany", 4)
    ensures ShowCountryWins(wc, Some("Argentina")) == WinsText("Argentina", 3)
  {
    ExpectedCountries(wc);
    FirstIndexOfNoDup(Countries(wc), 0);
    FirstIndexOfNoDup(Countries(wc), 1);
    FirstIndexOfNoDup(Countries(wc), 2);
    FirstIndexOfNoDup(Countries(wc), 3);
  }

  /** The country callback over the expected table, for the other four champions. */
  lemma ExpectedWinsLookupsRest(wc: seq<CountryWins<string>>)
    requires wc == ExpectedWins
    ensures Countries(wc) == ["Brazil", "Italy", "Germany", "Argentina", "Uruguay", "France", "England", "Spain"]
    ensures ShowCountryWins(wc, Some("Uruguay")) == WinsText("Uruguay", 2)
    ensures ShowCountryWins(wc, Some("France")) == WinsText("France", 2)
    ensures ShowCountryWins(wc, Some("England")) == WinsText("England", 1)
    ensures ShowCountryWins(wc, Some("Spain")) == WinsText("Spain", 1)
  {
    ExpectedCountries(wc);
    FirstIndexOfNoDup(Countries(wc), 4);
    FirstIndexOfNoDup(Countries(wc), 5);
    FirstIndexOfNoDup(Countries(wc), 6);
    FirstIndexOfNoDup(Countries(wc), 7);
  }

  /** The country callback for each champion. */
  lemma CountryResults()
    ensures Countries(WinsCount) == ["Brazil", "Italy", "Germany", "Argentina", "Uruguay", "France", "England", "Spain"]
    ensures ShowCountryWins(WinsCount, Some("Brazil")) == WinsText("Brazil", 5)
    ensures ShowCountryWins(WinsCount, Some("Italy")) == WinsText("Italy", 4)
    ensures ShowCountryWins(WinsCount, Some("Germany")) == WinsText("Germany", 4)
    ensures ShowCountryWins(WinsCount, Some("Argentina")) == WinsText("Argentina", 3)
    ensures ShowCountryWins(WinsCount, Some("Uruguay")) == WinsText("Uruguay", 2)
    ensures ShowCountryWins(WinsCount, Some("France")) == WinsText("France", 2)
    ensures ShowCountryWins(WinsCount, Some("England")) == WinsText("England", 1)
    ensures ShowCountryWins(WinsCount, Some("Spain")) == WinsText("Spain", 1)
  {
    WinsCountValue();
    ExpectedWinsLookupsTop(WinsCount);
    ExpectedWinsLookupsRest(WinsCount);
  }

  /** The year callback shows the normalised finalists of the selected year. */
  lemma YearResults()
    ensures ShowYearResult(Table, Some(2022)) == ResultText(2022, "Argentina", "France")
    ensures ShowYearResult(Table, Some(1930)) == ResultText(1930, "Uruguay", "Argentina")
    ensures ShowYearResult(Table, Some(1974)) == ResultText(1974, "Germany", "Netherlands")
    ensures ShowYearResult(Table, Some(1954)) == ResultText(1954, "Germany", "Hungary")
    ensures ShowYearResult(Table, Some(1966)) == ResultText(1966, "England", "Germany")
  {
    TableColumns();
    YearsIncreasing();
    assert Table[21] == Record(2022, "Argentina", "France");
    assert Table[0] == Record(1930, "Uruguay", "Argentina");
    assert Table[9] == Record(1974, "Germany", "Netherlands");
    assert Table[4] == Record(1954, "Germany", "Hungary");
    assert Table[7] == Record(1966, "England", "Germany");
    ShowYearResultOfUniqueYears(Table, 21);
    ShowYearResultOfUniqueYears(Table, 0);
    ShowYearResultOfUniqueYears(Table, 9);
    ShowYearResultOfUniqueYears(Table, 4);
    ShowYearResultOfUniqueYears(Table, 7);
  }
}

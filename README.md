# FIFA World Cup dashboard — data layer

This project models the data layer of a small dashboard of World Cup finals. The
program builds a fixed table of 22 finals (year, winner, runner-up). It folds the
historical name "West Germany" into "Germany" in both name columns and counts
titles per country with a value count. It then serves two dropdowns:

- a country dropdown, which offers the distinct winners and shows a country's
  number of titles;
- a year dropdown, which offers the years and shows that year's two finalists.

The model is pure: each column update of the program is a function from the old
table to the new one. It has seven modules:

- `Wrappers`: the `Option` datatype.
- `Dataset`: the `Record` datatype and the three literal columns. It also builds
  the table from the columns and normalises both name columns.
- `Series`: the column operations the program relies on. These are the number
  of occurrences of a value, the first position of a value, and `unique()`,
  which keeps each distinct value once, in the order it first occurs.
- `WinCounts`: the value count. `Tally` groups a column into `(country, wins)`
  entries in first-occurrence order. `ValueCounts` sorts those entries from most
  wins to fewest. Names are a type parameter; the dashboard uses strings.
- `Dropdowns`: the two option lists and the two callbacks. A selection is
  `Option`: `None` is "nothing selected". A callback's text is a datatype with an
  empty case, such as `WinsText(country, wins)`, in place of the formatted
  sentence.
- `WinnerScan`: the scans over the winner column written once over eight
  distinct champion names. The concrete facts are worked out step by step here.
- `Dashboard`: the concrete facts about the fixed table. These are the option
  lists, the win-count table, the title counts, and the texts of both callbacks.

## Model

| member | source | states |
|---|---|---|
| `Dataset.FromColumns` | Assignment_7.py:12-19 | the data frame built from three equally long columns has exactly those columns |
| `Dataset.FromColumnsOfColumns` | Assignment_7.py:19 | a table is rebuilt exactly from its own three columns |
| `Dataset.RawTableColumns` | Assignment_7.py:12-19 | `RawTable`, the data frame as first built, has 22 rows and exactly the three literal columns |
| `Dataset.NormalizeRecord` | Assignment_7.py:22-23 | the replacement on one row keeps its year, turns a "West Germany" winner or runner-up into "Germany", and keeps every other name |
| `Dataset.Normalize` | Assignment_7.py:22-23 | the replacement never yields "West Germany"; it maps "West Germany" to "Germany" and leaves every other name unchanged |
| `Dataset.NormalizeTable` | Assignment_7.py:22-23 | after both column replacements no name is "West Germany"; the row count, row order and years are kept; each name is either kept or was "West Germany" and became "Germany" |
| `Dataset.NormalizeTableOfNormalized` | Assignment_7.py:22-23 | a table without "West Germany" is left unchanged |
| `Dataset.NormalizeTableIdempotent` | Assignment_7.py:22-23 | normalising twice gives the same table as normalising once |
| `Dataset.TableColumns` | Assignment_7.py:13-23 | `Table`, the frame every later step reads, has 22 rows, the literal years, and the literal names with "West Germany" read as "Germany" |
| `Series.Count` | Assignment_7.py:26 | the number of occurrences of a value is its multiplicity, and it is positive exactly when the value occurs |
| `Series.CountUpToMultiplicity` | Assignment_7.py:26 | the running count over a prefix is the value's multiplicity in that prefix |
| `Series.FirstIndex` | Assignment_7.py:75 | the first matching position holds the value, and no earlier position does |
| `Series.FirstIndexOfNoDup` | Assignment_7.py:75 | in a column without repeats, the first match of an element is its own position |
| `Series.UniqueUpToValues` | Assignment_7.py:51 | `UniqueUpTo`, the distinct-value scan of a prefix, has no repeats and holds exactly the values of the prefix |
| `Series.Unique` | Assignment_7.py:51 | `unique()` has no repeats, holds only values of the column, and holds every one of them |
| `Series.UniqueUpToOrdered` | Assignment_7.py:51 | `UniqueUpTo` on a prefix lists values by strictly increasing position of first occurrence |
| `Series.UniqueIsFirstOccurrenceOrder` | Assignment_7.py:51 | `unique()` lists values in the order in which they first occur |
| `Series.FirstOccurrenceOrderDetermines` | Assignment_7.py:51 | two lists with the same values, both in first-occurrence order, are equal |
| `Series.UniqueCharacterized` | Assignment_7.py:51 | `unique()` is the only list that holds exactly the column's values, in first-occurrence order |
| `Series.UniqueOfNoDup` | Assignment_7.py:60 | `unique()` of a column without repeats is the column itself, in table order |
| `Series.NoDupIffSingleOccurrences` | Assignment_7.py:26 | a list has no repeats exactly when every value occurs at most once |
| `WinCounts.AddWinAt` | Assignment_7.py:26 | one more name adds one win to its country's entry and changes nothing else |
| `WinCounts.AddWinNew` | Assignment_7.py:26 | a name without an entry gets a new entry with one win at the end |
| `WinCounts.AddWinTotal` | Assignment_7.py:26 | each name adds exactly one win to the total |
| `WinCounts.AddWinCountries` | Assignment_7.py:26 | the list of countries is kept, or the new country is appended |
| `WinCounts.AddWinCounts` | Assignment_7.py:26 | a table that counts the first `n - 1` names, with one more name added, counts the first `n` |
| `WinCounts.TallyUpToCountries` | Assignment_7.py:26 | `TallyUpTo`, the tally of a prefix, lists that prefix's distinct names in first-occurrence order |
| `WinCounts.TallyUpToCounts` | Assignment_7.py:26 | each entry of `TallyUpTo` over a prefix holds its name's number of occurrences in the prefix; the wins add up to the prefix length |
| `WinCounts.Tally` | Assignment_7.py:26-27 | one `(country, wins)` entry per distinct name, in first-occurrence order; `wins` is the name's number of occurrences; the wins add up to the column length |
| `WinCounts.TallyCharacterized` | Assignment_7.py:26-27 | any table listing the distinct names in first-occurrence order, each with its count, is the tally |
| `WinCounts.InsertByWinsSorted` | Assignment_7.py:26 | inserting into a table sorted by wins keeps it sorted |
| `WinCounts.InsertByWinsPermutes` | Assignment_7.py:26 | inserting adds exactly the new entry and keeps the total plus its wins |
| `WinCounts.InsertByWinsAt` | Assignment_7.py:26 | the new entry goes before the first entry with no more wins than it |
| `WinCounts.SortByWinsSorted` | Assignment_7.py:26 | `SortByWins`, the ordering step of the value count, runs from most wins to fewest |
| `WinCounts.SortByWinsPermutes` | Assignment_7.py:26 | the result of `SortByWins` is a permutation of its input with the same total |
| `WinCounts.ValueCounts` | Assignment_7.py:26-27 | the win-count table is sorted from most wins to fewest, holds the same entries as the tally, and its wins total the number of rows |
| `WinCounts.ValueCountsCountriesOccur` | Assignment_7.py:26-27 | every country of the win-count table is a name of the column |
| `WinCounts.ValueCountsCoverNames` | Assignment_7.py:26-27 | every name of the column has an entry in the win-count table |
| `WinCounts.ValueCountsWins` | Assignment_7.py:26-27 | every entry's wins equals its country's number of occurrences, so it is at least 1 |
| `WinCounts.ValueCountsNoDup` | Assignment_7.py:26-27 | no country has two entries |
| `WinCounts.ValueCountsSize` | Assignment_7.py:26-27 | the win-count table has one entry per distinct name |
| `Dropdowns.WinsOf` | Assignment_7.py:75 | the wins are those of the first entry of the table for the country: that entry has the country and no earlier entry does |
| `Dropdowns.ShowCountryWins` | Assignment_7.py:73-77 | no selection gives the empty text; a selected country that has an entry gives its name and the wins of the first entry of the table for it |
| `Dropdowns.ShowCountryWinsCounts` | Assignment_7.py:73-77 | over the win-count table of a column, a selected name shows its number of occurrences in that column |
| `Dropdowns.RowOf` | Assignment_7.py:85-86 | the row read for a year has that year and is the first row of the table with it |
| `Dropdowns.ShowYearResult` | Assignment_7.py:83-88 | no selection gives the empty text; a selected year that occurs gives that year and the finalists of the first row of the table for it |
| `Dropdowns.ShowYearResultOfUniqueYears` | Assignment_7.py:83-88 | where no year repeats, selecting a row's year shows exactly that row's finalists |
| `Dropdowns.CountryOptions` | Assignment_7.py:51 | the country options have no repeats and hold exactly the winners of the table |
| `Dropdowns.YearOptions` | Assignment_7.py:60 | the year options have no repeats and hold exactly the years of the table, so every offered year is one the year callback can answer |
| `Dropdowns.CountryOptionsAnswerable` | Assignment_7.py:51 | every country the dropdown offers has an entry in the win-count table, so the callback can answer it |
| `Dropdowns.CountryOptionsFirstOccurrence` | Assignment_7.py:51 | the country options have no repeats, are exactly the winners, and are in first-occurrence order |
| `Dropdowns.YearOptionsInTableOrder` | Assignment_7.py:60 | where years do not repeat, the year options are the year column in table order |
| `WinnerScan.WinnersTally` | Assignment_7.py:26 | for any eight distinct names laid out as the winner column, the tally is Uruguay 2, Italy 4, Germany 4, Brazil 5, England 1, Argentina 3, France 2, Spain 1 (in those names) |
| `WinnerScan.WinnersUnique` | Assignment_7.py:51 | for any eight distinct names laid out as the winner column, the distinct values are the eight names in order of first title |
| `WinnerScan.WinnersSorted` | Assignment_7.py:26 | sorting that tally gives Brazil 5, Italy 4, Germany 4, Argentina 3, Uruguay 2, France 2, England 1, Spain 1 |
| `Dashboard.WinnerColumnOfTable` | Assignment_7.py:14-22 | the normalised winner column is that layout over the eight champions' names |
| `Series.StepwiseIncreasing` | Assignment_7.py:13 | a column of numbers that rises at every step rises throughout, so no value repeats |
| `Dashboard.YearsIncreasing` | Assignment_7.py:13 | the years of the table rise strictly, so no year repeats |
| `Dashboard.YearOptionsOfTable` | Assignment_7.py:60 | the year dropdown offers the 22 literal years in table order |
| `Dashboard.CountryOptionsOfTable` | Assignment_7.py:51 | the country dropdown offers Uruguay, Italy, Germany, Brazil, England, Argentina, France, Spain |
| `Dashboard.WinsCountValue` | Assignment_7.py:26-27 | the tally of the table, and `WinsCount`, the win-count table the program builds from it, entry by entry |
| `Dashboard.WinsCountShape` | Assignment_7.py:26-27 | the win-count table has 8 entries, none twice, sorted by wins, totalling 22 |
| `Dashboard.TitleCounts` | Assignment_7.py:14-26 | Brazil 5, Germany 4, Italy 4, Argentina 3, Uruguay 2, France 2, England 1, Spain 1 |
| `Dashboard.NothingSelected` | Assignment_7.py:73-88 | with nothing selected both callbacks show the empty text |
| `Dashboard.CountryResults` | Assignment_7.py:73-77 | the country callback shows those counts for each of the eight champions |
| `Dashboard.YearResults` | Assignment_7.py:83-88 | 2022 shows Argentina and France, 1930 Uruguay and Argentina, 1974 Germany and the Netherlands, 1954 Germany and Hungary, 1966 England and Germany |

## Left out

- Dataset.FromColumns: requires the three columns to be equally long. Building a
  frame from columns of different lengths raises an error (Assignment_7.py:19),
  and that error path is not modelled; the program's columns all have 22 entries.
- The Dash application, its layout, the wiring of the callback decorators and
  `run_server` (Assignment_7.py:40-64, 69-72, 79-82, 91-92). These are user
  interface and HTTP plumbing.
- The Plotly choropleth (Assignment_7.py:30-37). It only renders the
  win-count table, which `Dashboard.WinsCountValue` states in full.
- The formatted sentences (Assignment_7.py:76, 87). Dafny has no integer to
  string conversion here, so a callback returns the values its sentence
  contains: `WinsText` or `ResultText`, or an empty case for "".
- Selections are `Option` values. The program tests the selection for
  truthiness, so a year 0 or an empty string would also show nothing. Those
  values are not offered by the dropdowns and are not modelled.
- Each dropdown option is a `{"label", "value"}` pair with equal parts; the
  model keeps the value alone.
- The in-place reassignment of the two name columns (Assignment_7.py:22-23) is a
  pure map over the records. The renaming of the value-count columns
  (Assignment_7.py:27) is the field names of `CountryWins`.
- `Dropdowns.ShowCountryWins` requires the selected country to have an entry,
  and `Dropdowns.ShowYearResult` requires the year to occur. The program raises
  an error on an empty match (`.values[0]`), so neither has a defined result.
- `Dropdowns.ShowYearResult` reads both finalists from one first matching row.
  The program filters twice with the same year; both filters take the first
  match of the same rows, so they read the same row.
- `WinCounts.ValueCounts` keeps entries with equal wins in first-occurrence
  order. A value count does not promise any tie order, so the exact order among
  equal counts in `Dashboard.WinsCountValue` is this model's choice. So is the
  first `ensures` of `Dashboard.CountryResults`, which lists `Countries(WinsCount)`
  in that order. The counts themselves (`Dashboard.TitleCounts` and the eight
  callback texts of `Dashboard.CountryResults`) are the same under any tie order,
  although the proof of the latter goes through the ordered table.

/**
 * The win-count table: the normalised winner column grouped by country, one
 * `(country, wins)` entry per distinct winner, ordered by wins from most to
 * fewest as a value count orders its result. The names are of any type with
 * equality; the dashboard uses strings.
 */
module WinCounts {

  import opened Series

  /** One row of the win-count table. */
  datatype CountryWins<C> = CountryWins(country: C, wins: nat)

  function Countries<C(==)>(wc: seq<CountryWins<C>>): seq<C> {
    seq(|wc|, i requires 0 <= i < |wc| => wc[i].country)
  }

  /** The sum of the `wins` column. */
  function TotalWins<C(==)>(wc: seq<CountryWins<C>>): nat {
    if wc == [] then 0 else wc[0].wins + TotalWins(wc[1..])
  }

  /**
   * Records one more win for `x`: its entry gains a win, or `(x, 1)` is
   * appended when `x` has no entry yet.
   */
  function AddWin<C(==)>(wc: seq<CountryWins<C>>, x: C): seq<CountryWins<C>> {
    if wc == [] then [CountryWins(x, 1)]
    else if wc[0].country == x then [wc[0].(wins := wc[0].wins + 1)] + wc[1..]
    else [wc[0]] + AddWin(wc[1..], x)
  }

  /** Each name adds exactly one win to the total. */
  lemma {:induction false} AddWinTotal<C>(wc: seq<CountryWins<C>>, x: C)
    ensures TotalWins(AddWin(wc, x)) == TotalWins(wc) + 1
  {
    if wc != [] && wc[0].country != x {
      AddWinTotal(wc[1..], x);
      assert AddWin(wc, x)[1..] == AddWin(wc[1..], x);
    } else if wc != [] {
      assert AddWin(wc, x)[1..] == wc[1..];
    }
  }

  /** For a country with an entry at `p` and none before it, `AddWin` adds one win there. */
  lemma {:induction false} AddWinAt<C>(wc: seq<CountryWins<C>>, x: C, p: nat)
    requires p < |wc| && wc[p].country == x
    requires forall j :: 0 <= j < p ==> wc[j].country != x
    ensures AddWin(wc, x) == wc[p := CountryWins(x, wc[p].wins + 1)]
  {
    if p > 0 {
      AddWinAt(wc[1..], x, p - 1);
      assert wc[1..][p - 1 := CountryWins(x, wc[p].wins + 1)]
        == wc[p := CountryWins(x, wc[p].wins + 1)][1..];
    }
  }

  /** For a country without an entry, `AddWin` appends `(x, 1)`. */
  lemma {:induction false} AddWinNew<C>(wc: seq<CountryWins<C>>, x: C)
    requires forall j :: 0 <= j < |wc| ==> wc[j].country != x
    ensures AddWin(wc, x) == wc + [CountryWins(x, 1)]
  {
    if wc != [] {
      AddWinNew(wc[1..], x);
      assert wc[1..] + [CountryWins(x, 1)] == (wc + [CountryWins(x, 1)])[1..];
    }
  }

  /** The win counts of the first `n` names, entries in first-occurrence order. */
  function TallyUpTo<C(==)>(names: seq<C>, n: nat): seq<CountryWins<C>>
    requires n <= |names|
  {
    if n == 0 then [] else AddWin(TallyUpTo(names, n - 1), names[n - 1])
  }

  /** `AddWin` keeps the list of countries, or appends `x` to it for a new country. */
  lemma AddWinCountries<C>(wc: seq<CountryWins<C>>, x: C)
    ensures Countries(AddWin(wc, x)) ==
      if x in Countries(wc) then Countries(wc) else Countries(wc) + [x]
  {
    assert forall j :: 0 <= j < |wc| ==> Countries(wc)[j] == wc[j].country;
    if x in Countries(wc) {
      AddWinAt(wc, x, FirstIndex(Countries(wc), x));
    } else {
      AddWinNew(wc, x);
    }
  }

  /** Every entry of `wc` holds its country's number of occurrences among the first `n` names. */
  ghost predicate CountsUpTo<C>(names: seq<C>, n: nat, wc: seq<CountryWins<C>>)
    requires n <= |names|
  {
    forall i :: 0 <= i < |wc| ==> wc[i].wins == CountUpTo(names, wc[i].country, n)
  }

  /**
   * Where no country has two entries, adding the `n`th name to a table that
   * counts the first `n - 1` names gives a table that counts the first `n`.
   */
  lemma AddWinCounts<C>(names: seq<C>, n: nat, wc: seq<CountryWins<C>>)
    requires 0 < n <= |names|
    requires NoDup(Countries(wc)) && CountsUpTo(names, n - 1, wc)
    requires names[n - 1] !in Countries(wc) ==> CountUpTo(names, names[n - 1], n - 1) == 0
    ensures CountsUpTo(names, n, AddWin(wc, names[n - 1]))
  {
    var x := names[n - 1];
    var cs := Countries(wc);
    assert forall j :: 0 <= j < |wc| ==> cs[j] == wc[j].country;
    if x in cs {
      var p := FirstIndex(cs, x);
      AddWinAt(wc, x, p);
      forall i | 0 <= i < |wc| && i != p
        ensures wc[i].country != x
      {
        assert cs[i] != cs[p];
      }
    } else {
      AddWinNew(wc, x);
    }
  }

  /** The countries of the tally of a prefix are the prefix's distinct names, in order. */
  lemma {:induction false} TallyUpToCountries<C>(names: seq<C>, n: nat)
    requires n <= |names|
    ensures Countries(TallyUpTo(names, n)) == UniqueUpTo(names, n)
  {
    if n > 0 {
      TallyUpToCountries(names, n - 1);
      AddWinCountries(TallyUpTo(names, n - 1), names[n - 1]);
    }
  }

  /**
   * The tally of a prefix has one entry per name of the prefix, holding the
   * number of times that name occurs in it; its wins add up to the prefix's
   * length.
   */
  lemma {:induction false} TallyUpToCounts<C>(names: seq<C>, n: nat)
    requires n <= |names|
    ensures TotalWins(TallyUpTo(names, n)) == n
    ensures CountsUpTo(names, n, TallyUpTo(names, n))
  {
    if n > 0 {
      var prev := TallyUpTo(names, n - 1);
      var x := names[n - 1];
      TallyUpToCounts(names, n - 1);
      AddWinTotal(prev, x);
      TallyUpToCountries(names, n - 1);
      UniqueUpToValues(names, n - 1);
      if x !in Countries(prev) {
        assert x !in names[..n - 1];
        CountUpToMultiplicity(names, x, n - 1);
      }
      AddWinCounts(names, n, prev);
    }
  }

  /**
   * One entry per distinct name, in first-occurrence order, whose `wins` is the
   * number of times that name occurs.
   */
  function Tally<C(==)>(names: seq<C>): (wc: seq<CountryWins<C>>)
    ensures Countries(wc) == Unique(names)
    ensures TotalWins(wc) == |names|
    ensures forall i :: 0 <= i < |wc| ==> wc[i].wins == Count(names, wc[i].country)
  {
    TallyUpToCountries(names, |names|);
    TallyUpToCounts(names, |names|);
    assert names[..|names|] == names;
    TallyUpTo(names, |names|)
  }

  /**
   * The tally is the only table listing the distinct names in first-occurrence
   * order with each name's number of occurrences.
   */
  lemma TallyCharacterized<C>(names: seq<C>, wc: seq<CountryWins<C>>)
    requires Countries(wc) == Unique(names)
    requires forall k :: 0 <= k < |wc| ==> wc[k].wins == Count(names, wc[k].country)
    ensures Tally(names) == wc
  {
    var t := Tally(names);
    assert |t| == |Countries(t)| == |wc|;
    forall k | 0 <= k < |t|
      ensures t[k] == wc[k]
    {
      assert Countries(t)[k] == Countries(wc)[k];
    }
  }

  /** Entries from most wins to fewest. */
  ghost predicate SortedByWins<C>(wc: seq<CountryWins<C>>) {
    forall i, j :: 0 <= i < j < |wc| ==> wc[i].wins >= wc[j].wins
  }

  /** Places `e` in a table, before the first entry with no more wins than it. */
  function InsertByWins<C(==)>(e: CountryWins<C>, wc: seq<CountryWins<C>>): seq<CountryWins<C>> {
    if wc == [] || e.wins >= wc[0].wins then [e] + wc
    else [wc[0]] + InsertByWins(e, wc[1..])
  }

  /** Inserting into a sorted table keeps it sorted; the new head is `e` or the old head. */
  lemma {:induction false} InsertByWinsSorted<C>(e: CountryWins<C>, wc: seq<CountryWins<C>>)
    requires SortedByWins(wc)
    ensures SortedByWins(InsertByWins(e, wc))
    ensures |InsertByWins(e, wc)| == |wc| + 1
    ensures InsertByWins(e, wc)[0] == if wc == [] || e.wins >= wc[0].wins then e else wc[0]
  {
    var r := InsertByWins(e, wc);
    if wc == [] || e.wins >= wc[0].wins {
      assert r[1..] == wc;
    } else {
      var rest := InsertByWins(e, wc[1..]);
      InsertByWinsSorted(e, wc[1..]);
      assert r[1..] == rest;
      forall j | 0 <= j < |rest|
        ensures wc[0].wins >= rest[j].wins
      {
        assert rest[0].wins >= rest[j].wins;
      }
    }
  }

  /** Inserting adds `e` and changes no other entry. */
  lemma {:induction false} InsertByWinsPermutes<C>(e: CountryWins<C>, wc: seq<CountryWins<C>>)
    ensures multiset(InsertByWins(e, wc)) == multiset(wc) + multiset{e}
    ensures TotalWins(InsertByWins(e, wc)) == TotalWins(wc) + e.wins
  {
    var r := InsertByWins(e, wc);
    if wc == [] || e.wins >= wc[0].wins {
      assert r[1..] == wc;
    } else {
      InsertByWinsPermutes(e, wc[1..]);
      assert r[1..] == InsertByWins(e, wc[1..]);
      assert wc == [wc[0]] + wc[1..];
    }
  }

  /** `e` lands at the first position whose entry has no more wins than `e`. */
  lemma {:induction false} InsertByWinsAt<C>(e: CountryWins<C>, wc: seq<CountryWins<C>>, p: nat)
    requires p <= |wc|
    requires forall j :: 0 <= j < p ==> wc[j].wins > e.wins
    requires p == |wc| || wc[p].wins <= e.wins
    ensures InsertByWins(e, wc) == wc[..p] + [e] + wc[p..]
  {
    if p > 0 {
      InsertByWinsAt(e, wc[1..], p - 1);
      assert wc[1..][..p - 1] == wc[1..p];
      assert wc[1..][p - 1..] == wc[p..];
      assert wc[..p] == [wc[0]] + wc[1..p];
    }
  }

  /** Insertion sort by wins, keeping first-occurrence order among equal wins. */
  function SortByWins<C(==)>(wc: seq<CountryWins<C>>): seq<CountryWins<C>> {
    if wc == [] then [] else InsertByWins(wc[0], SortByWins(wc[1..]))
  }

  /** The sorted table runs from most wins to fewest. */
  lemma {:induction false} SortByWinsSorted<C>(wc: seq<CountryWins<C>>)
    ensures SortedByWins(SortByWins(wc))
  {
    if wc != [] {
      SortByWinsSorted(wc[1..]);
      InsertByWinsSorted(wc[0], SortByWins(wc[1..]));
    }
  }

  /** The sorted table holds the same entries as its input, so the same total. */
  lemma {:induction false} SortByWinsPermutes<C>(wc: seq<CountryWins<C>>)
    ensures multiset(SortByWins(wc)) == multiset(wc)
    ensures TotalWins(SortByWins(wc)) == TotalWins(wc)
  {
    if wc != [] {
      SortByWinsPermutes(wc[1..]);
      InsertByWinsPermutes(wc[0], SortByWins(wc[1..]));
      assert wc == [wc[0]] + wc[1..];
    }
  }

  /**
   * The win-count table of a winner column, as a value count builds it: the
   * tally of the column, sorted from most wins to fewest.
   */
  function ValueCounts<C(==)>(names: seq<C>): (wc: seq<CountryWins<C>>)
    ensures SortedByWins(wc)
    ensures multiset(wc) == multiset(Tally(names))
    ensures TotalWins(wc) == |names|
  {
    SortByWinsSorted(Tally(names));
    SortByWinsPermutes(Tally(names));
    SortByWins(Tally(names))
  }

  /** Every entry of the table is an entry of the tally. */
  lemma EntryFromTally<C>(names: seq<C>, k: nat)
    requires k < |ValueCounts(names)|
    ensures exists m :: 0 <= m < |Tally(names)| && Tally(names)[m] == ValueCounts(names)[k]
  {
    assert ValueCounts(names)[k] in multiset(Tally(names));
  }

  /** Every entry of the tally is an entry of the table. */
  lemma EntryOfTally<C>(names: seq<C>, m: nat)
    requires m < |Tally(names)|
    ensures exists k :: 0 <= k < |ValueCounts(names)| && ValueCounts(names)[k] == Tally(names)[m]
  {
    assert Tally(names)[m] in multiset(ValueCounts(names));
  }

  /** Every country of the table is a name of the column. */
  lemma ValueCountsCountriesOccur<C>(names: seq<C>)
    ensures forall k :: 0 <= k < |ValueCounts(names)| ==> ValueCounts(names)[k].country in names
  {
    var t := Tally(names);
    var wc := ValueCounts(names);
    forall k | 0 <= k < |wc|
      ensures wc[k].country in names
    {
      EntryFromTally(names, k);
      var m :| 0 <= m < |t| && t[m] == wc[k];
      assert Countries(t)[m] == wc[k].country;
    }
  }

  /** The `i`th name of the column has an entry in the table. */
  lemma NameHasEntry<C>(names: seq<C>, i: nat)
    requires i < |names|
    ensures names[i] in Countries(ValueCounts(names))
  {
    var t := Tally(names);
    assert names[i] in Unique(names);
    var m :| 0 <= m < |t| && Countries(t)[m] == names[i];
    EntryOfTally(names, m);
    var k :| 0 <= k < |ValueCounts(names)| && ValueCounts(names)[k] == t[m];
    assert Countries(ValueCounts(names))[k] == names[i];
  }

  /** Every name of the column has an entry in the table. */
  lemma ValueCountsCoverNames<C>(names: seq<C>)
    ensures forall i :: 0 <= i < |names| ==> names[i] in Countries(ValueCounts(names))
  {
    forall i | 0 <= i < |names|
      ensures names[i] in Countries(ValueCounts(names))
    {
      NameHasEntry(names, i);
    }
  }

  /** Every entry's wins is the number of times its country occurs, so at least one. */
  lemma ValueCountsWins<C>(names: seq<C>)
    ensures forall k :: 0 <= k < |ValueCounts(names)| ==>
      ValueCounts(names)[k].wins == Count(names, ValueCounts(names)[k].country) >= 1
  {
    var t := Tally(names);
    var wc := ValueCounts(names);
    ValueCountsCountriesOccur(names);
    forall k | 0 <= k < |wc|
      ensures wc[k].wins == Count(names, wc[k].country)
    {
      EntryFromTally(names, k);
    }
  }

  /** Each country has exactly one entry. */
  lemma ValueCountsNoDup<C>(names: seq<C>)
    ensures NoDup(Countries(ValueCounts(names)))
  {
    var t := Tally(names);
    var wc := ValueCounts(names);
    assert NoDup(t) by {
      forall p, q | 0 <= p < q < |t|
        ensures t[p] != t[q]
      {
        assert Countries(t)[p] != Countries(t)[q];
      }
    }
    PermutationKeepsNoDup(t, wc);
    forall i, j | 0 <= i < j < |wc|
      ensures Countries(wc)[i] != Countries(wc)[j]
    {
      EntryFromTally(names, i);
      EntryFromTally(names, j);
      var p :| 0 <= p < |t| && t[p] == wc[i];
      var q :| 0 <= q < |t| && t[q] == wc[j];
      assert Countries(t)[p] != Countries(t)[q] || p == q;
    }
  }

  /** The table has one entry per distinct name. */
  lemma ValueCountsSize<C>(names: seq<C>)
    ensures |ValueCounts(names)| == |Unique(names)|
  {
    assert |multiset(ValueCounts(names))| == |multiset(Tally(names))|;
    assert |Countries(Tally(names))| == |Unique(names)|;
  }
}

/**
 * The scans of the dashboard worked out over the shape of its winner column:
 * the eight champions are parameters, so that each step compares names only
 * through their being distinct.
 */
module WinnerScan {

  import opened Series
  import opened WinCounts

  /** The normalised winner column, from 1930 to 2022, over the eight champions' names. */
  function Winners<T>(
    uruguay: T, italy: T, germany: T, brazil: T, england: T, argentina: T, france: T, spain: T): seq<T> {
    [uruguay, italy, italy, uruguay, germany, brazil, brazil, england, brazil, germany, argentina,
     italy, argentina, germany, brazil, france, brazil, italy, spain, germany, france, argentina]
  }

  /** No two of the eight champions share a name. */
  predicate Distinct<T(==)>(
    uruguay: T, italy: T, germany: T, brazil: T, england: T, argentina: T, france: T, spain: T)
  {
    uruguay != italy && uruguay != germany && uruguay != brazil && uruguay != england
      && uruguay != argentina && uruguay != france && uruguay != spain
    && italy != germany && italy != brazil && italy != england
      && italy != argentina && italy != france && italy != spain
    && germany != brazil && germany != england
      && germany != argentina && germany != france && germany != spain
    && brazil != england && brazil != argentina && brazil != france && brazil != spain
    && england != argentina && england != france && england != spain
    && argentina != france && argentina != spain
    && france != spain
  }

  /** The tally scan over the winner column, up to tournament 3. */
  lemma {:induction false} WinnersTallyTo3<T>(
    uruguay: T, italy: T, germany: T, brazil: T, england: T, argentina: T, france: T, spain: T)
    requires Distinct(uruguay, italy, germany, brazil, england, argentina, france, spain)
    ensures TallyUpTo(Winners(uruguay, italy, germany, brazil, england, argentina, france, spain), 3) ==
      [CountryWins(uruguay, 1), CountryWins(italy, 2)]
  {
    var w := Winners(uruguay, italy, germany, brazil, england, argentina, france, spain);
    var t1 := [CountryWins(uruguay, 1)];
    AddWinNew([], uruguay);
    assert TallyUpTo(w, 1) == t1;
    var t2 := [CountryWins(uruguay, 1), CountryWins(italy, 1)];
    AddWinNew(t1, italy);
    assert TallyUpTo(w, 2) == t2;
    var t3 := [CountryWins(uruguay, 1), CountryWins(italy, 2)];
    AddWinAt(t2, italy, 1);
    assert TallyUpTo(w, 3) == t3;
  }

  /** The tally scan over the winner column, up to tournament 6. */
  lemma {:induction false} WinnersTallyTo6<T>(
    uruguay: T, italy: T, germany: T, brazil: T, england: T, argentina: T, france: T, spain: T)
    requires Distinct(uruguay, italy, germany, brazil, england, argentina, france, spain)
    ensures TallyUpTo(Winners(uruguay, italy, germany, brazil, england, argentina, france, spain), 6) ==
      [CountryWins(uruguay, 2), CountryWins(italy, 2), CountryWins(germany, 1),
       CountryWins(brazil, 1)]
  {
    var w := Winners(uruguay, italy, germany, brazil, england, argentina, france, spain);
    WinnersTallyTo3(uruguay, italy, germany, brazil, england, argentina, france, spain);
    var t3 := [CountryWins(uruguay, 1), CountryWins(italy, 2)];
    var t4 := [CountryWins(uruguay, 2), CountryWins(italy, 2)];
    AddWinAt(t3, uruguay, 0);
    assert TallyUpTo(w, 4) == t4;
    var t5 := [CountryWins(uruguay, 2), CountryWins(italy, 2), CountryWins(germany, 1)];
    AddWinNew(t4, germany);
    assert TallyUpTo(w, 5) == t5;
    var t6 := [CountryWins(uruguay, 2), CountryWins(italy, 2), CountryWins(germany, 1),
               CountryWins(brazil, 1)];
    AddWinNew(t5, brazil);
    assert TallyUpTo(w, 6) == t6;
  }

  /** The tally scan over the winner column, up to tournament 9. */
  lemma {:induction false} WinnersTallyTo9<T>(
    uruguay: T, italy: T, germany: T, brazil: T, england: T, argentina: T, france: T, spain: T)
    requires Distinct(uruguay, italy, germany, brazil, england, argentina, france, spain)
    ensures TallyUpTo(Winners(uruguay, italy, germany, brazil, england, argentina, france, spain), 9) ==
      [CountryWins(uruguay, 2), CountryWins(italy, 2), CountryWins(germany, 1),
       CountryWins(brazil, 3), CountryWins(england, 1)]
  {
    var w := Winners(uruguay, italy, germany, brazil, england, argentina, france, spain);
    WinnersTallyTo6(uruguay, italy, germany, brazil, england, argentina, france, spain);
    var t6 := [CountryWins(uruguay, 2), CountryWins(italy, 2), CountryWins(germany, 1),
               CountryWins(brazil, 1)];
    var t7 := [CountryWins(uruguay, 2), CountryWins(italy, 2), CountryWins(germany, 1),
               CountryWins(brazil, 2)];
    AddWinAt(t6, brazil, 3);
    assert TallyUpTo(w, 7) == t7;
    var t8 := [CountryWins(uruguay, 2), CountryWins(italy, 2), CountryWins(germany, 1),
               CountryWins(brazil, 2), CountryWins(england, 1)];
    AddWinNew(t7, england);
    assert TallyUpTo(w, 8) == t8;
    var t9 := [CountryWins(uruguay, 2), CountryWins(italy, 2), CountryWins(germany, 1),
               CountryWins(brazil, 3), CountryWins(england, 1)];
    AddWinAt(t8, brazil, 3);
    assert TallyUpTo(w, 9) == t9;
  }

  /** The tally scan over the winner column, up to tournament 12. */
  lemma {:induction false} WinnersTallyTo12<T>(
    uruguay: T, italy: T, germany: T, brazil: T, england: T, argentina: T, france: T, spain: T)
    requires Distinct(uruguay, italy, germany, brazil, england, argentina, france, spain)
    ensures TallyUpTo(Winners(uruguay, italy, germany, brazil, england, argentina, france, spain), 12) ==
      [CountryWins(uruguay, 2), CountryWins(italy, 3), CountryWins(germany, 2),
       CountryWins(brazil, 3), CountryWins(england, 1), CountryWins(argentina, 1)]
  {
    var w := Winners(uruguay, italy, germany, brazil, england, argentina, france, spain);
    WinnersTallyTo9(uruguay, italy, germany, brazil, england, argentina, france, spain);
    var t9 := [CountryWins(uruguay, 2), CountryWins(italy, 2), CountryWins(germany, 1),
               CountryWins(brazil, 3), CountryWins(england, 1)];
    var t10 := [CountryWins(uruguay, 2), CountryWins(italy, 2), CountryWins(germany, 2),
                CountryWins(brazil, 3), CountryWins(england, 1)];
    AddWinAt(t9, germany, 2);
    assert TallyUpTo(w, 10) == t10;
    var t11 := [CountryWins(uruguay, 2), CountryWins(italy, 2), CountryWins(germany, 2),
                CountryWins(brazil, 3), CountryWins(england, 1), CountryWins(argentina, 1)];
    AddWinNew(t10, argentina);
    assert TallyUpTo(w, 11) == t11;
    var t12 := [CountryWins(uruguay, 2), CountryWins(italy, 3), CountryWins(germany, 2),
                CountryWins(brazil, 3), CountryWins(england, 1), CountryWins(argentina, 1)];
    AddWinAt(t11, italy, 1);
    assert TallyUpTo(w, 12) == t12;
  }

  /** The tally scan over the winner column, up to tournament 15. */
  lemma {:induction false} WinnersTallyTo15<T>(
    uruguay: T, italy: T, germany: T, brazil: T, england: T, argentina: T, france: T, spain: T)
    requires Distinct(uruguay, italy, germany, brazil, england, argentina, france, spain)
    ensures TallyUpTo(Winners(uruguay, italy, germany, brazil, england, argentina, france, spain), 15) ==
      [CountryWins(uruguay, 2), CountryWins(italy, 3), CountryWins(germany, 3),
       CountryWins(brazil, 4), CountryWins(england, 1), CountryWins(argentina, 2)]
  {
    var w := Winners(uruguay, italy, germany, brazil, england, argentina, france, spain);
    WinnersTallyTo12(uruguay, italy, germany, brazil, england, argentina, france, spain);
    var t12 := [CountryWins(uruguay, 2), CountryWins(italy, 3), CountryWins(germany, 2),
                CountryWins(brazil, 3), CountryWins(england, 1), CountryWins(argentina, 1)];
    var t13 := [CountryWins(uruguay, 2), CountryWins(italy, 3), CountryWins(germany, 2),
                CountryWins(brazil, 3), CountryWins(england, 1), CountryWins(argentina, 2)];
    AddWinAt(t12, argentina, 5);
    assert TallyUpTo(w, 13) == t13;
    var t14 := [CountryWins(uruguay, 2), CountryWins(italy, 3), CountryWins(germany, 3),
                CountryWins(brazil, 3), CountryWins(england, 1), CountryWins(argentina, 2)];
    AddWinAt(t13, germany, 2);
    assert TallyUpTo(w, 14) == t14;
    var t15 := [CountryWins(uruguay, 2), CountryWins(italy, 3), CountryWins(germany, 3),
                CountryWins(brazil, 4), CountryWins(england, 1), CountryWins(argentina, 2)];
    AddWinAt(t14, brazil, 3);
    assert TallyUpTo(w, 15) == t15;
  }

  /** The tally scan over the winner column, up to tournament 18. */
  lemma {:induction false} WinnersTallyTo18<T>(
    uruguay: T, italy: T, germany: T, brazil: T, england: T, argentina: T, france: T, spain: T)
    requires Distinct(uruguay, italy, germany, brazil, england, argentina, france, spain)
    ensures TallyUpTo(Winners(uruguay, italy, germany, brazil, england, argentina, france, spain), 18) ==
      [CountryWins(uruguay, 2), CountryWins(italy, 4), CountryWins(germany, 3),
       CountryWins(brazil, 5), CountryWins(england, 1), CountryWins(argentina, 2),
       CountryWins(france, 1)]
  {
    var w := Winners(uruguay, italy, germany, brazil, england, argentina, france, spain);
    WinnersTallyTo15(uruguay, italy, germany, brazil, england, argentina, france, spain);
    var t15 := [CountryWins(uruguay, 2), CountryWins(italy, 3), CountryWins(germany, 3),
                CountryWins(brazil, 4), CountryWins(england, 1), CountryWins(argentina, 2)];
    var t16 := [CountryWins(uruguay, 2), CountryWins(italy, 3), CountryWins(germany, 3),
                CountryWins(brazil, 4), CountryWins(england, 1), CountryWins(argentina, 2),
                CountryWins(france, 1)];
    AddWinNew(t15, france);
    assert TallyUpTo(w, 16) == t16;
    var t17 := [CountryWins(uruguay, 2), CountryWins(italy, 3), CountryWins(germany, 3),
                CountryWins(brazil, 5), CountryWins(england, 1), CountryWins(argentina, 2),
                CountryWins(france, 1)];
    AddWinAt(t16, brazil, 3);
    assert TallyUpTo(w, 17) == t17;
    var t18 := [CountryWins(uruguay, 2), CountryWins(italy, 4), CountryWins(germany, 3),
                CountryWins(brazil, 5), CountryWins(england, 1), CountryWins(argentina, 2),
                CountryWins(france, 1)];
    AddWinAt(t17, italy, 1);
    assert TallyUpTo(w, 18) == t18;
  }

  /** The tally scan over the winner column, up to tournament 22. */
  lemma {:induction false} WinnersTallyTo22<T>(
    uruguay: T, italy: T, germany: T, brazil: T, england: T, argentina: T, france: T, spain: T)
    requires Distinct(uruguay, italy, germany, brazil, england, argentina, france, spain)
    ensures TallyUpTo(Winners(uruguay, italy, germany, brazil, england, argentina, france, spain), 22) ==
      [CountryWins(uruguay, 2), CountryWins(italy, 4), CountryWins(germany, 4),
       CountryWins(brazil, 5), CountryWins(england, 1), CountryWins(argentina, 3),
       CountryWins(france, 2), CountryWins(spain, 1)]
  {
    var w := Winners(uruguay, italy, germany, brazil, england, argentina, france, spain);
    WinnersTallyTo18(uruguay, italy, germany, brazil, england, argentina, france, spain);
    var t18 := [CountryWins(uruguay, 2), CountryWins(italy, 4), CountryWins(germany, 3),
                CountryWins(brazil, 5), CountryWins(england, 1), CountryWins(argentina, 2),
                CountryWins(france, 1)];
    var t19 := [CountryWins(uruguay, 2), CountryWins(italy, 4), CountryWins(germany, 3),
                CountryWins(brazil, 5), CountryWins(england, 1), CountryWins(argentina, 2),
                CountryWins(france, 1), CountryWins(spain, 1)];
    AddWinNew(t18, spain);
    assert TallyUpTo(w, 19) == t19;
    var t20 := [CountryWins(uruguay, 2), CountryWins(italy, 4), CountryWins(germany, 4),
                CountryWins(brazil, 5), CountryWins(england, 1), CountryWins(argentina, 2),
                CountryWins(france, 1), CountryWins(spain, 1)];
    AddWinAt(t19, germany, 2);
    assert TallyUpTo(w, 20) == t20;
    var t21 := [CountryWins(uruguay, 2), CountryWins(italy, 4), CountryWins(germany, 4),
                CountryWins(brazil, 5), CountryWins(england, 1), CountryWins(argentina, 2),
                CountryWins(france, 2), CountryWins(spain, 1)];
    AddWinAt(t20, france, 6);
    assert TallyUpTo(w, 21) == t21;
    var t22 := [CountryWins(uruguay, 2), CountryWins(italy, 4), CountryWins(germany, 4),
                CountryWins(brazil, 5), CountryWins(england, 1), CountryWins(argentina, 3),
                CountryWins(france, 2), CountryWins(spain, 1)];
    AddWinAt(t21, argentina, 5);
    assert TallyUpTo(w, 22) == t22;
  }

  /**
   * The tally of the winner column: each champion, in the order of its first
   * title, with its number of titles.
   */
  lemma WinnersTally<T>(
    uruguay: T, italy: T, germany: T, brazil: T, england: T, argentina: T, france: T, spain: T)
    requires Distinct(uruguay, italy, germany, brazil, england, argentina, france, spain)
    ensures Tally(Winners(uruguay, italy, germany, brazil, england, argentina, france, spain)) ==
      [CountryWins(uruguay, 2), CountryWins(italy, 4), CountryWins(germany, 4),
       CountryWins(brazil, 5), CountryWins(england, 1), CountryWins(argentina, 3),
       CountryWins(france, 2), CountryWins(spain, 1)]
  {
    WinnersTallyTo22(uruguay, italy, germany, brazil, england, argentina, france, spain);
  }

  /** The distinct winners, in the order of their first title. */
  lemma WinnersUnique<T>(
    uruguay: T, italy: T, germany: T, brazil: T, england: T, argentina: T, france: T, spain: T)
    requires Distinct(uruguay, italy, germany, brazil, england, argentina, france, spain)
    ensures UniqueUpTo(Winners(uruguay, italy, germany, brazil, england, argentina, france, spain), 22) ==
      [uruguay, italy, germany, brazil, england, argentina, france, spain]
  {
    WinnersTallyTo22(uruguay, italy, germany, brazil, england, argentina, france, spain);
    TallyUpToCountries(Winners(uruguay, italy, germany, brazil, england, argentina, france, spain), 22);
    var t22 := [CountryWins(uruguay, 2), CountryWins(italy, 4), CountryWins(germany, 4),
                CountryWins(brazil, 5), CountryWins(england, 1), CountryWins(argentina, 3),
                CountryWins(france, 2), CountryWins(spain, 1)];
    assert Countries(t22) == [uruguay, italy, germany, brazil, england, argentina, france, spain];
  }

  /** Sorting the tally from entry 5 on. */
  lemma {:induction false} WinnersSortedFrom5<T>(
    argentina: T, france: T, spain: T)
    ensures SortByWins(
      [CountryWins(argentina, 3), CountryWins(france, 2), CountryWins(spain, 1)]) ==
      [CountryWins(argentina, 3), CountryWins(france, 2), CountryWins(spain, 1)]
  {
    var tail7 := [CountryWins(spain, 1)];
    var sorted7 := [CountryWins(spain, 1)];
    assert SortByWins(tail7) == sorted7;
    var tail6 := [CountryWins(france, 2), CountryWins(spain, 1)];
    assert tail6[1..] == tail7;
    InsertByWinsAt(CountryWins(france, 2), sorted7, 0);
    var sorted6 := [CountryWins(france, 2), CountryWins(spain, 1)];
    assert SortByWins(tail6) == sorted6;
    var tail5 := [CountryWins(argentina, 3), CountryWins(france, 2), CountryWins(spain, 1)];
    assert tail5[1..] == tail6;
    InsertByWinsAt(CountryWins(argentina, 3), sorted6, 0);
    var sorted5 := [CountryWins(argentina, 3), CountryWins(france, 2), CountryWins(spain, 1)];
    assert SortByWins(tail5) == sorted5;
  }

  /** Sorting the tally from entry 2 on. */
  lemma {:induction false} WinnersSortedFrom2<T>(
    germany: T, brazil: T, england: T, argentina: T, france: T, spain: T)
    ensures SortByWins(
      [CountryWins(germany, 4), CountryWins(brazil, 5), CountryWins(england, 1),
       CountryWins(argentina, 3), CountryWins(france, 2), CountryWins(spain, 1)]) ==
      [CountryWins(brazil, 5), CountryWins(germany, 4), CountryWins(argentina, 3),
       CountryWins(france, 2), CountryWins(england, 1), CountryWins(spain, 1)]
  {
    WinnersSortedFrom5(argentina, france, spain);
    var tail5 := [CountryWins(argentina, 3), CountryWins(france, 2), CountryWins(spain, 1)];
    var sorted5 := [CountryWins(argentina, 3), CountryWins(france, 2), CountryWins(spain, 1)];
    var tail4 := [CountryWins(england, 1), CountryWins(argentina, 3), CountryWins(france, 2),
                  CountryWins(spain, 1)];
    assert tail4[1..] == tail5;
    InsertByWinsAt(CountryWins(england, 1), sorted5, 2);
    var sorted4 := [CountryWins(argentina, 3), CountryWins(france, 2), CountryWins(england, 1),
                    CountryWins(spain, 1)];
    assert SortByWins(tail4) == sorted4;
    var tail3 := [CountryWins(brazil, 5), CountryWins(england, 1), CountryWins(argentina, 3),
                  CountryWins(france, 2), CountryWins(spain, 1)];
    assert tail3[1..] == tail4;
    InsertByWinsAt(CountryWins(brazil, 5), sorted4, 0);
    var sorted3 := [CountryWins(brazil, 5), CountryWins(argentina, 3), CountryWins(france, 2),
                    CountryWins(england, 1), CountryWins(spain, 1)];
    assert SortByWins(tail3) == sorted3;
    var tail2 := [CountryWins(germany, 4), CountryWins(brazil, 5), CountryWins(england, 1),
                  CountryWins(argentina, 3), CountryWins(france, 2), CountryWins(spain, 1)];
    assert tail2[1..] == tail3;
    InsertByWinsAt(CountryWins(germany, 4), sorted3, 1);
    var sorted2 := [CountryWins(brazil, 5), CountryWins(germany, 4), CountryWins(argentina, 3),
                    CountryWins(france, 2), CountryWins(england, 1), CountryWins(spain, 1)];
    assert SortByWins(tail2) == sorted2;
  }

  /** Sorting the tally by wins, one entry at a time from the back. */
  lemma {:induction false} WinnersSorted<T>(
    uruguay: T, italy: T, germany: T, brazil: T, england: T, argentina: T, france: T, spain: T)
    ensures SortByWins(
      [CountryWins(uruguay, 2), CountryWins(italy, 4), CountryWins(germany, 4),
       CountryWins(brazil, 5), CountryWins(england, 1), CountryWins(argentina, 3),
       CountryWins(france, 2), CountryWins(spain, 1)]) ==
      [CountryWins(brazil, 5), CountryWins(italy, 4), CountryWins(germany, 4),
       CountryWins(argentina, 3), CountryWins(uruguay, 2), CountryWins(france, 2),
       CountryWins(england, 1), CountryWins(spain, 1)]
  {
    WinnersSortedFrom2(germany, brazil, england, argentina, france, spain);
    var tail2 := [CountryWins(germany, 4), CountryWins(brazil, 5), CountryWins(england, 1),
                  CountryWins(argentina, 3), CountryWins(france, 2), CountryWins(spain, 1)];
    var sorted2 := [CountryWins(brazil, 5), CountryWins(germany, 4), CountryWins(argentina, 3),
                    CountryWins(france, 2), CountryWins(england, 1), CountryWins(spain, 1)];
    var tail1 := [CountryWins(italy, 4), CountryWins(germany, 4), CountryWins(brazil, 5),
                  CountryWins(england, 1), CountryWins(argentina, 3), CountryWins(france, 2),
                  CountryWins(spain, 1)];
    assert tail1[1..] == tail2;
    InsertByWinsAt(CountryWins(italy, 4), sorted2, 1);
    var sorted1 := [CountryWins(brazil, 5), CountryWins(italy, 4), CountryWins(germany, 4),
                    CountryWins(argentina, 3), CountryWins(france, 2), CountryWins(england, 1),
                    CountryWins(spain, 1)];
    assert SortByWins(tail1) == sorted1;
    var tail0 := [CountryWins(uruguay, 2), CountryWins(italy, 4), CountryWins(germany, 4),
                  CountryWins(brazil, 5), CountryWins(england, 1), CountryWins(argentina, 3),
                  CountryWins(france, 2), CountryWins(spain, 1)];
    assert tail0[1..] == tail1;
    InsertByWinsAt(CountryWins(uruguay, 2), sorted1, 4);
    var sorted0 := [CountryWins(brazil, 5), CountryWins(italy, 4), CountryWins(germany, 4),
                    CountryWins(argentina, 3), CountryWins(uruguay, 2), CountryWins(france, 2),
                    CountryWins(england, 1), CountryWins(spain, 1)];
    assert SortByWins(tail0) == sorted0;
  }
}

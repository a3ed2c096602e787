/** The view computed on the compiled-in dataset: what the showroom shows
    for the default criteria, for a search, for a price ceiling and for each
    sort key, and what the bell shows for the seed notifications. */
module Scenarios {
  import opened Types
  import opened Seqs
  import opened Text
  import opened Catalog
  import opened Showroom
  import Navbar
  import FilterPanel

  // ---------------------------------------------------------------------
  // Five-entry lists, stated on arbitrary records so that the solver does
  // not unfold the catalogue literals while it computes.

  lemma FilterCons<T>(x: T, s: seq<T>, p: T -> bool)
    ensures Filter([x] + s, p) == (if p(x) then [x] else []) + Filter(s, p)
  {
    assert ([x] + s)[0] == x && ([x] + s)[1..] == s;
  }

  /** Filtering five records that all pass keeps them all. */
  lemma FilterKeepsFive(a: Model, b: Model, c: Model, d: Model, e: Model, p: Model -> bool)
    requires p(a) && p(b) && p(c) && p(d) && p(e)
    ensures Filter([a, b, c, d, e], p) == [a, b, c, d, e]
  {
    FilterCons(e, [], p);
    FilterCons(d, [e], p);
    FilterCons(c, [d, e], p);
    FilterCons(b, [c, d, e], p);
    FilterCons(a, [b, c, d, e], p);
  }

  /** Filtering five records of which only the first passes. */
  lemma FilterKeepsFirst(a: Model, b: Model, c: Model, d: Model, e: Model, p: Model -> bool)
    requires p(a) && !p(b) && !p(c) && !p(d) && !p(e)
    ensures Filter([a, b, c, d, e], p) == [a]
  {
    FilterCons(e, [], p);
    FilterCons(d, [e], p);
    FilterCons(c, [d, e], p);
    FilterCons(b, [c, d, e], p);
    FilterCons(a, [b, c, d, e], p);
  }

  /** Filtering five records of which only the last two pass. */
  lemma FilterKeepsLastTwo(a: Model, b: Model, c: Model, d: Model, e: Model, p: Model -> bool)
    requires !p(a) && !p(b) && !p(c) && p(d) && p(e)
    ensures Filter([a, b, c, d, e], p) == [d, e]
  {
    FilterCons(e, [], p);
    FilterCons(d, [e], p);
    FilterCons(c, [d, e], p);
    FilterCons(b, [c, d, e], p);
    FilterCons(a, [b, c, d, e], p);
  }

  /** Sorting two records that are out of order swaps them. */
  lemma SortTwo(a: Model, b: Model, key: SortKey)
    requires Rank(b, key) < Rank(a, key)
    ensures SortBy([a, b], key) == [b, a]
  {
    SortBySnoc([], a, key);
    assert [] + [a] == [a];
    SortBySnoc([a], b, key);
    assert [a] + [b] == [a, b];
  }

  lemma SortBySnoc(s: seq<Model>, x: Model, key: SortKey)
    ensures SortBy(s + [x], key) == Insert(SortBy(s, key), x, key)
  {
    assert (s + [x])[..|s|] == s;
  }

  lemma InsertStep(h: Model, s: seq<Model>, x: Model, key: SortKey)
    ensures Insert([h] + s, x, key)
         == if Rank(h, key) > Rank(x, key) then [x, h] + s else [h] + Insert(s, x, key)
  {
    assert ([h] + s)[0] == h && ([h] + s)[1..] == s;
  }

  /** The first three insertions of a five-entry sort, for inputs whose third
      entry ranks lowest and whose second ranks above the first. */
  lemma SortThree(a: Model, b: Model, c: Model, key: SortKey)
    requires Rank(c, key) < Rank(a, key) <= Rank(b, key)
    ensures SortBy([a, b, c], key) == [c, a, b]
  {
    SortBySnoc([], a, key);
    assert [] + [a] == [a];
    SortBySnoc([a], b, key);
    assert [a] + [b] == [a, b];
    InsertStep(a, [], b, key);
    SortBySnoc([a, b], c, key);
    assert [a, b] + [c] == [a, b, c];
    InsertStep(a, [b], c, key);
  }

  /** The popularity order of the catalogue, stated on ranks. */
  lemma SortShapeCAEDB(a: Model, b: Model, c: Model, d: Model, e: Model, key: SortKey)
    requires Rank(c, key) < Rank(a, key) < Rank(e, key) < Rank(d, key) < Rank(b, key)
    ensures SortBy([a, b, c, d, e], key) == [c, a, e, d, b]
  {
    SortMiddleFourth(a, b, c, d, key);
    SortBySnoc([a, b, c, d], e, key);
    assert [a, b, c, d] + [e] == [a, b, c, d, e];
    InsertStep(a, [d, b], e, key);
    assert Insert([a, d, b], e, key) == [a, e, d, b];
    InsertStep(c, [a, d, b], e, key);
  }

  /** The first four insertions when the fourth entry ranks between the
      first and the second. */
  lemma SortMiddleFourth(a: Model, b: Model, c: Model, d: Model, key: SortKey)
    requires Rank(c, key) < Rank(a, key) < Rank(d, key) < Rank(b, key)
    ensures SortBy([a, b, c, d], key) == [c, a, d, b]
  {
    SortThree(a, b, c, key);
    SortBySnoc([a, b, c], d, key);
    assert [a, b, c] + [d] == [a, b, c, d];
    InsertStep(a, [b], d, key);
    assert Insert([a, b], d, key) == [a, d, b];
    InsertStep(c, [a, b], d, key);
  }

  /** The rating order of the catalogue, with `a` and `e` tied. */
  lemma SortShapeCAEBD(a: Model, b: Model, c: Model, d: Model, e: Model, key: SortKey)
    requires Rank(c, key) < Rank(a, key) == Rank(e, key) < Rank(b, key) < Rank(d, key)
    ensures SortBy([a, b, c, d, e], key) == [c, a, e, b, d]
  {
    SortLargestFourth(a, b, c, d, key);
    SortBySnoc([a, b, c, d], e, key);
    assert [a, b, c, d] + [e] == [a, b, c, d, e];
    InsertStep(b, [d], e, key);
    assert Insert([b, d], e, key) == [e, b, d];
    InsertStep(a, [b, d], e, key);
    assert Insert([a, b, d], e, key) == [a, e, b, d];
    InsertStep(c, [a, b, d], e, key);
  }

  /** The top-speed order of the catalogue. */
  lemma SortShapeCEABD(a: Model, b: Model, c: Model, d: Model, e: Model, key: SortKey)
    requires Rank(c, key) < Rank(e, key) < Rank(a, key) < Rank(b, key) < Rank(d, key)
    ensures SortBy([a, b, c, d, e], key) == [c, e, a, b, d]
  {
    SortLargestFourth(a, b, c, d, key);
    SortBySnoc([a, b, c, d], e, key);
    assert [a, b, c, d] + [e] == [a, b, c, d, e];
    InsertStep(a, [b, d], e, key);
    assert Insert([a, b, d], e, key) == [e, a, b, d];
    InsertStep(c, [a, b, d], e, key);
  }

  /** The first four insertions when the fourth entry ranks highest. */
  lemma SortLargestFourth(a: Model, b: Model, c: Model, d: Model, key: SortKey)
    requires Rank(c, key) < Rank(a, key) <= Rank(b, key) < Rank(d, key)
    ensures SortBy([a, b, c, d], key) == [c, a, b, d]
  {
    SortThree(a, b, c, key);
    SortBySnoc([a, b, c], d, key);
    assert [a, b, c] + [d] == [a, b, c, d];
    InsertStep(b, [], d, key);
    assert Insert([b], d, key) == [b, d];
    InsertStep(a, [b], d, key);
    assert Insert([a, b], d, key) == [a, b, d];
    InsertStep(c, [a, b], d, key);
  }

  /** The ascending-price order of the catalogue. */
  lemma SortShapeEDCAB(a: Model, b: Model, c: Model, d: Model, e: Model, key: SortKey)
    requires Rank(e, key) < Rank(d, key) < Rank(c, key) < Rank(a, key) < Rank(b, key)
    ensures SortBy([a, b, c, d, e], key) == [e, d, c, a, b]
  {
    SortThree(a, b, c, key);
    SortBySnoc([a, b, c], d, key);
    assert [a, b, c] + [d] == [a, b, c, d];
    InsertStep(c, [a, b], d, key);
    SortBySnoc([a, b, c, d], e, key);
    assert [a, b, c, d] + [e] == [a, b, c, d, e];
    InsertStep(d, [c, a, b], e, key);
  }

  /** The descending-price order of the catalogue: only the first two
      entries are out of order. */
  lemma SortShapeBACDE(a: Model, b: Model, c: Model, d: Model, e: Model, key: SortKey)
    requires Rank(b, key) < Rank(a, key) < Rank(c, key) < Rank(d, key) < Rank(e, key)
    ensures SortBy([a, b, c, d, e], key) == [b, a, c, d, e]
  {
    SortTwo(a, b, key);
    AppendLargest([a, b], [b, a], c, key);
    assert [a, b] + [c] == [a, b, c] && [b, a] + [c] == [b, a, c];
    AppendLargest([a, b, c], [b, a, c], d, key);
    assert [a, b, c] + [d] == [a, b, c, d] && [b, a, c] + [d] == [b, a, c, d];
    AppendLargest([a, b, c, d], [b, a, c, d], e, key);
    assert [a, b, c, d] + [e] == [a, b, c, d, e] && [b, a, c, d] + [e] == [b, a, c, d, e];
  }

  /** A record ranked at least as high as every record before it is sorted
      to the end. */
  lemma AppendLargest(s: seq<Model>, sorted: seq<Model>, x: Model, key: SortKey)
    requires SortBy(s, key) == sorted
    requires forall k :: 0 <= k < |sorted| ==> Rank(sorted[k], key) <= Rank(x, key)
    ensures SortBy(s + [x], key) == sorted + [x]
  {
    SortBySnoc(s, x, key);
    InsertAt(sorted, x, key, |sorted|);
    assert sorted[..|sorted|] == sorted && sorted[|sorted|..] == [];
  }

  // ---------------------------------------------------------------------
  // The catalogue view

  /** With no search, no series, both categories and the default ceiling,
      every catalogue record is selected, in catalogue order. */
  lemma WholeCatalogSelected(key: SortKey)
    ensures Select(MockModels(), InitialFilters().(sortBy := key)) == MockModels()
  {
    var f := InitialFilters().(sortBy := key);
    PassesEmptyQuery(M3(), f);
    PassesEmptyQuery(I7(), f);
    PassesEmptyQuery(M1000RR(), f);
    PassesEmptyQuery(R1300GS(), f);
    PassesEmptyQuery(S1000RR(), f);
    FilterKeepsFive(M3(), I7(), M1000RR(), R1300GS(), S1000RR(), PassesFn(f));
  }

  /** The default view shows all five models, most popular first. */
  lemma DefaultView()
    ensures CatalogView(MockModels(), InitialFilters())
         == [M1000RR(), M3(), S1000RR(), R1300GS(), I7()]
  {
    SortShapeCAEDB(M3(), I7(), M1000RR(), R1300GS(), S1000RR(), Popularity);
    WholeCatalogSelected(Popularity);
  }

  /** Deselecting both categories shows the default view unchanged. */
  lemma NoCategoriesShowsAll()
    ensures CatalogView(MockModels(), InitialFilters().(types := []))
         == [M1000RR(), M3(), S1000RR(), R1300GS(), I7()]
  {
    BothTypesIsNoTypes(MockModels(), InitialFilters());
    DefaultView();
  }

  /** The search "m3" passes the M3 sedan: its lower-cased name starts with "m3". */
  lemma M3MatchesM3()
    ensures MatchesQuery(M3(), "m3")
  {
    assert Lower("m3") == "m3";
    assert Lower(M3().name)[..2] == "m3";
  }

  /** A search that needs a character missing from both the name and the
      series of a model rejects it. */
  lemma MissesQuery(m: Model, query: string, c: char)
    requires c in Lower(query) && !('A' <= c <= 'Z')
    requires c !in m.name && c !in m.series
    requires 'a' <= c <= 'z' ==> (c as int - 32) as char !in m.name && (c as int - 32) as char !in m.series
    ensures !MatchesQuery(m, query)
  {
    LowerMissing(m.name, c);
    LowerMissing(m.series, c);
    MissingCharNotContained(Lower(m.name), Lower(query), c);
    MissingCharNotContained(Lower(m.series), Lower(query), c);
  }

  lemma LowerM3()
    ensures Lower("m3") == "m3"
  {
  }

  /** "i7 xDrive60" and "i Series" hold no "3". */
  lemma I7MissesM3()
    ensures !MatchesQuery(I7(), "m3")
  {
    LowerM3();
    MissesQuery(I7(), "m3", '3');
  }

  /** "M 1000 RR" and "M Series" hold no "3". */
  lemma M1000RRMissesM3()
    ensures !MatchesQuery(M1000RR(), "m3")
  {
    LowerM3();
    MissesQuery(M1000RR(), "m3", '3');
  }

  /** "R 1300 GS" and "X Series" hold no "m" of either case. */
  lemma R1300GSMissesM3()
    ensures !MatchesQuery(R1300GS(), "m3")
  {
    LowerM3();
    MissesQuery(R1300GS(), "m3", 'm');
  }

  /** "S 1000 RR" and "M Series" hold no "3". */
  lemma S1000RRMissesM3()
    ensures !MatchesQuery(S1000RR(), "m3")
  {
    LowerM3();
    MissesQuery(S1000RR(), "m3", '3');
  }

  /** Under the default ceiling, series and categories, a record that
      matches the query passes. */
  lemma PassesQueryOnly(m: Model, f: FilterState)
    requires f.maxPrice == 30000000 && f.series == [] && f.types == [Car, Bike]
    requires m.basePrice <= 30000000 && MatchesQuery(m, f.searchQuery)
    ensures PassesFn(f)(m)
  {
    assert m.modelType in f.types by {
      assert m.modelType == Car || m.modelType == Bike;
    }
  }

  /** With no query, no series and both categories, a record within the
      ceiling passes. */
  lemma PassesEmptyQuery(m: Model, f: FilterState)
    requires f.searchQuery == [] && f.series == [] && f.types == [Car, Bike]
    requires m.basePrice <= f.maxPrice
    ensures PassesFn(f)(m)
  {
    assert Lower([]) == [];
    assert m.modelType in f.types by {
      assert m.modelType == Car || m.modelType == Bike;
    }
  }

  /** A record above the ceiling is filtered out. */
  lemma FailsCeiling(m: Model, f: FilterState)
    requires f.maxPrice < m.basePrice
    ensures !PassesFn(f)(m)
  {
  }

  /** A record that misses the query is filtered out. */
  lemma FailsQuery(m: Model, f: FilterState)
    requires !MatchesQuery(m, f.searchQuery)
    ensures !PassesFn(f)(m)
  {
  }

  /** Only the M3 sedan passes the search "m3". */
  lemma SelectM3()
    ensures Select(MockModels(), InitialFilters().(searchQuery := "m3")) == [M3()]
  {
    var f := InitialFilters().(searchQuery := "m3");
    M3MatchesM3();
    I7MissesM3();
    M1000RRMissesM3();
    R1300GSMissesM3();
    S1000RRMissesM3();
    PassesQueryOnly(M3(), f);
    FailsQuery(I7(), f);
    FailsQuery(M1000RR(), f);
    FailsQuery(R1300GS(), f);
    FailsQuery(S1000RR(), f);
    FilterKeepsFirst(M3(), I7(), M1000RR(), R1300GS(), S1000RR(), PassesFn(f));
  }

  /** Searching "m3" shows the M3 sedan only. */
  lemma SearchM3()
    ensures CatalogView(MockModels(), InitialFilters().(searchQuery := "m3")) == [M3()]
  {
    SortBySnoc([], M3(), Popularity);
    assert [] + [M3()] == [M3()];
    SelectM3();
  }

  /** A ceiling of 3,000,000 keeps the two cheaper motorcycles, the more
      popular first. */
  lemma CeilingThreeMillion()
    ensures CatalogView(MockModels(), InitialFilters().(maxPrice := 3000000))
         == [S1000RR(), R1300GS()]
  {
    var f := InitialFilters().(maxPrice := 3000000);
    FailsCeiling(M3(), f);
    FailsCeiling(I7(), f);
    FailsCeiling(M1000RR(), f);
    PassesEmptyQuery(R1300GS(), f);
    PassesEmptyQuery(S1000RR(), f);
    FilterKeepsLastTwo(M3(), I7(), M1000RR(), R1300GS(), S1000RR(), PassesFn(f));
    SortTwo(R1300GS(), S1000RR(), Popularity);
  }

  /** Ascending price: S 1000 RR, R 1300 GS, M 1000 RR, M3, i7. */
  lemma PriceAscendingView()
    ensures CatalogView(MockModels(), InitialFilters().(sortBy := PriceAsc))
         == [S1000RR(), R1300GS(), M1000RR(), M3(), I7()]
  {
    SortShapeEDCAB(M3(), I7(), M1000RR(), R1300GS(), S1000RR(), PriceAsc);
    WholeCatalogSelected(PriceAsc);
  }

  /** Descending price: i7, M3, M 1000 RR, R 1300 GS, S 1000 RR. */
  lemma PriceDescendingView()
    ensures CatalogView(MockModels(), InitialFilters().(sortBy := PriceDesc))
         == [I7(), M3(), M1000RR(), R1300GS(), S1000RR()]
  {
    SortShapeBACDE(M3(), I7(), M1000RR(), R1300GS(), S1000RR(), PriceDesc);
    WholeCatalogSelected(PriceDesc);
  }

  /** Descending rating: M 1000 RR (5.0), then the two 4.9 models in
      catalogue order, M3 before S 1000 RR, then i7 and R 1300 GS. */
  lemma RatingView()
    ensures CatalogView(MockModels(), InitialFilters().(sortBy := Rating))
         == [M1000RR(), M3(), S1000RR(), I7(), R1300GS()]
  {
    SortShapeCAEBD(M3(), I7(), M1000RR(), R1300GS(), S1000RR(), Rating);
    WholeCatalogSelected(Rating);
  }

  /** Descending top speed: M 1000 RR, S 1000 RR, M3, i7, R 1300 GS. */
  lemma SpeedView()
    ensures CatalogView(MockModels(), InitialFilters().(sortBy := Speed))
         == [M1000RR(), S1000RR(), M3(), I7(), R1300GS()]
  {
    SortShapeCEABD(M3(), I7(), M1000RR(), R1300GS(), S1000RR(), Speed);
    WholeCatalogSelected(Speed);
  }

  // ---------------------------------------------------------------------
  // The notification bell

  /** The seed list has one unread notification, so the badge is drawn;
      marking notification "1" read clears it. */
  lemma SeedBell()
    ensures Navbar.UnreadCount(MockNotifications()) == 1
    ensures Navbar.ShowsBadge(MockNotifications())
    ensures Navbar.UnreadCount(MarkNotificationRead(MockNotifications(), "1")) == 0
    ensures !Navbar.ShowsBadge(MarkNotificationRead(MockNotifications(), "1"))
  {
    var ns := MockNotifications();
    Navbar.UnreadCountCons(ns);
    Navbar.UnreadCountCons(ns[1..]);
    assert ns[1..][1..] == [];
    MarkUniqueUnreadLowersByOne(ns, "1", 0);
  }
}

/** The top-level view: the criteria it starts from, the catalogue view it
    derives from them (four filter stages, then a stable sort on the chosen
    key) and the notification acknowledgement. */
module Showroom {
  import opened Types
  import opened Seqs
  import opened Text
  import Navbar
  import FilterPanel

  /** The criteria the view starts with. */
  function InitialFilters(): (f: FilterState)
    ensures f == FilterPanel.ResetFilters()
  {
    FilterState("", 30000000, 0, [], [], [Car, Bike], Popularity)
  }

  /** The criteria written by the "Reset Showroom" button of the empty view. */
  function ShowroomReset(): (f: FilterState)
    ensures f == InitialFilters()
  {
    FilterState("", 30000000, 0, [], [], [Car, Bike], Popularity)
  }

  // ---------------------------------------------------------------------
  // Filter stages

  /** The search stage's test: the lower-cased query occurs in the lower-cased
      name or series. */
  predicate MatchesQuery(m: Model, query: string) {
    Contains(Lower(m.name), Lower(query)) || Contains(Lower(m.series), Lower(query))
  }

  /** The series stage: no restriction while no series is selected. */
  predicate InSeries(m: Model, series: seq<string>) {
    |series| == 0 || m.series in series
  }

  /** The category stage: no restriction while no category is selected. */
  predicate OfType(m: Model, types: seq<ModelType>) {
    |types| == 0 || m.modelType in types
  }

  /** A record passes every active stage. The search stage is skipped for an
      empty query, which is harmless because an empty needle occurs
      everywhere. */
  predicate Passes(m: Model, f: FilterState) {
    && MatchesQuery(m, f.searchQuery)
    && m.basePrice <= f.maxPrice
    && InSeries(m, f.series)
    && OfType(m, f.types)
  }

  function PassesFn(f: FilterState): Model -> bool {
    m => Passes(m, f)
  }

  /** The catalogue records that pass every stage, in catalogue order. */
  function Select(catalog: seq<Model>, f: FilterState): (r: seq<Model>)
    ensures forall m :: m in r <==> m in catalog && Passes(m, f)
    ensures Subseq(r, catalog)
    ensures forall m :: multiset(r)[m] == if Passes(m, f) then multiset(catalog)[m] else 0
  {
    FilterMembers(catalog, PassesFn(f));
    FilterSubseq(catalog, PassesFn(f));
    FilterMultiset(catalog, PassesFn(f));
    Filter(catalog, PassesFn(f))
  }

  // ---------------------------------------------------------------------
  // Sorting

  /** The value a record is ordered by, ascending: the descending keys are
      negated. Every key not named falls back to popularity. */
  function Rank(m: Model, key: SortKey): int {
    match key
    case PriceAsc => m.basePrice
    case PriceDesc => -m.basePrice
    case Rating => -m.rating
    case Speed => -m.specs.topSpeed
    case _ => -m.popularity
  }

  /** The comparator handed to `result.sort`; negative puts `a` first. It
      compares the two ranks. */
  function Compare(a: Model, b: Model, key: SortKey): (d: int)
    ensures d == Rank(a, key) - Rank(b, key)
    ensures d < 0 <==> Rank(a, key) < Rank(b, key)
  {
    match key
    case PriceAsc => a.basePrice - b.basePrice
    case PriceDesc => b.basePrice - a.basePrice
    case Rating => b.rating - a.rating
    case Speed => b.specs.topSpeed - a.specs.topSpeed
    case _ => b.popularity - a.popularity
  }

  predicate Sorted(s: seq<Model>, key: SortKey) {
    forall i, j :: 0 <= i < j < |s| ==> Rank(s[i], key) <= Rank(s[j], key)
  }

  /** The order a sorted list has, stated on the record fields per key. */
  lemma SortedMeaning(s: seq<Model>, key: SortKey)
    requires Sorted(s, key)
    ensures key == PriceAsc ==> forall i, j :: 0 <= i < j < |s| ==> s[i].basePrice <= s[j].basePrice
    ensures key == PriceDesc ==> forall i, j :: 0 <= i < j < |s| ==> s[i].basePrice >= s[j].basePrice
    ensures key == Rating ==> forall i, j :: 0 <= i < j < |s| ==> s[i].rating >= s[j].rating
    ensures key == Speed ==> forall i, j :: 0 <= i < j < |s| ==> s[i].specs.topSpeed >= s[j].specs.topSpeed
    ensures key == Popularity ==> forall i, j :: 0 <= i < j < |s| ==> s[i].popularity >= s[j].popularity
  {
    forall i, j | 0 <= i < j < |s| ensures Rank(s[i], key) <= Rank(s[j], key) {
    }
  }

  function RankIs(key: SortKey, r: int): Model -> bool {
    m => Rank(m, key) == r
  }

  /** The records of `s` whose rank is `r`, in their order in `s`. A sort is
      stable when it keeps every such class as it was. */
  function Class(s: seq<Model>, key: SortKey, r: int): seq<Model> {
    Filter(s, RankIs(key, r))
  }

  /** Inserts `x` after every element that does not compare greater than it. */
  function Insert(s: seq<Model>, x: Model, key: SortKey): seq<Model> {
    if s == [] then [x]
    else if Compare(s[0], x, key) > 0 then [x] + s
    else [s[0]] + Insert(s[1..], x, key)
  }

  /** Insertion adds exactly one element, `x`. */
  lemma {:induction false} InsertMultiset(s: seq<Model>, x: Model, key: SortKey)
    ensures multiset(Insert(s, x, key)) == multiset(s) + multiset{x}
  {
    if s != [] && Compare(s[0], x, key) <= 0 {
      InsertMultiset(s[1..], x, key);
      assert s == [s[0]] + s[1..];
    }
  }

  /** Stable insertion sort: each element in turn is inserted into the sorted
      prefix before it. */
  function SortBy(s: seq<Model>, key: SortKey): seq<Model> {
    if s == [] then [] else Insert(SortBy(s[..|s| - 1], key), s[|s| - 1], key)
  }

  /** The sort is a permutation. */
  lemma {:induction false} SortByMultiset(s: seq<Model>, key: SortKey)
    ensures multiset(SortBy(s, key)) == multiset(s)
  {
    if s != [] {
      SortByMultiset(s[..|s| - 1], key);
      InsertMultiset(SortBy(s[..|s| - 1], key), s[|s| - 1], key);
      assert s == s[..|s| - 1] + [s[|s| - 1]];
    }
  }

  lemma SortedTail(s: seq<Model>, key: SortKey)
    requires Sorted(s, key) && s != []
    ensures Sorted(s[1..], key)
  {
    forall i, j | 0 <= i < j < |s[1..]| ensures Rank(s[1..][i], key) <= Rank(s[1..][j], key) {
      assert s[1..][i] == s[i + 1] && s[1..][j] == s[j + 1];
    }
  }

  /** A sorted list stays sorted under a head that ranks no higher than any
      of its elements. */
  lemma SortedCons(h: Model, t: seq<Model>, key: SortKey)
    requires Sorted(t, key)
    requires forall k :: 0 <= k < |t| ==> Rank(h, key) <= Rank(t[k], key)
    ensures Sorted([h] + t, key)
  {
    var r := [h] + t;
    forall i, j | 0 <= i < j < |r| ensures Rank(r[i], key) <= Rank(r[j], key) {
      assert r[j] == t[j - 1];
      if i > 0 {
        assert r[i] == t[i - 1];
      }
    }
  }

  /** A lower bound on the ranks of `s` and of `x` bounds the ranks after
      insertion. */
  lemma {:induction false} InsertLowerBound(s: seq<Model>, x: Model, key: SortKey, b: int)
    requires forall k :: 0 <= k < |s| ==> b <= Rank(s[k], key)
    requires b <= Rank(x, key)
    ensures forall k :: 0 <= k < |Insert(s, x, key)| ==> b <= Rank(Insert(s, x, key)[k], key)
  {
    if s != [] && Compare(s[0], x, key) <= 0 {
      InsertLowerBound(s[1..], x, key, b);
      assert forall k :: 0 < k < |Insert(s, x, key)| ==> Insert(s, x, key)[k] == Insert(s[1..], x, key)[k - 1];
    }
  }

  lemma {:induction false} InsertSorted(s: seq<Model>, x: Model, key: SortKey)
    requires Sorted(s, key)
    ensures Sorted(Insert(s, x, key), key)
  {
    if s == [] {
    } else if Compare(s[0], x, key) > 0 {
      SortedCons(x, s, key);
    } else {
      SortedTail(s, key);
      InsertSorted(s[1..], x, key);
      assert forall k :: 0 <= k < |s[1..]| ==> Rank(s[0], key) <= Rank(s[1..][k], key) by {
        assert forall k :: 0 <= k < |s[1..]| ==> s[1..][k] == s[k + 1];
      }
      InsertLowerBound(s[1..], x, key, Rank(s[0], key));
      SortedCons(s[0], Insert(s[1..], x, key), key);
    }
  }

  lemma {:induction false} SortBySorted(s: seq<Model>, key: SortKey)
    ensures Sorted(SortBy(s, key), key)
  {
    if s != [] {
      SortBySorted(s[..|s| - 1], key);
      InsertSorted(SortBy(s[..|s| - 1], key), s[|s| - 1], key);
    }
  }

  /** Prepending an element moves it to the front of its own class only. */
  lemma ClassCons(x: Model, s: seq<Model>, key: SortKey, r: int)
    ensures Class([x] + s, key, r) == (if Rank(x, key) == r then [x] else []) + Class(s, key, r)
  {
    assert ([x] + s)[0] == x && ([x] + s)[1..] == s;
  }

  /** Insertion puts `x` last in its class and leaves every other class alone. */
  lemma {:induction false} InsertClass(s: seq<Model>, x: Model, key: SortKey, r: int)
    requires Sorted(s, key)
    ensures Class(Insert(s, x, key), key, r)
         == if Rank(x, key) == r then Class(s, key, r) + [x] else Class(s, key, r)
  {
    if s == [] {
      ClassCons(x, [], key, r);
    } else if Compare(s[0], x, key) > 0 {
      InsertFrontClass(s, x, key, r);
    } else {
      SortedTail(s, key);
      InsertClass(s[1..], x, key, r);
      InsertPastHeadClass(s, x, key, r);
    }
  }

  /** When `x` goes in front of a sorted list, its class had no member yet. */
  lemma InsertFrontClass(s: seq<Model>, x: Model, key: SortKey, r: int)
    requires Sorted(s, key) && s != [] && Compare(s[0], x, key) > 0
    ensures Class(Insert(s, x, key), key, r)
         == if Rank(x, key) == r then Class(s, key, r) + [x] else Class(s, key, r)
  {
    assert Insert(s, x, key) == [x] + s;
    ClassCons(x, s, key, r);
    if Rank(x, key) == r {
      ClassEmpty(s, key, r);
    }
  }

  /** When `x` goes past the head, the head's contribution to each class is
      kept in front of the tail's. */
  lemma InsertPastHeadClass(s: seq<Model>, x: Model, key: SortKey, r: int)
    requires s != [] && Compare(s[0], x, key) <= 0
    requires Class(Insert(s[1..], x, key), key, r)
          == if Rank(x, key) == r then Class(s[1..], key, r) + [x] else Class(s[1..], key, r)
    ensures Class(Insert(s, x, key), key, r)
         == if Rank(x, key) == r then Class(s, key, r) + [x] else Class(s, key, r)
  {
    var t, rest := s[1..], Insert(s[1..], x, key);
    var h := if Rank(s[0], key) == r then [s[0]] else [];
    var u := Insert(s, x, key);
    assert Class(u, key, r) == h + Class(rest, key, r) by {
      assert u == [s[0]] + rest;
      assert u[0] == s[0] && u[1..] == rest;
    }
    assert Class(s, key, r) == h + Class(t, key, r);
    if Rank(x, key) == r {
      SeqAssoc(h, Class(t, key, r), [x]);
    }
  }

  lemma SeqAssoc(a: seq<Model>, b: seq<Model>, c: seq<Model>)
    ensures a + (b + c) == (a + b) + c
  {
  }

  /** A class below the smallest rank of a sorted list is empty. */
  lemma ClassEmpty(s: seq<Model>, key: SortKey, r: int)
    requires Sorted(s, key) && s != [] && r < Rank(s[0], key)
    ensures Class(s, key, r) == []
  {
    forall m | m in s ensures !RankIs(key, r)(m) {
      var k :| 0 <= k < |s| && s[k] == m;
      assert Rank(s[0], key) <= Rank(s[k], key);
    }
    FilterEmptyIff(s, RankIs(key, r));
  }

  /** The insertion sort is stable. */
  lemma {:induction false} SortByClass(s: seq<Model>, key: SortKey, r: int)
    ensures Class(SortBy(s, key), key, r) == Class(s, key, r)
  {
    if s != [] {
      var init, last := s[..|s| - 1], s[|s| - 1];
      assert s == init + [last];
      SortByClass(init, key, r);
      SortBySorted(init, key);
      assert SortBy(s, key) == Insert(SortBy(init, key), last, key);
      InsertClass(SortBy(init, key), last, key, r);
      FilterAppend(init, [last], RankIs(key, r));
      ClassCons(last, [], key, r);
      assert [last] + [] == [last];
    }
  }

  /** Any two sorted lists that agree on every class are equal. So every
      stable sort with this comparator produces `SortBy`'s output, whichever
      algorithm it uses. */
  lemma {:induction false} StableSortUnique(t: seq<Model>, u: seq<Model>, key: SortKey)
    requires Sorted(t, key) && Sorted(u, key)
    requires forall r :: Class(t, key, r) == Class(u, key, r)
    ensures t == u
    decreases |t| + |u|
  {
    if t == [] || u == [] {
      if t != [] {
        NonEmptyClass(t, u, key);
      } else if u != [] {
        NonEmptyClass(u, t, key);
      }
    } else {
      assert t == [t[0]] + t[1..];
      assert u == [u[0]] + u[1..];
      var rt, ru := Rank(t[0], key), Rank(u[0], key);
      HeadRankBound(t, u, key);
      HeadRankBound(u, t, key);
      assert rt == ru;
      ClassCons(t[0], t[1..], key, rt);
      ClassCons(u[0], u[1..], key, rt);
      assert t[0] == Class(t, key, rt)[0] == Class(u, key, rt)[0] == u[0];
      forall r ensures Class(t[1..], key, r) == Class(u[1..], key, r) {
        ClassCons(t[0], t[1..], key, r);
        ClassCons(u[0], u[1..], key, r);
        var h := if Rank(t[0], key) == r then [t[0]] else [];
        assert Class(t, key, r) == h + Class(t[1..], key, r);
        assert Class(u, key, r) == h + Class(u[1..], key, r);
        assert Class(t[1..], key, r) == Class(t, key, r)[|h|..];
      }
      SortedTail(t, key);
      SortedTail(u, key);
      StableSortUnique(t[1..], u[1..], key);
    }
  }

  /** A non-empty list has a non-empty class, so a list with all classes
      equal to its classes is non-empty too. */
  lemma NonEmptyClass(t: seq<Model>, u: seq<Model>, key: SortKey)
    requires t != []
    requires forall r :: Class(t, key, r) == Class(u, key, r)
    ensures u != []
  {
    ClassCons(t[0], t[1..], key, Rank(t[0], key));
    assert t == [t[0]] + t[1..];
    assert Class(u, key, Rank(t[0], key)) != [];
  }

  /** With equal classes, the head of a sorted `u` ranks no higher than the
      head of `t`. */
  lemma HeadRankBound(t: seq<Model>, u: seq<Model>, key: SortKey)
    requires t != [] && u != [] && Sorted(u, key)
    requires forall r :: Class(t, key, r) == Class(u, key, r)
    ensures Rank(u[0], key) <= Rank(t[0], key)
  {
    var rt := Rank(t[0], key);
    ClassCons(t[0], t[1..], key, rt);
    assert t == [t[0]] + t[1..];
    var c := Class(u, key, rt);
    assert c == Class(t, key, rt) && c[0] == t[0];
    FilterMembers(u, RankIs(key, rt));
    assert c[0] in c;
    var k :| 0 <= k < |u| && u[k] == t[0];
    assert Rank(u[0], key) <= Rank(u[k], key);
  }

  // ---------------------------------------------------------------------
  // The derived view

  /** The visible list: the passing records, stably sorted on the active key. */
  function CatalogView(catalog: seq<Model>, f: FilterState): seq<Model> {
    SortBy(Select(catalog, f), f.sortBy)
  }

  /** `Insert` places `x` at the split point of a sorted list. */
  lemma {:induction false} InsertAt(s: seq<Model>, x: Model, key: SortKey, j: nat)
    requires j <= |s|
    requires forall k :: 0 <= k < j ==> Compare(s[k], x, key) <= 0
    requires forall k :: j <= k < |s| ==> Compare(s[k], x, key) > 0
    ensures Insert(s, x, key) == s[..j] + [x] + s[j..]
  {
    if j == 0 {
      assert s[..j] + [x] + s[j..] == [x] + s by { assert s[..j] == [] && s[j..] == s; }
      if s != [] { assert Compare(s[0], x, key) > 0; }
    } else {
      var t := s[1..];
      forall k | 0 <= k < j - 1 ensures Compare(t[k], x, key) <= 0 {
        assert t[k] == s[k + 1];
      }
      forall k | j - 1 <= k < |t| ensures Compare(t[k], x, key) > 0 {
        assert t[k] == s[k + 1];
      }
      InsertAt(t, x, key, j - 1);
      assert Compare(s[0], x, key) <= 0;
      ConsSplice(s, x, j);
    }
  }

  /** Splicing `x` into a list at a positive index splices it into the tail. */
  lemma ConsSplice(s: seq<Model>, x: Model, j: nat)
    requires 0 < j <= |s|
    ensures s[..j] + [x] + s[j..] == [s[0]] + (s[1..][..j - 1] + [x] + s[1..][j - 1..])
  {
    assert s[..j] == [s[0]] + s[1..][..j - 1];
    assert s[j..] == s[1..][j - 1..];
  }

  /** Where the shifting loop stops, in a sorted prefix, is where `Insert`
      puts `x`. */
  lemma InsertPosition(s: seq<Model>, x: Model, key: SortKey, j: nat)
    requires Sorted(s, key) && j <= |s|
    requires j > 0 ==> Compare(s[j - 1], x, key) <= 0
    requires j < |s| ==> Compare(s[j], x, key) > 0
    ensures Insert(s, x, key) == s[..j] + [x] + s[j..]
  {
    forall k | 0 <= k < j ensures Compare(s[k], x, key) <= 0 {
      assert Rank(s[k], key) <= Rank(s[j - 1], key);
    }
    forall k | j <= k < |s| ensures Compare(s[k], x, key) > 0 {
      assert Rank(s[j], key) <= Rank(s[k], key);
    }
    InsertAt(s, x, key, j);
  }

  /** `result.sort(comparator)` on the array, as a stable insertion sort. */
  method SortInPlace(a: array<Model>, key: SortKey)
    modifies a
    ensures a[..] == SortBy(old(a[..]), key)
  {
    ghost var input := a[..];
    var i := 0;
    while i < a.Length
      invariant 0 <= i <= a.Length
      invariant a[..i] == SortBy(input[..i], key)
      invariant a[i..] == input[i..]
    {
      SortBySorted(input[..i], key);
      assert input[..i + 1] == input[..i] + [input[i]];
      InsertNext(a, i, key);
      i := i + 1;
    }
    assert input[..a.Length] == input;
  }

  /** `result.sort(comparator)` on a list: the list is laid out in an array,
      sorted in place and read back. */
  method SortList(s: seq<Model>, key: SortKey) returns (r: seq<Model>)
    ensures r == SortBy(s, key)
  {
    var a := new Model[|s|](k requires 0 <= k < |s| => s[k]);
    assert a[..] == s;
    SortInPlace(a, key);
    r := a[..];
  }

  /** One pass of the insertion sort: `a[i]` is swapped leftwards past every
      entry of the sorted prefix `a[..i]` that compares greater than it. */
  method InsertNext(a: array<Model>, i: nat, key: SortKey)
    requires i < a.Length && Sorted(a[..i], key)
    modifies a
    ensures a[..i + 1] == Insert(old(a[..i]), old(a[i]), key)
    ensures a[i + 1..] == old(a[i + 1..])
  {
    ghost var done, x, rest := a[..i], a[i], a[i + 1..];
    var j := ShiftLeft(a, i, key);
    SpliceParts(a[..], done, x, rest, j);
    InsertPosition(done, x, key, j);
  }

  /** The swapping loop: `a[i]` moves left while its left neighbour compares
      greater, and stops at index `j`, between an entry that does not compare
      greater and one that does. */
  method ShiftLeft(a: array<Model>, i: nat, key: SortKey) returns (j: nat)
    requires i < a.Length
    modifies a
    ensures j <= i
    ensures a[..] == old(a[..i])[..j] + [old(a[i])] + old(a[..i])[j..] + old(a[i + 1..])
    ensures j > 0 ==> Compare(old(a[..i])[j - 1], old(a[i]), key) <= 0
    ensures j < i ==> Compare(old(a[..i])[j], old(a[i]), key) > 0
  {
    ghost var done, x, rest := a[..i], a[i], a[i + 1..];
    assert a[..] == done[..i] + [x] + done[i..] + rest;
    j := i;
    SpliceParts(a[..], done, x, rest, j);
    while j > 0 && Compare(a[j - 1], a[j], key) > 0
      invariant 0 <= j <= i
      invariant a[..] == done[..j] + [x] + done[j..] + rest
      invariant j < i ==> Compare(done[j], x, key) > 0
    {
      ghost var c := a[..];
      SwapLeft(c, done, x, rest, j, key);
      a[j - 1], a[j] := a[j], a[j - 1];
      assert a[..] == c[j - 1 := c[j]][j := c[j - 1]];
      j := j - 1;
    }
    SpliceParts(a[..], done, x, rest, j);
  }

  /** The parts of a sequence that holds `s` with `x` spliced in at `j`,
      followed by `rest`. */
  lemma SpliceParts(c: seq<Model>, s: seq<Model>, x: Model, rest: seq<Model>, j: nat)
    requires j <= |s| && c == s[..j] + [x] + s[j..] + rest
    ensures |c| == |s| + 1 + |rest|
    ensures c[j] == x && (j > 0 ==> c[j - 1] == s[j - 1])
    ensures c[..|s| + 1] == s[..j] + [x] + s[j..] && c[|s| + 1..] == rest
  {
    assert c == (s[..j] + [x] + s[j..]) + rest;
  }

  /** Swapping `x` with a left neighbour that compares greater moves the
      splice point one left, past an entry ranked above `x`. */
  lemma SwapLeft(c: seq<Model>, s: seq<Model>, x: Model, rest: seq<Model>, j: nat, key: SortKey)
    requires 0 < j <= |s| && c == s[..j] + [x] + s[j..] + rest
    requires Compare(c[j - 1], c[j], key) > 0
    ensures c[j - 1 := c[j]][j := c[j - 1]] == s[..j - 1] + [x] + s[j - 1..] + rest
    ensures Compare(s[j - 1], x, key) > 0
  {
    SpliceParts(c, s, x, rest, j);
  }

  /** The view shows exactly the records that pass every active stage. */
  lemma ViewMembers(catalog: seq<Model>, f: FilterState)
    ensures forall m :: m in CatalogView(catalog, f) <==> m in catalog && Passes(m, f)
  {
    var sel := Select(catalog, f);
    SortByMultiset(sel, f.sortBy);
    assert forall m :: m in CatalogView(catalog, f) <==> m in multiset(sel);
  }

  /** The view is a permutation of the passing records: each appears as often
      as it does in the catalogue, and nothing else appears. */
  lemma ViewPermutation(catalog: seq<Model>, f: FilterState)
    ensures multiset(CatalogView(catalog, f)) == multiset(Select(catalog, f))
    ensures forall m :: multiset(CatalogView(catalog, f))[m]
                     == if Passes(m, f) then multiset(catalog)[m] else 0
  {
    SortByMultiset(Select(catalog, f), f.sortBy);
  }

  /** The view is ordered on the active key's field, ascending for
      `price-asc` and descending for the others. */
  lemma ViewOrdered(catalog: seq<Model>, f: FilterState)
    ensures Sorted(CatalogView(catalog, f), f.sortBy)
    ensures var v := CatalogView(catalog, f);
      && (f.sortBy == PriceAsc ==> forall i, j :: 0 <= i < j < |v| ==> v[i].basePrice <= v[j].basePrice)
      && (f.sortBy == PriceDesc ==> forall i, j :: 0 <= i < j < |v| ==> v[i].basePrice >= v[j].basePrice)
      && (f.sortBy == Rating ==> forall i, j :: 0 <= i < j < |v| ==> v[i].rating >= v[j].rating)
      && (f.sortBy == Speed ==> forall i, j :: 0 <= i < j < |v| ==> v[i].specs.topSpeed >= v[j].specs.topSpeed)
      && (f.sortBy == Popularity ==> forall i, j :: 0 <= i < j < |v| ==> v[i].popularity >= v[j].popularity)
  {
    SortBySorted(Select(catalog, f), f.sortBy);
    SortedMeaning(CatalogView(catalog, f), f.sortBy);
  }

  /** Records that tie on the active key keep their catalogue order. */
  lemma ViewStable(catalog: seq<Model>, f: FilterState, r: int)
    ensures Class(CatalogView(catalog, f), f.sortBy, r) == Class(Select(catalog, f), f.sortBy, r)
  {
    SortByClass(Select(catalog, f), f.sortBy, r);
  }

  /** Any stable sort of the passing records yields the view, so the result
      does not depend on which stable algorithm the runtime uses. */
  lemma ViewIsTheStableSort(catalog: seq<Model>, f: FilterState, t: seq<Model>)
    requires Sorted(t, f.sortBy)
    requires forall r :: Class(t, f.sortBy, r) == Class(Select(catalog, f), f.sortBy, r)
    ensures t == CatalogView(catalog, f)
  {
    var v := CatalogView(catalog, f);
    SortBySorted(Select(catalog, f), f.sortBy);
    forall r ensures Class(t, f.sortBy, r) == Class(v, f.sortBy, r) {
      SortByClass(Select(catalog, f), f.sortBy, r);
    }
    StableSortUnique(t, v, f.sortBy);
  }

  /** `minSpeed` and `years` are carried in the criteria but read by no stage. */
  lemma ViewIgnoresSpeedAndYears(catalog: seq<Model>, f: FilterState, speed: int, years: seq<int>)
    ensures CatalogView(catalog, f.(minSpeed := speed, years := years)) == CatalogView(catalog, f)
  {
    var g := f.(minSpeed := speed, years := years);
    FilterExt(catalog, PassesFn(g), PassesFn(f));
  }

  /** The search is case-insensitive: queries that lower-case alike select alike. */
  lemma QueryIgnoresCase(catalog: seq<Model>, f: FilterState, q: string)
    requires Lower(q) == Lower(f.searchQuery)
    ensures CatalogView(catalog, f.(searchQuery := q)) == CatalogView(catalog, f)
  {
    var g := f.(searchQuery := q);
    FilterExt(catalog, PassesFn(g), PassesFn(f));
  }

  /** An empty query and empty series and category lists restrict nothing:
      only the price ceiling is left. */
  lemma EmptyStagesKeepAll(catalog: seq<Model>, f: FilterState)
    requires f.searchQuery == [] && f.series == [] && f.types == []
    requires forall m :: m in catalog ==> m.basePrice <= f.maxPrice
    ensures Select(catalog, f) == catalog
  {
    assert Lower([]) == [];
    FilterAll(catalog, PassesFn(f));
  }

  /** Selecting both categories is the same as selecting none. */
  lemma BothTypesIsNoTypes(catalog: seq<Model>, f: FilterState)
    requires Car in f.types && Bike in f.types
    ensures CatalogView(catalog, f) == CatalogView(catalog, f.(types := []))
  {
    var g := f.(types := []);
    forall m ensures PassesFn(f)(m) == PassesFn(g)(m) {
      assert m.modelType == Car || m.modelType == Bike;
    }
    FilterExt(catalog, PassesFn(f), PassesFn(g));
  }

  /** Lowering the price ceiling only removes records, keeping the order of
      the rest. */
  lemma LowerCeilingNarrows(catalog: seq<Model>, f: FilterState, ceiling: int)
    requires ceiling <= f.maxPrice
    ensures Subseq(Select(catalog, f.(maxPrice := ceiling)), Select(catalog, f))
  {
    var g := f.(maxPrice := ceiling);
    var cheap := (m: Model) => m.basePrice <= ceiling;
    FilterFilter(catalog, PassesFn(f), cheap, PassesFn(g));
    FilterSubseq(Select(catalog, f), cheap);
  }

  /** With the default criteria, a catalogue within the default ceiling is
      shown whole, most popular first. */
  lemma InitialView(catalog: seq<Model>)
    requires forall m :: m in catalog ==> m.basePrice <= InitialFilters().maxPrice
    ensures CatalogView(catalog, InitialFilters()) == SortBy(catalog, Popularity)
  {
    var f := InitialFilters();
    BothTypesIsNoTypes(catalog, f);
    EmptyStagesKeepAll(catalog, f.(types := []));
  }

  /** `filteredCars`: the catalogue copy narrowed stage by stage, then sorted
      in place. */
  method FilteredCars(catalog: seq<Model>, filters: FilterState) returns (result: seq<Model>)
    ensures result == CatalogView(catalog, filters)
    ensures forall m :: m in result <==> m in catalog && Passes(m, filters)
    ensures Sorted(result, filters.sortBy)
  {
    var query, ceiling := filters.searchQuery, filters.maxPrice;
    var series, types := filters.series, filters.types;
    var byQuery := (m: Model) => MatchesQuery(m, query);
    ghost var byPrice := (m: Model) => MatchesQuery(m, query) && m.basePrice <= ceiling;
    ghost var bySeries := (m: Model) => MatchesQuery(m, query) && m.basePrice <= ceiling && InSeries(m, series);

    result := catalog;
    if query != [] {
      result := Filter(result, byQuery);
    } else {
      FilterAll(catalog, byQuery);
    }
    // result == Filter(catalog, byQuery)
    var priceStage := (m: Model) => m.basePrice <= ceiling;
    FilterFilter(catalog, byQuery, priceStage, byPrice);
    result := Filter(result, priceStage);

    if |series| > 0 {
      var seriesStage := (m: Model) => m.series in series;
      FilterFilter(catalog, byPrice, seriesStage, bySeries);
      result := Filter(result, seriesStage);
    } else {
      FilterExt(catalog, byPrice, bySeries);
    }

    if |types| > 0 {
      var typeStage := (m: Model) => m.modelType in types;
      FilterFilter(catalog, bySeries, typeStage, PassesFn(filters));
      result := Filter(result, typeStage);
    } else {
      FilterExt(catalog, bySeries, PassesFn(filters));
    }
    assert result == Select(catalog, filters);

    result := SortList(result, filters.sortBy);
    ViewMembers(catalog, filters);
    ViewOrdered(catalog, filters);
  }

  // ---------------------------------------------------------------------
  // Notifications

  /** `markNotificationRead(id)`: the list mapped so that every notification
      carrying `id` is marked read. */
  function MarkNotificationRead(ns: seq<Notification>, id: string): (r: seq<Notification>)
    ensures |r| == |ns|
    ensures forall i :: 0 <= i < |ns| ==> r[i].isRead == (ns[i].isRead || ns[i].id == id)
    ensures forall i :: 0 <= i < |ns| ==> r[i].(isRead := ns[i].isRead) == ns[i]
    ensures forall i :: 0 <= i < |ns| && ns[i].id != id ==> r[i] == ns[i]
    ensures (forall i :: 0 <= i < |ns| ==> ns[i].id != id) ==> r == ns
  {
    seq(|ns|, i requires 0 <= i < |ns| => if ns[i].id == id then ns[i].(isRead := true) else ns[i])
  }

  /** Marking the same notification read twice is marking it once. */
  lemma MarkNotificationReadIdempotent(ns: seq<Notification>, id: string)
    ensures MarkNotificationRead(MarkNotificationRead(ns, id), id) == MarkNotificationRead(ns, id)
  {
    var once := MarkNotificationRead(ns, id);
    var twice := MarkNotificationRead(once, id);
    forall i | 0 <= i < |ns| ensures twice[i] == once[i] {
      assert twice[i].(isRead := once[i].isRead) == once[i];
    }
  }

  /** Marking never raises the unread count. */
  lemma {:induction false} MarkReadNeverRaises(ns: seq<Notification>, id: string)
    ensures Navbar.UnreadCount(MarkNotificationRead(ns, id)) <= Navbar.UnreadCount(ns)
    decreases |ns|
  {
    if ns != [] {
      var r := MarkNotificationRead(ns, id);
      MarkReadTail(ns, id);
      MarkReadNeverRaises(ns[1..], id);
      Navbar.UnreadCountCons(ns);
      Navbar.UnreadCountCons(r);
    }
  }

  /** For an id carried by exactly one notification, still unread, marking
      lowers the unread count by exactly one. */
  lemma {:induction false} MarkUniqueUnreadLowersByOne(ns: seq<Notification>, id: string, i: nat)
    requires i < |ns| && ns[i].id == id && !ns[i].isRead
    requires forall k :: 0 <= k < |ns| && k != i ==> ns[k].id != id
    ensures Navbar.UnreadCount(MarkNotificationRead(ns, id)) == Navbar.UnreadCount(ns) - 1
    decreases |ns|
  {
    var r := MarkNotificationRead(ns, id);
    MarkReadTail(ns, id);
    Navbar.UnreadCountCons(ns);
    Navbar.UnreadCountCons(r);
    var tail := ns[1..];
    assert forall k :: 0 <= k < |tail| ==> tail[k] == ns[k + 1];
    if i == 0 {
      assert r[0].isRead;
      assert MarkNotificationRead(tail, id) == tail;
    } else {
      assert r[0] == ns[0];
      forall k | 0 <= k < |tail| && k != i - 1 ensures tail[k].id != id {
        assert tail[k] == ns[k + 1];
      }
      MarkUniqueUnreadLowersByOne(tail, id, i - 1);
    }
  }

  /** Marking commutes with taking the tail. */
  lemma MarkReadTail(ns: seq<Notification>, id: string)
    requires ns != []
    ensures MarkNotificationRead(ns, id)[1..] == MarkNotificationRead(ns[1..], id)
  {
  }
}

/** Generic facts about sequences that the catalogue code leans on: the
    `Array.prototype.filter` operation, the subsequence order it keeps, and
    duplicate-freedom. */
module Seqs {

  /** Keeps, in order, the elements of `s` that satisfy `p`, as
      `Array.prototype.filter` does. */
  function Filter<T>(s: seq<T>, p: T -> bool): (r: seq<T>)
    ensures |r| <= |s|
  {
    if s == [] then [] else (if p(s[0]) then [s[0]] else []) + Filter(s[1..], p)
  }

  /** The filter holds exactly the elements of `s` that pass. */
  lemma {:induction false} FilterMembers<T(!new)>(s: seq<T>, p: T -> bool)
    ensures forall x :: x in Filter(s, p) <==> x in s && p(x)
    ensures forall i :: 0 <= i < |Filter(s, p)| ==> p(Filter(s, p)[i])
  {
    if s != [] {
      FilterMembers(s[1..], p);
      var r := Filter(s[1..], p);
      if p(s[0]) {
        assert Filter(s, p) == [s[0]] + r;
        forall i | 0 <= i < |Filter(s, p)| ensures p(Filter(s, p)[i]) {
          if i > 0 { assert Filter(s, p)[i] == r[i - 1]; }
        }
      } else {
        assert Filter(s, p) == r;
      }
      assert s == [s[0]] + s[1..];
    }
  }

  /** `a` occurs in `b` with its order kept, possibly with gaps. */
  predicate Subseq<T(==,!new)>(a: seq<T>, b: seq<T>)
    decreases |b|
  {
    if a == [] then true
    else if b == [] then false
    else if a[0] == b[0] then Subseq(a[1..], b[1..])
    else Subseq(a, b[1..])
  }

  /** No element occurs twice. */
  predicate NoDup<T(==,!new)>(s: seq<T>) {
    forall i, j :: 0 <= i < j < |s| ==> s[i] != s[j]
  }

  lemma {:induction false} FilterAppend<T(!new)>(a: seq<T>, b: seq<T>, p: T -> bool)
    ensures Filter(a + b, p) == Filter(a, p) + Filter(b, p)
  {
    if a == [] {
      assert a + b == b;
    } else {
      var h := if p(a[0]) then [a[0]] else [];
      assert (a + b)[0] == a[0];
      assert (a + b)[1..] == a[1..] + b;
      FilterAppend(a[1..], b, p);
      assert Filter(a + b, p) == h + (Filter(a[1..], p) + Filter(b, p));
      assert Filter(a, p) == h + Filter(a[1..], p);
    }
  }

  /** Filtering keeps every occurrence of a passing element and drops every
      occurrence of a failing one. */
  lemma {:induction false} FilterMultiset<T(!new)>(s: seq<T>, p: T -> bool)
    ensures forall x :: multiset(Filter(s, p))[x] == if p(x) then multiset(s)[x] else 0
  {
    if s != [] {
      FilterMultiset(s[1..], p);
      assert s == [s[0]] + s[1..];
    }
  }

  /** Two pointwise equal predicates filter alike. */
  lemma {:induction false} FilterExt<T(!new)>(s: seq<T>, p: T -> bool, q: T -> bool)
    requires forall x :: p(x) == q(x)
    ensures Filter(s, p) == Filter(s, q)
  {
    if s != [] {
      FilterExt(s[1..], p, q);
    }
  }

  /** Filtering by `p` and then by `q` is filtering once by their conjunction. */
  lemma {:induction false} FilterFilter<T(!new)>(s: seq<T>, p: T -> bool, q: T -> bool, pq: T -> bool)
    requires forall x :: pq(x) == (p(x) && q(x))
    ensures Filter(Filter(s, p), q) == Filter(s, pq)
  {
    if s != [] {
      FilterFilter(s[1..], p, q, pq);
      var rest := Filter(s[1..], p);
      if p(s[0]) {
        var kept := [s[0]] + rest;
        assert Filter(s, p) == kept;
        assert kept[0] == s[0] && kept[1..] == rest;
        assert Filter(kept, q) == (if q(s[0]) then [s[0]] else []) + Filter(rest, q);
      } else {
        assert Filter(s, p) == rest;
      }
      assert Filter(s, pq) == (if pq(s[0]) then [s[0]] else []) + Filter(s[1..], pq);
    }
  }

  /** A filter that every element passes changes nothing. */
  lemma {:induction false} FilterAll<T(!new)>(s: seq<T>, p: T -> bool)
    requires forall x :: x in s ==> p(x)
    ensures Filter(s, p) == s
  {
    if s != [] {
      assert s[0] in s;
      assert forall x :: x in s[1..] ==> x in s;
      FilterAll(s[1..], p);
    }
  }

  /** The filter keeps the whole sequence exactly when every element passes. */
  lemma {:induction false} FilterFullIff<T(!new)>(s: seq<T>, p: T -> bool)
    ensures |Filter(s, p)| == |s| <==> forall x :: x in s ==> p(x)
  {
    if s != [] {
      FilterFullIff(s[1..], p);
      if forall x :: x in s ==> p(x) {
        FilterAll(s, p);
      } else if p(s[0]) {
        assert exists x :: x in s[1..] && !p(x);
      }
    }
  }

  /** The filter is empty exactly when no element passes. */
  lemma FilterEmptyIff<T(!new)>(s: seq<T>, p: T -> bool)
    ensures |Filter(s, p)| == 0 <==> forall x :: x in s ==> !p(x)
  {
    if |Filter(s, p)| != 0 {
      assert Filter(s, p)[0] in Filter(s, p);
    }
  }

  /** The filter is a subsequence of its input: it keeps the input's order. */
  lemma {:induction false} FilterSubseq<T(!new)>(s: seq<T>, p: T -> bool)
    ensures Subseq(Filter(s, p), s)
  {
    if s != [] {
      FilterSubseq(s[1..], p);
      if p(s[0]) {
        assert Filter(s, p) == [s[0]] + Filter(s[1..], p);
        assert Filter(s, p)[1..] == Filter(s[1..], p);
      } else {
        var r := Filter(s[1..], p);
        FilterMembers(s[1..], p);
        assert Filter(s, p) == r;
        assert r != [] ==> p(r[0]) && r[0] != s[0];
      }
    }
  }

  /** A filter of a duplicate-free sequence is duplicate-free. */
  lemma {:induction false} FilterNoDup<T(!new)>(s: seq<T>, p: T -> bool)
    requires NoDup(s)
    ensures NoDup(Filter(s, p))
  {
    if s != [] {
      assert NoDup(s[1..]) by {
        forall i, j | 0 <= i < j < |s[1..]| ensures s[1..][i] != s[1..][j] {
          assert s[1..][i] == s[i + 1] && s[1..][j] == s[j + 1];
        }
      }
      FilterNoDup(s[1..], p);
      FilterMembers(s[1..], p);
      var r := Filter(s[1..], p);
      if p(s[0]) {
        assert s[0] !in s[1..] by {
          forall j | 0 <= j < |s[1..]| ensures s[1..][j] != s[0] {
            assert s[1..][j] == s[j + 1];
          }
        }
        assert s[0] !in r;
        var t := [s[0]] + r;
        forall i, j | 0 <= i < j < |t| ensures t[i] != t[j] {
          if i == 0 {
            assert t[j] == r[j - 1] && t[j] in r;
          } else {
            assert t[i] == r[i - 1] && t[j] == r[j - 1];
          }
        }
      }
    }
  }

  /** The test `x => x !== t`. */
  function Differs<T(==)>(t: T): T -> bool {
    x => x != t
  }

  /** Appending an element that is not yet present keeps a sequence duplicate-free. */
  lemma AppendFreshNoDup<T(!new)>(s: seq<T>, t: T)
    requires NoDup(s) && t !in s
    ensures NoDup(s + [t])
  {
    var r := s + [t];
    forall i, j | 0 <= i < j < |r| ensures r[i] != r[j] {
      if j == |s| {
        assert r[i] == s[i] && s[i] in s;
      } else {
        assert r[i] == s[i] && r[j] == s[j];
      }
    }
  }

  /** `s` with every occurrence of `t` removed and the rest in order. */
  function Without<T(==,!new)>(s: seq<T>, t: T): (r: seq<T>)
    ensures forall x :: x in r <==> x in s && x != t
    ensures multiset(r) == multiset(s)[t := 0]
    ensures Subseq(r, s)
    ensures NoDup(s) ==> NoDup(r)
    ensures t !in s ==> r == s
  {
    var p := Differs(t);
    FilterMembers(s, p);
    FilterMultiset(s, p);
    FilterSubseq(s, p);
    assert NoDup(s) ==> NoDup(Filter(s, p)) by {
      if NoDup(s) { FilterNoDup(s, p); }
    }
    assert t !in s ==> Filter(s, p) == s by {
      if t !in s { FilterAll(s, p); }
    }
    assert multiset(Filter(s, p)) == multiset(s)[t := 0];
    Filter(s, p)
  }

  /** Removing from a concatenation removes from each part. */
  lemma WithoutAppend<T(!new)>(a: seq<T>, b: seq<T>, t: T)
    ensures Without(a + b, t) == Without(a, t) + Without(b, t)
  {
    FilterAppend(a, b, Differs(t));
  }
}

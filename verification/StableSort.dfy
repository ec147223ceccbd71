/** `Array.prototype.sort` on sibling rows: stable, folders first, then by name.
    `localeCompare` is an arbitrary total preorder on names. */
module StableSort {
  import opened Sequences

  ghost predicate TotalPreorder<T(!new)>(leq: (T, T) -> bool) {
    && (forall a, b :: leq(a, b) || leq(b, a))
    && (forall a, b, c :: leq(a, b) && leq(b, c) ==> leq(a, c))
  }

  predicate Same<T>(leq: (T, T) -> bool, a: T, b: T) { leq(a, b) && leq(b, a) }

  ghost predicate Sorted<T>(s: seq<T>, leq: (T, T) -> bool) {
    forall i, j :: 0 <= i < j < |s| ==> leq(s[i], s[j])
  }

  /** Puts `x` before the first element it does not exceed. */
  function Insert<T>(x: T, s: seq<T>, leq: (T, T) -> bool): (r: seq<T>)
    ensures |r| == |s| + 1
  {
    if s == [] || leq(x, s[0]) then [x] + s
    else [s[0]] + Insert(x, s[1..], leq)
  }

  function Sort<T>(s: seq<T>, leq: (T, T) -> bool): (r: seq<T>)
    ensures |r| == |s|
  {
    if s == [] then []
    else Insert(s[0], Sort(s[1..], leq), leq)
  }

  lemma {:induction false} InsertMultiset<T>(x: T, s: seq<T>, leq: (T, T) -> bool)
    ensures multiset(Insert(x, s, leq)) == multiset([x]) + multiset(s)
  {
    if s == [] || leq(x, s[0]) {
    } else {
      InsertMultiset(x, s[1..], leq);
      assert s == [s[0]] + s[1..];
    }
  }

  lemma {:induction false} SortMultiset<T>(s: seq<T>, leq: (T, T) -> bool)
    ensures multiset(Sort(s, leq)) == multiset(s)
  {
    if s == [] {
    } else {
      SortMultiset(s[1..], leq);
      InsertMultiset(s[0], Sort(s[1..], leq), leq);
      assert s == [s[0]] + s[1..];
    }
  }

  lemma {:induction false} SortMember<T>(s: seq<T>, leq: (T, T) -> bool)
    ensures forall x :: x in Sort(s, leq) <==> x in s
  {
    SortMultiset(s, leq);
    forall x ensures x in Sort(s, leq) <==> x in s {
      assert x in Sort(s, leq) <==> x in multiset(Sort(s, leq));
      assert x in s <==> x in multiset(s);
    }
  }

  lemma {:induction false} InsertSorted<T(!new)>(x: T, s: seq<T>, leq: (T, T) -> bool)
    requires TotalPreorder(leq) && Sorted(s, leq)
    ensures Sorted(Insert(x, s, leq), leq)
  {
    if s == [] || leq(x, s[0]) {
    } else {
      var t := Insert(x, s[1..], leq);
      InsertSorted(x, s[1..], leq);
      InsertMultiset(x, s[1..], leq);
      forall y | y in t ensures leq(s[0], y) {
        assert y in multiset(t) && (y in multiset([x]) || y in multiset(s[1..]));
      }
    }
  }

  lemma {:induction false} SortSorts<T(!new)>(s: seq<T>, leq: (T, T) -> bool)
    requires TotalPreorder(leq)
    ensures Sorted(Sort(s, leq), leq)
  {
    if s == [] {
    } else {
      SortSorts(s[1..], leq);
      InsertSorted(s[0], Sort(s[1..], leq), leq);
    }
  }

  lemma {:induction false} InsertCons<T>(x: T, y: T, s: seq<T>, leq: (T, T) -> bool)
    ensures Insert(x, [y] + s, leq) == if leq(x, y) then [x] + ([y] + s) else [y] + Insert(x, s, leq)
  {
  }

  lemma {:induction false} InsertFirst<T>(x: T, s: seq<T>, leq: (T, T) -> bool)
    requires s != [] ==> leq(x, s[0])
    ensures Insert(x, s, leq) == [x] + s
  {
  }

  lemma {:induction false} InsertFilter<T(!new)>(x: T, s: seq<T>, leq: (T, T) -> bool, keep: T -> bool)
    requires TotalPreorder(leq) && Sorted(s, leq)
    ensures Filter(Insert(x, s, leq), keep) ==
            if keep(x) then Insert(x, Filter(s, keep), leq) else Filter(s, keep)
  {
    var kept := Filter(s, keep);
    if s == [] || leq(x, s[0]) {
      FilterCons(x, s, keep);
      assert kept != [] ==> kept[0] in s;
      InsertFirst(x, kept, leq);
    } else {
      var rest := Insert(x, s[1..], leq);
      InsertFilter(x, s[1..], leq, keep);
      FilterCons(s[0], rest, keep);
      if keep(s[0]) {
        InsertCons(x, s[0], Filter(s[1..], keep), leq);
      }
    }
  }

  /** Sorting commutes with dropping elements. */
  lemma {:induction false} SortFilter<T(!new)>(s: seq<T>, leq: (T, T) -> bool, keep: T -> bool)
    requires TotalPreorder(leq)
    ensures Sort(Filter(s, keep), leq) == Filter(Sort(s, leq), keep)
  {
    if s == [] {
    } else {
      SortFilter(s[1..], leq, keep);
      SortSorts(s[1..], leq);
      InsertFilter(s[0], Sort(s[1..], leq), leq, keep);
      if keep(s[0]) {
        SortCons(s[0], Filter(s[1..], keep), leq);
      }
    }
  }

  lemma {:induction false} SortCons<T>(x: T, s: seq<T>, leq: (T, T) -> bool)
    ensures Sort([x] + s, leq) == Insert(x, Sort(s, leq), leq)
  {
  }

  lemma {:induction false} SortNoop<T>(s: seq<T>, leq: (T, T) -> bool)
    requires forall a, b :: a in s && b in s ==> leq(a, b)
    ensures Sort(s, leq) == s
  {
    if s == [] {
    } else {
      SortNoop(s[1..], leq);
    }
  }

  /** The elements of `s` that compare equal to `x`, in their order in `s`. */
  function Class<T>(s: seq<T>, x: T, leq: (T, T) -> bool): seq<T> {
    Filter(s, y => Same(leq, x, y))
  }

  /** The sort is stable: elements that compare equal keep their order. */
  lemma {:induction false} SortStable<T(!new)>(s: seq<T>, leq: (T, T) -> bool, x: T)
    requires TotalPreorder(leq)
    ensures Class(Sort(s, leq), x, leq) == Class(s, x, leq)
  {
    SortFilter(s, leq, y => Same(leq, x, y));
    SortNoop(Class(s, x, leq), leq);
  }

  /** `a` stands before `b` in `s`. */
  ghost predicate Earlier<T>(s: seq<T>, a: T, b: T) {
    exists m, n :: 0 <= m < n < |s| && s[m] == a && s[n] == b
  }

  lemma {:induction false} EarlierCons<T>(x: T, s: seq<T>, a: T, b: T)
    requires Earlier(s, a, b) || (a == x && b in s)
    ensures Earlier([x] + s, a, b)
  {
    var t := [x] + s;
    if Earlier(s, a, b) {
      var m, n :| 0 <= m < n < |s| && s[m] == a && s[n] == b;
      assert t[m + 1] == a && t[n + 1] == b;
    } else {
      var n :| 0 <= n < |s| && s[n] == b;
      assert t[0] == a && t[n + 1] == b;
    }
  }

  /** Two elements of an insertion: the new one passes only elements that it exceeds. */
  lemma {:induction false} InsertKeeps<T>(x: T, s: seq<T>, leq: (T, T) -> bool, i: nat, j: nat)
    requires i < j <= |s|
    ensures
      var r := Insert(x, s, leq);
      || (r[i] == x && r[j] in s)
      || (r[j] == x && !leq(x, r[i]))
      || Earlier(s, r[i], r[j])
  {
    var r := Insert(x, s, leq);
    if s == [] || leq(x, s[0]) {
      assert r == [x] + s;
      assert i > 0 ==> r[i] == s[i - 1];
      assert r[j] == s[j - 1];
    } else {
      var rest := Insert(x, s[1..], leq);
      assert r == [s[0]] + rest && r[j] == rest[j - 1] && s == [s[0]] + s[1..];
      if i == 0 {
        InsertHolds(x, s[1..], leq, j - 1);
        if rest[j - 1] in s[1..] {
          EarlierCons(s[0], s[1..], s[0], r[j]);
        }
      } else {
        InsertKeeps(x, s[1..], leq, i - 1, j - 1);
        assert r[i] == rest[i - 1];
        if Earlier(s[1..], r[i], r[j]) {
          EarlierCons(s[0], s[1..], r[i], r[j]);
        }
      }
    }
  }

  lemma {:induction false} InsertHolds<T>(x: T, s: seq<T>, leq: (T, T) -> bool, j: nat)
    requires j <= |s|
    ensures Insert(x, s, leq)[j] == x || Insert(x, s, leq)[j] in s
  {
    if s == [] || leq(x, s[0]) {
    } else if j > 0 {
      InsertHolds(x, s[1..], leq, j - 1);
    }
  }

  /** Elements that compare equal stand in the order in which they stood. */
  lemma {:induction false} SortKeeps<T(!new)>(s: seq<T>, leq: (T, T) -> bool, i: nat, j: nat)
    requires i < j < |s| && leq(Sort(s, leq)[j], Sort(s, leq)[i])
    ensures Earlier(s, Sort(s, leq)[i], Sort(s, leq)[j])
  {
    var rest := Sort(s[1..], leq);
    var r := Sort(s, leq);
    assert s == [s[0]] + s[1..];
    InsertKeeps(s[0], rest, leq, i, j);
    SortMember(s[1..], leq);
    if Earlier(rest, r[i], r[j]) {
      var m, n :| 0 <= m < n < |rest| && rest[m] == r[i] && rest[n] == r[j];
      SortKeeps(s[1..], leq, m, n);
    }
    EarlierCons(s[0], s[1..], r[i], r[j]);
  }

  lemma {:induction false} SortedStableUnique<T(!new)>(t: seq<T>, u: seq<T>, leq: (T, T) -> bool)
    requires TotalPreorder(leq) && Sorted(t, leq) && Sorted(u, leq)
    requires forall x :: Class(t, x, leq) == Class(u, x, leq)
    ensures t == u
  {
    if t == [] {
    } else {
      assert t[0] in Class(t, t[0], leq);
      assert t[0] in u;
      assert u[0] in Class(u, u[0], leq);
      assert u[0] in t;
      assert Class(t, t[0], leq)[0] == t[0];
      assert Class(u, t[0], leq)[0] == u[0];
      forall x ensures Class(t[1..], x, leq) == Class(u[1..], x, leq) {
        assert Class(t, x, leq) == Class(u, x, leq);
        FilterCons(t[0], t[1..], y => Same(leq, x, y));
        FilterCons(u[0], u[1..], y => Same(leq, x, y));
        assert [t[0]] + t[1..] == t && [u[0]] + u[1..] == u;
        var k := if Same(leq, x, t[0]) then 1 else 0;
        assert Class(t[1..], x, leq) == Class(t, x, leq)[k..];
        assert Class(u[1..], x, leq) == Class(u, x, leq)[k..];
      }
      SortedStableUnique(t[1..], u[1..], leq);
    }
  }

  /** Any stable sorting of `s`, however it is computed, is `Sort(s)`. */
  lemma {:induction false} AnyStableSort<T(!new)>(s: seq<T>, t: seq<T>, leq: (T, T) -> bool)
    requires TotalPreorder(leq) && Sorted(t, leq)
    requires forall x :: Class(t, x, leq) == Class(s, x, leq)
    ensures t == Sort(s, leq)
  {
    SortSorts(s, leq);
    forall x ensures Class(t, x, leq) == Class(Sort(s, leq), x, leq) {
      SortStable(s, leq, x);
    }
    SortedStableUnique(t, Sort(s, leq), leq);
  }
}

/** Sequence vocabulary shared by the other modules: JavaScript's `filter` and `map`,
    prefixes and repetition-free sequences. */
module Sequences {

  datatype Option<+T> = None | Some(value: T)

  function Filter<T>(s: seq<T>, keep: T -> bool): (r: seq<T>)
    ensures |r| <= |s|
    ensures forall x :: x in r ==> x in s && keep(x)
    ensures forall x :: x in s && keep(x) ==> x in r
  {
    if s == [] then []
    else if keep(s[0]) then [s[0]] + Filter(s[1..], keep)
    else Filter(s[1..], keep)
  }

  lemma {:induction false} FilterCons<T>(x: T, s: seq<T>, keep: T -> bool)
    ensures Filter([x] + s, keep) == if keep(x) then [x] + Filter(s, keep) else Filter(s, keep)
  {
  }

  lemma {:induction false} ConsAppend<T>(x: T, a: seq<T>, b: seq<T>)
    ensures ([x] + a) + b == [x] + (a + b)
  {
  }

  lemma {:induction false} FilterAppend<T>(a: seq<T>, b: seq<T>, keep: T -> bool)
    ensures Filter(a + b, keep) == Filter(a, keep) + Filter(b, keep)
  {
    if a == [] {
      assert a + b == b;
    } else {
      var x, rest := a[0], a[1..];
      assert a == [x] + rest;
      FilterAppend(rest, b, keep);
      ConsAppend(x, rest, b);
      FilterCons(x, rest, keep);
      FilterCons(x, rest + b, keep);
      hide Filter;
      ConsAppend(x, Filter(rest, keep), Filter(b, keep));
    }
  }

  lemma {:induction false} FilterAround<T>(a: seq<T>, x: T, b: seq<T>, keep: T -> bool)
    ensures Filter(a + [x] + b, keep) == Filter(a, keep) + (if keep(x) then [x] else []) + Filter(b, keep)
  {
    FilterAppend(a + [x], b, keep);
    FilterAppend(a, [x], keep);
    FilterCons(x, [], keep);
    assert [x] + [] == [x];
  }

  lemma {:induction false} FilterNone<T>(s: seq<T>, keep: T -> bool)
    requires forall x :: x in s ==> !keep(x)
    ensures Filter(s, keep) == []
  {
    if s == [] {
    } else {
      FilterNone(s[1..], keep);
    }
  }

  /** Predicates that agree on the elements of `s` select the same subsequence. */
  lemma {:induction false} FilterSame<T>(s: seq<T>, p: T -> bool, q: T -> bool)
    requires forall x :: x in s ==> p(x) == q(x)
    ensures Filter(s, p) == Filter(s, q)
  {
    if s == [] {
    } else {
      FilterSame(s[1..], p, q);
    }
  }

  lemma {:induction false} FilterTwice<T>(s: seq<T>, p: T -> bool, q: T -> bool, both: T -> bool)
    requires forall x :: x in s ==> both(x) == (p(x) && q(x))
    ensures Filter(Filter(s, p), q) == Filter(s, both)
  {
    if s == [] {
    } else {
      FilterTwice(s[1..], p, q, both);
      FilterCons(s[0], Filter(s[1..], p), q);
    }
  }

  lemma {:induction false} FilterAll<T>(s: seq<T>, p: T -> bool)
    requires forall x :: x in s ==> p(x)
    ensures Filter(s, p) == s
  {
    if s == [] {
    } else {
      FilterAll(s[1..], p);
    }
  }

  lemma {:induction false} FilterMultiset<T>(s: seq<T>, p: T -> bool, x: T)
    ensures multiset(Filter(s, p))[x] == if p(x) then multiset(s)[x] else 0
  {
    if s == [] {
    } else {
      FilterMultiset(s[1..], p, x);
      assert s == [s[0]] + s[1..];
    }
  }

  /** `at` lists, in order, exactly the positions of `s` that hold a kept element. */
  ghost predicate Positions<T>(s: seq<T>, keep: T -> bool, at: seq<nat>) {
    && (forall i, j :: 0 <= i < j < |at| ==> at[i] < at[j])
    && (forall n: nat :: n in at <==> n < |s| && keep(s[n]))
  }

  ghost predicate Picks<T>(s: seq<T>, at: seq<nat>, r: seq<T>) {
    |at| == |r| && forall i :: 0 <= i < |at| ==> at[i] < |s| && r[i] == s[at[i]]
  }

  lemma {:induction false} PicksMore<T>(s: seq<T>, at: seq<nat>, r: seq<T>)
    requires s != [] && Picks(s[..|s| - 1], at, r)
    ensures Picks(s, at, r) && Picks(s, at + [|s| - 1], r + [s[|s| - 1]])
  {
  }

  lemma {:induction false} PositionsMore<T>(s: seq<T>, keep: T -> bool, at: seq<nat>)
    requires s != [] && Positions(s[..|s| - 1], keep, at)
    ensures Positions(s, keep, if keep(s[|s| - 1]) then at + [|s| - 1] else at)
  {
    var last: nat := |s| - 1;
    var all := if keep(s[last]) then at + [last] else at;
    forall i | 0 <= i < |at| ensures at[i] < last {
      assert at[i] in at;
    }
    forall n: nat ensures n in all <==> n < |s| && keep(s[n]) {
      assert n in at <==> n < last && keep(s[..last][n]);
    }
  }

  lemma {:induction false} FilterLast<T>(s: seq<T>, keep: T -> bool)
    requires s != []
    ensures Filter(s, keep) == Filter(s[..|s| - 1], keep) + if keep(s[|s| - 1]) then [s[|s| - 1]] else []
  {
    var last := |s| - 1;
    SplitLast(s);
    FilterAppend(s[..last], [s[last]], keep);
    FilterCons(s[last], [], keep);
  }

  lemma {:induction false} FilterPicksMore<T>(s: seq<T>, keep: T -> bool, at: seq<nat>)
    requires s != [] && Picks(s[..|s| - 1], at, Filter(s[..|s| - 1], keep))
    ensures Picks(s, if keep(s[|s| - 1]) then at + [|s| - 1] else at, Filter(s, keep))
  {
    var kept := Filter(s[..|s| - 1], keep);
    FilterLast(s, keep);
    PicksMore(s, at, kept);
    hide Filter, Picks;
    assert kept + [] == kept;
  }

  /** `filter` leaves the kept elements in their order and nothing else. */
  lemma {:induction false} FilterPositions<T>(s: seq<T>, keep: T -> bool) returns (at: seq<nat>)
    ensures Positions(s, keep, at)
    ensures Picks(s, at, Filter(s, keep))
  {
    hide Positions, Picks;
    if s == [] {
      at := [];
      NoPositions(s, keep);
    } else {
      var front := FilterPositions(s[..|s| - 1], keep);
      PositionsMore(s, keep, front);
      FilterPicksMore(s, keep, front);
      at := if keep(s[|s| - 1]) then front + [|s| - 1] else front;
    }
  }

  lemma {:induction false} NoPositions<T>(s: seq<T>, keep: T -> bool)
    requires s == []
    ensures Positions(s, keep, []) && Picks(s, [], Filter(s, keep))
  {
  }

  function Map<S, T>(s: seq<S>, f: S -> T): (r: seq<T>)
    ensures |r| == |s|
    ensures forall i :: 0 <= i < |s| ==> r[i] == f(s[i])
  {
    seq(|s|, i requires 0 <= i < |s| => f(s[i]))
  }

  lemma {:induction false} SplitLast<T>(s: seq<T>)
    requires s != []
    ensures s == s[..|s| - 1] + [s[|s| - 1]]
  {
  }

  ghost predicate Distinct<T>(s: seq<T>) {
    forall i, j :: 0 <= i < j < |s| ==> s[i] != s[j]
  }

  lemma {:induction false} DistinctCount<T>(s: seq<T>, x: T)
    requires Distinct(s)
    ensures multiset(s)[x] == if x in s then 1 else 0
  {
    if s == [] {
    } else {
      assert s == [s[0]] + s[1..];
      DistinctCount(s[1..], x);
    }
  }

  lemma {:induction false} CountDistinct<T>(s: seq<T>)
    requires forall x :: x in s ==> multiset(s)[x] <= 1
    ensures Distinct(s)
  {
    forall i, j | 0 <= i < j < |s| ensures s[i] != s[j] {
      assert s == s[..j] + s[j..] && s[i] in s[..j] && s[j] in s[j..];
      assert multiset(s)[s[i]] == multiset(s[..j])[s[i]] + multiset(s[j..])[s[i]];
    }
  }

  /** `[...new Set(s)]`. */
  function Dedupe<T(==)>(s: seq<T>): (r: seq<T>)
    ensures forall x :: x in s ==> x in r
    ensures forall x :: x in r ==> x in s
  {
    if s == [] then []
    else
      var front := Dedupe(s[..|s| - 1]);
      if s[|s| - 1] in front then front else front + [s[|s| - 1]]
  }

  lemma {:induction false} DedupeDistinct<T>(s: seq<T>)
    ensures Distinct(Dedupe(s))
  {
    if s == [] {
    } else {
      DedupeDistinct(s[..|s| - 1]);
    }
  }

  /** Some `x` comes before every `y`. */
  ghost predicate FirstBefore<T>(s: seq<T>, x: T, y: T) {
    exists n :: 0 <= n < |s| && s[n] == x && forall m :: 0 <= m <= n ==> s[m] != y
  }

  lemma {:induction false} FirstBeforeMore<T>(s: seq<T>, x: T, y: T)
    requires s != [] && FirstBefore(s[..|s| - 1], x, y)
    ensures FirstBefore(s, x, y)
  {
    var front := s[..|s| - 1];
    var n :| 0 <= n < |front| && front[n] == x && forall m :: 0 <= m <= n ==> front[m] != y;
    forall m | 0 <= m <= n ensures s[m] != y {
      assert front[m] == s[m];
    }
  }

  lemma {:induction false} FirstBeforeNew<T>(s: seq<T>, x: T)
    requires s != [] && x in s[..|s| - 1] && s[|s| - 1] !in s[..|s| - 1]
    ensures FirstBefore(s, x, s[|s| - 1])
  {
    var front := s[..|s| - 1];
    var n :| 0 <= n < |front| && front[n] == x;
    forall m | 0 <= m <= n ensures s[m] != s[|s| - 1] {
      assert front[m] == s[m] && front[m] in front;
    }
  }

  /** What is left stands in the order of first occurrence. */
  lemma {:induction false} DedupeInOrder<T>(s: seq<T>, i: nat, j: nat)
    requires i < j < |Dedupe(s)|
    ensures FirstBefore(s, Dedupe(s)[i], Dedupe(s)[j])
  {
    hide FirstBefore;
    var front := s[..|s| - 1];
    if j < |Dedupe(front)| {
      DedupeInOrder(front, i, j);
      FirstBeforeMore(s, Dedupe(s)[i], Dedupe(s)[j]);
    } else {
      assert Dedupe(front)[i] in front;
      FirstBeforeNew(s, Dedupe(s)[i]);
    }
  }

  lemma {:induction false} FilterFull<T>(s: seq<T>, keep: T -> bool)
    requires |Filter(s, keep)| == |s|
    ensures Filter(s, keep) == s
  {
    if s == [] {
    } else {
      FilterFull(s[1..], keep);
    }
  }

  /** JavaScript's `indexOf` on a list that holds the element. */
  function PositionOf<T(==)>(s: seq<T>, x: T): (i: nat)
    requires x in s
    ensures i < |s| && s[i] == x
  {
    if s[0] == x then 0 else 1 + PositionOf(s[1..], x)
  }
}

/** Lists whose elements are found, taken out and put in by a string key, as the JavaScript code does with
    `findIndex`, `filter` and `splice`. */
module KeyedLists {
  import opened Sequences

  ghost predicate DistinctKeys<T>(s: seq<T>, key: T -> string) {
    forall i, j :: 0 <= i < j < |s| ==> key(s[i]) != key(s[j])
  }

  /** JavaScript's `findIndex` by key. */
  function IndexOf<T>(s: seq<T>, key: T -> string, id: string): (i: int)
    ensures -1 <= i < |s|
    ensures i >= 0 ==> key(s[i]) == id
    ensures forall k :: 0 <= k < (if i >= 0 then i else |s|) ==> key(s[k]) != id
  {
    if s == [] then -1
    else if key(s[0]) == id then 0
    else var i := IndexOf(s[1..], key, id); if i < 0 then -1 else i + 1
  }

  function Without<T>(s: seq<T>, key: T -> string, id: string): seq<T> {
    Filter(s, (x: T) => key(x) != id)
  }

  /** Puts `x` before the element with the given key; without such an element, or key, at the end. */
  function InsertBefore<T>(s: seq<T>, key: T -> string, x: T, before: Option<string>): seq<T> {
    if s == [] then [x]
    else if before.Some? && before.value != "" && key(s[0]) == before.value then [x] + s
    else [s[0]] + InsertBefore(s[1..], key, x, before)
  }

  /** The position at which the source splices the element in. */
  function Landing<T>(s: seq<T>, key: T -> string, before: Option<string>): (at: nat)
    ensures at <= |s|
  {
    if before.None? || before.value == "" || IndexOf(s, key, before.value) < 0 then |s|
    else IndexOf(s, key, before.value)
  }

  lemma {:induction false} SpliceOut<T>(s: seq<T>, key: T -> string, id: string)
    requires DistinctKeys(s, key)
    ensures
      var i := IndexOf(s, key, id);
      Without(s, key, id) == if i < 0 then s else s[..i] + s[i + 1..]
  {
    hide Filter, IndexOf;
    var i := IndexOf(s, key, id);
    var keep := (x: T) => key(x) != id;
    if i < 0 {
      FilterAll(s, keep);
    } else {
      FilterAll(s[..i], keep);
      FilterAll(s[i + 1..], keep);
      FilterAround(s[..i], s[i], s[i + 1..], keep);
      assert s == s[..i] + [s[i]] + s[i + 1..];
      assert s[..i] + [] == s[..i];
    }
  }

  lemma {:induction false} SpliceStep<T>(s: seq<T>, x: T, at: nat)
    requires at < |s|
    ensures [s[0]] + (s[1..][..at] + [x] + s[1..][at..]) == s[..at + 1] + [x] + s[at + 1..]
  {
  }

  lemma {:induction false} PassesHead<T>(s: seq<T>, key: T -> string, x: T, before: Option<string>)
    requires s != [] && !(before.Some? && before.value != "" && key(s[0]) == before.value)
    ensures InsertBefore(s, key, x, before) == [s[0]] + InsertBefore(s[1..], key, x, before)
    ensures Landing(s, key, before) == Landing(s[1..], key, before) + 1
  {
  }

  lemma {:induction false} StopsAtHead<T>(s: seq<T>, key: T -> string, x: T, before: Option<string>)
    requires s == [] || (before.Some? && before.value != "" && key(s[0]) == before.value)
    ensures InsertBefore(s, key, x, before) == [x] + s && Landing(s, key, before) == 0
  {
  }

  lemma {:induction false} SpliceIn<T>(s: seq<T>, key: T -> string, x: T, before: Option<string>)
    ensures
      var at := Landing(s, key, before);
      InsertBefore(s, key, x, before) == s[..at] + [x] + s[at..]
  {
    hide InsertBefore, Landing, IndexOf;
    if s == [] || (before.Some? && before.value != "" && key(s[0]) == before.value) {
      StopsAtHead(s, key, x, before);
    } else {
      PassesHead(s, key, x, before);
      SpliceIn(s[1..], key, x, before);
      SpliceStep(s, x, Landing(s[1..], key, before));
    }
  }

  /** Moving keeps every other element in its relative order. */
  lemma {:induction false} OthersKeepOrder<T>(s: seq<T>, key: T -> string, x: T, before: Option<string>)
    ensures Without(InsertBefore(s, key, x, before), key, key(x)) == Without(s, key, key(x))
  {
    hide Filter, InsertBefore;
    var at := Landing(s, key, before);
    var keep := (y: T) => key(y) != key(x);
    SpliceIn(s, key, x, before);
    FilterAround(s[..at], x, s[at..], keep);
    FilterAppend(s[..at], s[at..], keep);
    assert s == s[..at] + s[at..];
    assert Filter(s[..at], keep) + [] == Filter(s[..at], keep);
  }

  /** The moved element stands immediately before the named one, or last when no other element has
      that name. */
  lemma {:induction false} LandsBefore<T>(s: seq<T>, key: T -> string, x: T, before: Option<string>, k: nat)
    requires DistinctKeys(s, key) && key(x) !in Map(s, key)
    ensures |InsertBefore(s, key, x, before)| == |s| + 1
    ensures k <= |s| && InsertBefore(s, key, x, before)[k] == x <==>
            k == (if before.Some? && before.value != "" && IndexOf(s, key, before.value) >= 0
                  then IndexOf(s, key, before.value) else |s|)
  {
    SpliceIn(s, key, x, before);
    var at := Landing(s, key, before);
    var r := InsertBefore(s, key, x, before);
    if k <= |s| && k != at {
      var i := if k < at then k else k - 1;
      assert r[k] == s[i];
      assert Map(s, key)[i] == key(s[i]);
    }
  }

  lemma {:induction false} SameKeysIndex<T>(s: seq<T>, t: seq<T>, key: T -> string, id: string)
    requires |s| == |t| && forall i :: 0 <= i < |s| ==> key(s[i]) == key(t[i])
    ensures IndexOf(s, key, id) == IndexOf(t, key, id)
  {
  }

  lemma {:induction false} KeyPosition<T>(s: seq<T>, key: T -> string, i: nat, j: nat)
    requires DistinctKeys(s, key) && i < |s| && j < |s|
    ensures key(s[i]) == key(s[j]) <==> i == j
  {
  }

  lemma {:induction false} InsertMember<T>(s: seq<T>, key: T -> string, x: T, before: Option<string>, y: T)
    ensures y in InsertBefore(s, key, x, before) <==> y == x || y in s
  {
    hide InsertBefore;
    var at := Landing(s, key, before);
    SpliceIn(s, key, x, before);
    assert s == s[..at] + s[at..];
  }

  lemma {:induction false} InsertDistinct<T>(s: seq<T>, key: T -> string, x: T, before: Option<string>)
    requires DistinctKeys(s, key) && forall y :: y in s ==> key(y) != key(x)
    ensures DistinctKeys(InsertBefore(s, key, x, before), key)
  {
    hide InsertBefore, Landing;
    var at := Landing(s, key, before);
    SpliceIn(s, key, x, before);
    var r := s[..at] + [x] + s[at..];
    forall i, j | 0 <= i < j < |r| ensures key(r[i]) != key(r[j]) {
      assert i != at ==> r[i] == s[if i < at then i else i - 1];
      assert j != at ==> r[j] == s[if j < at then j else j - 1];
    }
  }

  lemma {:induction false} FilterDistinct<T>(s: seq<T>, key: T -> string, keep: T -> bool)
    requires DistinctKeys(s, key)
    ensures DistinctKeys(Filter(s, keep), key)
  {
    if s == [] {
    } else {
      FilterDistinct(s[1..], key, keep);
      assert forall y :: y in s[1..] ==> key(y) != key(s[0]);
    }
  }

  lemma {:induction false} InsertLast<T>(s: seq<T>, key: T -> string, x: T)
    ensures InsertBefore(s, key, x, None) == s + [x]
  {
    hide InsertBefore;
    SpliceIn(s, key, x, None);
    assert s[..|s|] + [x] + s[|s|..] == s + [x];
  }

  lemma {:induction false} WithoutDistinct<T>(s: seq<T>, key: T -> string, id: string)
    requires DistinctKeys(s, key)
    ensures DistinctKeys(Without(s, key, id), key)
  {
    FilterDistinct(s, key, (x: T) => key(x) != id);
  }

  lemma {:induction false} WithoutAbsent<T>(s: seq<T>, key: T -> string, id: string)
    requires forall x :: x in s ==> key(x) != id
    ensures Without(s, key, id) == s
  {
    FilterAll(s, (x: T) => key(x) != id);
  }

  lemma {:induction false} WithoutFilter<T>(s: seq<T>, key: T -> string, id: string, p: T -> bool, both: T -> bool)
    requires forall x :: x in s ==> both(x) == (p(x) && key(x) != id)
    ensures Without(Filter(s, p), key, id) == Filter(s, both)
  {
    FilterTwice(s, p, (x: T) => key(x) != id, both);
  }

  lemma {:induction false} WithoutFull<T>(s: seq<T>, key: T -> string, id: string)
    requires |Without(s, key, id)| == |s|
    ensures Without(s, key, id) == s
  {
    FilterFull(s, (x: T) => key(x) != id);
  }
}

/** Grouping a list by key, as a JavaScript `Map` from keys to arrays does: groups in order of first
    occurrence, members in list order. */
module Grouping {
  import opened Sequences

  /** The keys in order of first occurrence. */
  function Keys<T>(s: seq<T>, key: T -> string): seq<string> {
    if s == [] then []
    else
      var last := |s| - 1;
      var keys := Keys(s[..last], key);
      if key(s[last]) in keys then keys else keys + [key(s[last])]
  }

  function Members<T>(s: seq<T>, key: T -> string, k: string): seq<T> {
    Filter(s, (x: T) => key(x) == k)
  }

  /** All groups in a row. */
  function Regrouped<T>(keys: seq<string>, s: seq<T>, key: T -> string): seq<T> {
    if keys == [] then [] else Regrouped(keys[..|keys| - 1], s, key) + Members(s, key, keys[|keys| - 1])
  }

  lemma {:induction false} KeysSpec<T(!new)>(s: seq<T>, key: T -> string)
    ensures forall k :: k in Keys(s, key) <==> exists x :: x in s && key(x) == k
    ensures Distinct(Keys(s, key))
  {
    if s == [] {
    } else {
      var last := |s| - 1;
      KeysSpec(s[..last], key);
      SplitLast(s);
      forall k ensures k in Keys(s, key) <==> exists x :: x in s && key(x) == k {
        if x :| x in s && key(x) == k && x != s[last] {
          assert x in s[..last];
        }
        assert s[last] in s;
      }
    }
  }

  lemma {:induction false} KeysAreDeduped<T>(s: seq<T>, key: T -> string)
    ensures Keys(s, key) == Dedupe(Map(s, key))
  {
    if s == [] {
    } else {
      var last := |s| - 1;
      KeysAreDeduped(s[..last], key);
      assert Map(s, key)[..last] == Map(s[..last], key);
    }
  }

  /** Of two keys the one that occurs first comes first. */
  lemma {:induction false} KeysInOrder<T>(s: seq<T>, key: T -> string, i: nat, j: nat)
    requires i < j < |Keys(s, key)|
    ensures FirstBefore(Map(s, key), Keys(s, key)[i], Keys(s, key)[j])
  {
    KeysAreDeduped(s, key);
    DedupeInOrder(Map(s, key), i, j);
  }

  lemma {:induction false} KeysGrow<T>(s: seq<T>, key: T -> string, x: T)
    ensures Keys(s + [x], key) == if key(x) in Keys(s, key) then Keys(s, key) else Keys(s, key) + [key(x)]
  {
  }

  lemma {:induction false} MembersGrow<T>(s: seq<T>, key: T -> string, x: T, k: string)
    ensures Members(s + [x], key, k) == if key(x) == k then Members(s, key, k) + [x] else Members(s, key, k)
  {
    FilterAppend(s, [x], (y: T) => key(y) == k);
    FilterCons(x, [], (y: T) => key(y) == k);
    assert [x] + [] == [x];
    assert Members(s, key, k) + [] == Members(s, key, k);
  }

  lemma {:induction false} NoMembers<T(!new)>(s: seq<T>, key: T -> string, k: string)
    requires k !in Keys(s, key)
    ensures Members(s, key, k) == []
  {
    KeysSpec(s, key);
    FilterNone(s, (x: T) => key(x) == k);
  }

  lemma {:induction false} RegroupedCount<T>(keys: seq<string>, s: seq<T>, key: T -> string, x: T)
    requires Distinct(keys)
    ensures multiset(Regrouped(keys, s, key))[x] == if key(x) in keys then multiset(s)[x] else 0
  {
    if keys == [] {
    } else {
      var last := |keys| - 1;
      RegroupedCount(keys[..last], s, key, x);
      FilterMultiset(s, (y: T) => key(y) == keys[last], x);
      SplitLast(keys);
    }
  }

  /** Grouping neither loses nor duplicates a member. */
  lemma {:induction false} GroupingConserves<T(!new)>(s: seq<T>, key: T -> string)
    ensures multiset(Regrouped(Keys(s, key), s, key)) == multiset(s)
  {
    KeysSpec(s, key);
    forall x ensures multiset(Regrouped(Keys(s, key), s, key))[x] == multiset(s)[x] {
      RegroupedCount(Keys(s, key), s, key, x);
      if key(x) !in Keys(s, key) {
        assert x !in s;
      }
    }
  }
}

/** Reading a collection kept in insertion order: `find(filter).sort({ t: -1 })`
    and `findOne(filter).sort({ t: -1 })` list matches newest first, where `t` is
    a creation time that strictly increases along the collection; and the order
    and uniqueness facts the stores keep about their collections. */
module Queries {
  import opened Wrappers

  /** The records of `s` that `keep` selects, newest first. */
  function NewestFirst<T(==,!new)>(s: seq<T>, keep: T -> bool): (r: seq<T>)
    ensures forall x :: x in r <==> x in s && keep(x)
    ensures |r| <= |s|
  {
    if s == [] then []
    else
      var rest := NewestFirst(s[1..], keep);
      if keep(s[0]) then rest + [s[0]] else rest
  }

  /** A filter that keeps everything loses nothing. */
  lemma {:induction false} NewestFirstKeepsAll<T(!new)>(s: seq<T>, keep: T -> bool)
    requires forall x :: x in s ==> keep(x)
    ensures |NewestFirst(s, keep)| == |s|
  {
    if s != [] {
      NewestFirstKeepsAll(s[1..], keep);
    }
  }

  /** `findOne(filter).sort({ t: -1 })`: the first record of the newest-first list. */
  function Newest<T(==,!new)>(s: seq<T>, keep: T -> bool): (r: Option<T>)
    ensures r.None? <==> forall x :: x in s ==> !keep(x)
    ensures r.Some? ==> r.value in s && keep(r.value)
  {
    var all := NewestFirst(s, keep);
    if all == [] then None else assert all[0] in all; Some(all[0])
  }

  predicate Ascending<T>(s: seq<T>, time: T -> int) {
    forall i, j :: 0 <= i < j < |s| ==> time(s[i]) < time(s[j])
  }

  predicate Descending<T>(s: seq<T>, time: T -> int) {
    forall i, j :: 0 <= i < j < |s| ==> time(s[i]) > time(s[j])
  }

  /** A collection in creation order is listed newest first. */
  lemma {:induction false} NewestFirstDescends<T(!new)>(s: seq<T>, keep: T -> bool, time: T -> int)
    requires Ascending(s, time)
    ensures Descending(NewestFirst(s, keep), time)
  {
    if s != [] {
      var rest := NewestFirst(s[1..], keep);
      NewestFirstDescends(s[1..], keep, time);
      if keep(s[0]) {
        forall x | x in rest ensures time(x) > time(s[0]) {
          var j :| 1 <= j < |s| && s[j] == x;
        }
        var r := rest + [s[0]];
        forall i, j | 0 <= i < j < |r| ensures time(r[i]) > time(r[j]) {
          if j == |r| - 1 {
            assert r[i] in rest;
          }
        }
      }
    }
  }

  /** The record `Newest` picks has the latest time among those `keep` selects. */
  lemma {:induction false} NewestIsLatest<T(!new)>(s: seq<T>, keep: T -> bool, time: T -> int, x: T)
    requires Ascending(s, time)
    requires x in s && keep(x)
    ensures Newest(s, keep).Some?
    ensures time(x) <= time(Newest(s, keep).value)
  {
    var all := NewestFirst(s, keep);
    NewestFirstDescends(s, keep, time);
    var k :| 0 <= k < |all| && all[k] == x;
    if k > 0 {
      assert time(all[0]) > time(all[k]);
    }
  }

  /** In a strictly ascending collection, equal times mean the same position. */
  lemma AscendingTimesDistinct<T>(s: seq<T>, time: T -> int, i: nat, j: nat)
    requires Ascending(s, time) && i < |s| && j < |s| && time(s[i]) == time(s[j])
    ensures i == j
  {
  }

  /** No two records of `s` share a key: a unique index. */
  predicate UniqueKeys<T, K(==)>(s: seq<T>, key: T -> K) {
    forall i, j :: 0 <= i < j < |s| ==> key(s[i]) != key(s[j])
  }

  /** Under a unique index, a key names one position. */
  lemma UniqueKeyAt<T, K>(s: seq<T>, key: T -> K, i: nat, j: nat)
    requires UniqueKeys(s, key) && i < |s| && j < |s| && key(s[i]) == key(s[j])
    ensures i == j
  {
  }

  /** Appending a record later than all others keeps a collection in time order. */
  lemma AscendingAppend<T>(s: seq<T>, x: T, time: T -> int)
    requires Ascending(s, time)
    requires forall i :: 0 <= i < |s| ==> time(s[i]) < time(x)
    ensures Ascending(s + [x], time)
  {
  }

  /** Replacing a record by one with the same time keeps the order. */
  lemma AscendingReplace<T>(s: seq<T>, k: nat, x: T, time: T -> int)
    requires Ascending(s, time) && k < |s| && time(x) == time(s[k])
    ensures Ascending(s[k := x], time)
  {
  }

  /** Appending a record with a new key keeps the index unique. */
  lemma UniqueAppend<T, K>(s: seq<T>, x: T, key: T -> K)
    requires UniqueKeys(s, key)
    requires forall i :: 0 <= i < |s| ==> key(s[i]) != key(x)
    ensures UniqueKeys(s + [x], key)
  {
  }

  /** Replacing a record by one with the same key keeps the index unique. */
  lemma UniqueReplace<T, K>(s: seq<T>, k: nat, x: T, key: T -> K)
    requires UniqueKeys(s, key) && k < |s| && key(x) == key(s[k])
    ensures UniqueKeys(s[k := x], key)
  {
  }
}

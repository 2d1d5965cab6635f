/**
 * Grouping a list by a string key into a `Map` whose keys keep the order in
 * which they first appear, as the backend does for scans by operator and for
 * punches by staff id.
 */
module Grouping {
  import opened Sorting

  /** The elements with key `k`, in order. */
  function Of<T>(s: seq<T>, key: T -> string, k: string): seq<T>
  {
    if s == [] then []
    else Of(s[..|s| - 1], key, k) + (if key(s[|s| - 1]) == k then [s[|s| - 1]] else [])
  }

  /** The keys in order of first appearance: the key order of a `Map` filled from `s`. */
  function Keys<T>(s: seq<T>, key: T -> string): seq<string>
  {
    if s == [] then []
    else
      var seen := Keys(s[..|s| - 1], key);
      if key(s[|s| - 1]) in seen then seen else seen + [key(s[|s| - 1])]
  }

  predicate NoDup<T(==)>(s: seq<T>)
  {
    forall i, j :: 0 <= i < j < |s| ==> s[i] != s[j]
  }

  /** Every key appears once, and exactly the keys of the elements appear. */
  lemma {:induction false} KeysFacts<T>(s: seq<T>, key: T -> string)
    ensures NoDup(Keys(s, key))
    ensures forall k :: k in Keys(s, key) <==> exists x :: x in s && key(x) == k
  {
    if s != [] {
      var init, last := s[..|s| - 1], s[|s| - 1];
      KeysFacts(init, key);
      assert s == init + [last];
      forall k
        ensures k in Keys(s, key) <==> exists x :: x in s && key(x) == k
      {
        if k in Keys(s, key) && k != key(last) {
          assert k in Keys(init, key);
          var x :| x in init && key(x) == k;
          assert x in s;
        }
        if exists x :: x in s && key(x) == k {
          var x :| x in s && key(x) == k;
          if x != last {
            assert x in init;
          }
        }
      }
    }
  }

  /** A key without elements has an empty group. */
  lemma {:induction false} OfAbsent<T>(s: seq<T>, key: T -> string, k: string)
    requires k !in Keys(s, key)
    ensures Of(s, key, k) == []
  {
    if s != [] {
      var seen := Keys(s[..|s| - 1], key);
      assert k !in seen;
      OfAbsent(s[..|s| - 1], key, k);
    }
  }

  lemma {:induction false} OfSnoc<T>(s: seq<T>, key: T -> string, i: nat, k: string)
    requires i < |s|
    ensures Of(s[..i + 1], key, k) == Of(s[..i], key, k) + (if key(s[i]) == k then [s[i]] else [])
    ensures Keys(s[..i + 1], key) == var seen := Keys(s[..i], key); if key(s[i]) in seen then seen else seen + [key(s[i])]
  {
    assert s[..i + 1][..i] == s[..i];
  }

  /**
   * The grouping loop: `groups` maps each key to its elements in list order;
   * `order` is the map's key order.
   */
  method GroupBy<T>(s: seq<T>, key: T -> string) returns (order: seq<string>, groups: map<string, seq<T>>)
    ensures order == Keys(s, key)
    ensures NoDup(order)
    ensures forall k :: k in groups <==> k in order
    ensures forall k :: k in order <==> exists x :: x in s && key(x) == k
    ensures forall k :: k in groups ==> groups[k] == Of(s, key, k)
  {
    order, groups := [], map[];
    for i := 0 to |s|
      invariant order == Keys(s[..i], key)
      invariant forall k :: k in groups <==> k in order
      invariant forall k :: k in groups ==> groups[k] == Of(s[..i], key, k)
    {
      var x := s[i];
      forall k {
        OfSnoc(s, key, i, k);
      }
      if key(x) !in groups {
        order := order + [key(x)];
        groups := groups[key(x) := []];
        KeysFacts(s[..i], key);
        OfAbsent(s[..i], key, key(x));
      }
      groups := groups[key(x) := groups[key(x)] + [x]];
    }
    assert s[..|s|] == s;
    KeysFacts(s, key);
  }

  // ---- sums per key ----

  /** The sums of `f` over the groups of the keys of `order`, added up. */
  function GroupSums<T>(order: seq<string>, s: seq<T>, key: T -> string, f: T -> int): int
  {
    if order == [] then 0
    else GroupSums(order[..|order| - 1], s, key, f) + SumOf(Of(s, key, order[|order| - 1]), f)
  }

  lemma {:induction false} GroupSumsScan<T>(order: seq<string>, s: seq<T>, key: T -> string, f: T -> int, x: T)
    requires NoDup(order)
    ensures GroupSums(order, s + [x], key, f) == GroupSums(order, s, key, f) + (if key(x) in order then f(x) else 0)
  {
    if order != [] {
      var init, k := order[..|order| - 1], order[|order| - 1];
      assert NoDup(init);
      assert order == init + [k];
      GroupSumsScan(init, s, key, f, x);
      assert (s + [x])[..|s|] == s;
      assert Of(s + [x], key, k) == Of(s, key, k) + (if key(x) == k then [x] else []);
      SumOfAppend(Of(s, key, k), (if key(x) == k then [x] else []), f);
      assert SumOf([x], f) == f(x) by { assert [x][1..] == []; }
    }
  }

  lemma {:induction false} GroupSumsSnoc<T>(order: seq<string>, s: seq<T>, key: T -> string, f: T -> int, k: string)
    ensures GroupSums(order + [k], s, key, f) == GroupSums(order, s, key, f) + SumOf(Of(s, key, k), f)
  {
    assert (order + [k])[..|order|] == order;
  }

  /** Summing per key and adding the sums up gives the sum over the whole list. */
  lemma {:induction false} GroupSumsPartition<T>(s: seq<T>, key: T -> string, f: T -> int)
    ensures GroupSums(Keys(s, key), s, key, f) == SumOf(s, f)
  {
    if s != [] {
      var init, x := s[..|s| - 1], s[|s| - 1];
      assert s == init + [x];
      var seen := Keys(init, key);
      GroupSumsPartition(init, key, f);
      KeysFacts(init, key);
      GroupSumsScan(seen, init, key, f, x);
      SumOfAppend(init, [x], f);
      assert SumOf([x], f) == f(x) by { assert [x][1..] == []; }
      if key(x) !in seen {
        GroupSumsSnoc(seen, s, key, f, key(x));
        OfAbsent(init, key, key(x));
        assert Of(s, key, key(x)) == [x];
      }
    }
  }
}

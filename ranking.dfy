/** `items[mode].sort(key=lambda tup: tup[3], reverse=True)`: Python's sort is stable, also with
    `reverse=True`, so the result is ordered by seeders, largest first, and items with equal seeders
    keep their original order. */
module Ranking {
  import opened Rows

  ghost predicate NonIncreasing(s: seq<Item>) {
    forall i, j :: 0 <= i < j < |s| ==> s[i].seeders >= s[j].seeders
  }

  /** The items with v seeders, in their order in s. */
  function WithSeeders(s: seq<Item>, v: int): seq<Item> {
    if s == [] then []
    else (if s[0].seeders == v then [s[0]] else []) + WithSeeders(s[1..], v)
  }

  lemma {:induction false} WithSeedersMembers(s: seq<Item>, v: int, x: Item)
    ensures x in WithSeeders(s, v) <==> x in s && x.seeders == v
  {
    if s != [] {
      WithSeedersMembers(s[1..], v, x);
      assert s == [s[0]] + s[1..];
    }
  }

  /** Places x before the first item that has no more seeders than x. */
  function InsertBySeeders(x: Item, s: seq<Item>): (r: seq<Item>)
    requires NonIncreasing(s)
    ensures NonIncreasing(r) && multiset(r) == multiset(s) + multiset{x}
    ensures r[0] == x || (s != [] && r[0] == s[0])
  {
    if s == [] || x.seeders >= s[0].seeders then
      ConsNonIncreasing(x, s);
      [x] + s
    else
      var tail := InsertBySeeders(x, s[1..]);
      assert s == [s[0]] + s[1..];
      assert tail[0].seeders <= s[0].seeders;
      ConsNonIncreasing(s[0], tail);
      [s[0]] + tail
  }

  lemma ConsNonIncreasing(h: Item, t: seq<Item>)
    requires NonIncreasing(t) && (t == [] || t[0].seeders <= h.seeders)
    ensures NonIncreasing([h] + t)
  {
    var r := [h] + t;
    forall i, j | 0 <= i < j < |r| ensures r[i].seeders >= r[j].seeders {
      if i > 0 {
        assert r[i] == t[i - 1] && r[j] == t[j - 1];
      } else {
        assert r[j] == t[j - 1];
      }
    }
  }

  /** The stable descending sort by seeders. */
  function SortBySeeders(s: seq<Item>): (r: seq<Item>)
    ensures NonIncreasing(r)
    ensures multiset(r) == multiset(s)
  {
    if s == [] then []
    else
      assert s == [s[0]] + s[1..];
      InsertBySeeders(s[0], SortBySeeders(s[1..]))
  }

  /** Inserting x into a sorted sequence puts it ahead of the items with as many seeders. */
  lemma {:induction false} InsertKeepsTies(x: Item, s: seq<Item>, v: int)
    requires NonIncreasing(s)
    ensures WithSeeders(InsertBySeeders(x, s), v) == WithSeeders([x] + s, v)
  {
    assert ([x] + s)[1..] == s;
    if s != [] && x.seeders < s[0].seeders {
      var tail := InsertBySeeders(x, s[1..]);
      InsertKeepsTies(x, s[1..], v);
      assert ([s[0]] + tail)[1..] == tail;
      assert ([x] + s[1..])[1..] == s[1..];
      assert s[1..] == s[1..] && s == [s[0]] + s[1..];
    }
  }

  /** Stability: for every seeder count, the items with that count appear in the same order
      before and after sorting. */
  lemma {:induction false} SortIsStable(s: seq<Item>, v: int)
    ensures WithSeeders(SortBySeeders(s), v) == WithSeeders(s, v)
  {
    if s != [] {
      SortIsStable(s[1..], v);
      InsertKeepsTies(s[0], SortBySeeders(s[1..]), v);
      assert ([s[0]] + SortBySeeders(s[1..]))[1..] == SortBySeeders(s[1..]);
    }
  }

  /** A non-increasing order that keeps every tie group in order is unique, so `SortBySeeders` is
      exactly what Python's stable `sort(reverse=True)` produces. */
  lemma {:induction false} StableSortIsUnique(a: seq<Item>, b: seq<Item>)
    requires NonIncreasing(a) && NonIncreasing(b)
    requires forall v :: WithSeeders(a, v) == WithSeeders(b, v)
    ensures a == b
    decreases |a|
  {
    if a == [] {
      if b != [] {
        WithSeedersMembers(b, b[0].seeders, b[0]);
        WithSeedersMembers(a, b[0].seeders, b[0]);
      }
    } else if b == [] {
      WithSeedersMembers(a, a[0].seeders, a[0]);
      WithSeedersMembers(b, a[0].seeders, a[0]);
    } else {
      var m := a[0].seeders;
      assert b[0].seeders == m by {
        WithSeedersMembers(a, m, a[0]);
        WithSeedersMembers(b, m, a[0]);
        WithSeedersMembers(b, b[0].seeders, b[0]);
        WithSeedersMembers(a, b[0].seeders, b[0]);
      }
      assert WithSeeders(a, m) == [a[0]] + WithSeeders(a[1..], m);
      assert WithSeeders(b, m) == [b[0]] + WithSeeders(b[1..], m);
      assert a[0] == WithSeeders(a, m)[0] && b[0] == WithSeeders(b, m)[0];
      forall v ensures WithSeeders(a[1..], v) == WithSeeders(b[1..], v) {
        assert WithSeeders(a, v) == WithSeeders(b, v);
        if v == m {
          assert WithSeeders(a[1..], v) == WithSeeders(a, v)[1..];
          assert WithSeeders(b[1..], v) == WithSeeders(b, v)[1..];
        } else {
          assert WithSeeders(a, v) == [] + WithSeeders(a[1..], v) == WithSeeders(a[1..], v);
          assert WithSeeders(b, v) == [] + WithSeeders(b[1..], v) == WithSeeders(b[1..], v);
        }
      }
      StableSortIsUnique(a[1..], b[1..]);
      assert a == [a[0]] + a[1..] && b == [b[0]] + b[1..];
    }
  }
}

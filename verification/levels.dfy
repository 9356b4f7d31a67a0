/** Price levels, the order each side of the book keeps, and the stable sort
    the book uses to restore that order.

    Prices and volumes are scaled non-negative integers: a price counts units
    of 10^-5 and a volume counts units of 10^-8, the widths the checksum
    formats them with. */
module Levels {

  datatype Option<+T> = None | Some(value: T) {
    /** The wrapped value, or `default` when there is none. */
    function GetOr(default: T): T {
      match this
      case Some(v) => v
      case None => default
    }
  }

  /** Decimal places kept for a price and for a volume. */
  const PricePlaces: nat := 5
  const VolumePlaces: nat := 8

  /** Resting volume at one price. */
  datatype Level = Level(price: nat, volume: nat)

  datatype Side = Asks | Bids

  /** Sort key of a level on its side: asks are kept lowest price first,
      bids highest price first, so on both sides a smaller rank is better. */
  function Rank(side: Side, l: Level): int {
    match side
    case Asks => l.price
    case Bids => -(l.price as int)
  }

  lemma RankEqualIffPriceEqual(side: Side, a: Level, b: Level)
    ensures Rank(side, a) == Rank(side, b) <==> a.price == b.price
  {
  }

  /** Asks non-decreasing / bids non-increasing in price. */
  predicate Sorted(side: Side, s: seq<Level>) {
    forall i, j :: 0 <= i < j < |s| ==> Rank(side, s[i]) <= Rank(side, s[j])
  }

  /** Asks strictly ascending / bids strictly descending in price. */
  predicate StrictlySorted(side: Side, s: seq<Level>) {
    forall i, j :: 0 <= i < j < |s| ==> Rank(side, s[i]) < Rank(side, s[j])
  }

  /** No two levels of a side share a price. */
  predicate DistinctPrices(s: seq<Level>) {
    forall i, j :: 0 <= i < j < |s| ==> s[i].price != s[j].price
  }

  predicate HasPrice(s: seq<Level>, p: nat) {
    exists i :: 0 <= i < |s| && s[i].price == p
  }

  lemma StrictlySortedIff(side: Side, s: seq<Level>)
    ensures StrictlySorted(side, s) <==> Sorted(side, s) && DistinctPrices(s)
  {
  }

  /** Adjacent pairs in order suffice for sortedness; concrete books are
      checked this way. */
  lemma {:induction false} SortedFromAdjacent(side: Side, s: seq<Level>)
    requires forall i :: 0 <= i < |s| - 1 ==> Rank(side, s[i]) <= Rank(side, s[i + 1])
    ensures Sorted(side, s)
  {
    if |s| > 1 {
      SortedFromAdjacent(side, s[1..]);
      assert Sorted(side, s[1..]);
      forall i, j | 0 <= i < j < |s|
        ensures Rank(side, s[i]) <= Rank(side, s[j])
      {
        if i > 0 {
          assert s[i] == s[1..][i - 1] && s[j] == s[1..][j - 1];
        } else if j > 1 {
          assert s[1] == s[1..][0] && s[j] == s[1..][j - 1];
        }
      }
    }
  }

  lemma {:induction false} StrictlySortedFromAdjacent(side: Side, s: seq<Level>)
    requires forall i :: 0 <= i < |s| - 1 ==> Rank(side, s[i]) < Rank(side, s[i + 1])
    ensures StrictlySorted(side, s)
  {
    if |s| > 1 {
      StrictlySortedFromAdjacent(side, s[1..]);
      assert StrictlySorted(side, s[1..]);
      forall i, j | 0 <= i < j < |s|
        ensures Rank(side, s[i]) < Rank(side, s[j])
      {
        if i > 0 {
          assert s[i] == s[1..][i - 1] && s[j] == s[1..][j - 1];
        } else if j > 1 {
          assert s[1] == s[1..][0] && s[j] == s[1..][j - 1];
        }
      }
    }
  }

  /** The levels of `s` at price `p`, in their order in `s`. */
  function AtPrice(s: seq<Level>, p: nat): (r: seq<Level>)
    ensures |r| <= |s|
  {
    if |s| == 0 then []
    else if s[0].price == p then [s[0]] + AtPrice(s[1..], p)
    else AtPrice(s[1..], p)
  }

  /** The levels of `s` not at price `p`, in their order in `s`: what
      `Vec::retain(|l| l.price != p)` leaves. */
  function WithoutPrice(s: seq<Level>, p: nat): (r: seq<Level>)
    ensures |r| <= |s|
    ensures !HasPrice(s, p) ==> r == s
    ensures forall i :: 0 <= i < |r| ==> r[i].price != p
  {
    if |s| == 0 then []
    else
      assert s == [s[0]] + s[1..];
      assert !HasPrice(s, p) ==> !HasPrice(s[1..], p) by {
        if HasPrice(s[1..], p) {
          var i :| 0 <= i < |s[1..]| && s[1..][i].price == p;
          assert s[i + 1].price == p;
        }
      }
      if s[0].price == p then WithoutPrice(s[1..], p)
      else [s[0]] + WithoutPrice(s[1..], p)
  }

  /** Every level at `p` is removed, every other level is kept as many times
      as it occurs. */
  lemma {:induction false} WithoutPriceCounts(s: seq<Level>, p: nat)
    ensures forall l :: multiset(WithoutPrice(s, p))[l] == if l.price == p then 0 else multiset(s)[l]
  {
    if |s| > 0 {
      assert s == [s[0]] + s[1..];
      WithoutPriceCounts(s[1..], p);
    }
  }

  /** `retain` keeps the survivors in their order: at every other price the
      levels are the same ones, in the same order. */
  lemma {:induction false} WithoutPriceKeepsOthers(s: seq<Level>, p: nat)
    ensures forall q :: q != p ==> AtPrice(WithoutPrice(s, p), q) == AtPrice(s, q)
  {
    if |s| > 0 {
      WithoutPriceKeepsOthers(s[1..], p);
      var t := WithoutPrice(s[1..], p);
      if s[0].price != p {
        assert ([s[0]] + t)[0] == s[0] && ([s[0]] + t)[1..] == t;
      }
    }
  }

  /** When exactly one level has price `p`, removing the levels at `p`
      removes that level and nothing else. */
  lemma {:induction false} WithoutPriceSingle(s: seq<Level>, p: nat, k: nat)
    requires k < |s| && s[k].price == p
    requires forall j :: 0 <= j < |s| && j != k ==> s[j].price != p
    ensures WithoutPrice(s, p) == s[..k] + s[k + 1..]
  {
    assert s == [s[0]] + s[1..];
    if k == 0 {
      assert !HasPrice(s[1..], p) by {
        forall j | 0 <= j < |s[1..]|
          ensures s[1..][j].price != p
        {
          assert s[1..][j] == s[j + 1];
        }
      }
    } else {
      forall j | 0 <= j < |s[1..]| && j != k - 1
        ensures s[1..][j].price != p
      {
        assert s[1..][j] == s[j + 1];
      }
      WithoutPriceSingle(s[1..], p, k - 1);
      assert s[..k] == [s[0]] + s[1..][..k - 1];
      assert s[k + 1..] == s[1..][k..];
    }
  }

  /** A side is sorted exactly when its tail is sorted and its head ranks no
      worse than every level of the tail. */
  lemma SortedCons(side: Side, a: Level, t: seq<Level>)
    ensures Sorted(side, [a] + t) <==> Sorted(side, t) && forall x :: x in t ==> Rank(side, a) <= Rank(side, x)
  {
    var r := [a] + t;
    assert r[1..] == t;
    if Sorted(side, t) && forall x :: x in t ==> Rank(side, a) <= Rank(side, x) {
      forall i, j | 0 <= i < j < |r|
        ensures Rank(side, r[i]) <= Rank(side, r[j])
      {
        assert r[j] == t[j - 1];
        if i > 0 {
          assert r[i] == t[i - 1];
        } else {
          assert r[i] == a && t[j - 1] in t;
        }
      }
    }
    if Sorted(side, r) {
      forall k | 0 <= k < |t|
        ensures Rank(side, a) <= Rank(side, t[k])
      {
        assert r[0] == a && r[k + 1] == t[k];
      }
    }
  }

  lemma DistinctCons(a: Level, t: seq<Level>)
    ensures DistinctPrices([a] + t) <==> DistinctPrices(t) && forall x :: x in t ==> a.price != x.price
  {
    var r := [a] + t;
    assert r[1..] == t;
    if DistinctPrices(t) && forall x :: x in t ==> a.price != x.price {
      forall i, j | 0 <= i < j < |r|
        ensures r[i].price != r[j].price
      {
        assert r[j] == t[j - 1];
        if i > 0 {
          assert r[i] == t[i - 1];
        }
      }
    }
    if DistinctPrices(r) {
      forall x | x in t
        ensures a.price != x.price
      {
        var k :| 0 <= k < |t| && t[k] == x;
        assert r[0] == a && r[k + 1] == x;
      }
    }
  }

  /** Removing the levels at one price keeps a side sorted and keeps its
      prices distinct. */
  lemma {:induction false} WithoutPriceKeepsOrder(side: Side, s: seq<Level>, p: nat)
    ensures Sorted(side, s) ==> Sorted(side, WithoutPrice(s, p))
    ensures DistinctPrices(s) ==> DistinctPrices(WithoutPrice(s, p))
  {
    if |s| > 0 {
      WithoutPriceKeepsOrder(side, s[1..], p);
      var rest := WithoutPrice(s[1..], p);
      assert s == [s[0]] + s[1..];
      SortedCons(side, s[0], s[1..]);
      DistinctCons(s[0], s[1..]);
      if s[0].price != p {
        WithoutPriceCounts(s[1..], p);
        forall x | x in rest
          ensures x in s[1..]
        {
          assert x in multiset(rest);
        }
        SortedCons(side, s[0], rest);
        DistinctCons(s[0], rest);
      }
    }
  }

  /** Places `x` before the first level of `s` that ranks no better than it,
      so `x` goes ahead of levels at its own price: one step of a stable
      insertion sort that takes elements from the back. */
  function InsertLevel(side: Side, x: Level, s: seq<Level>): (r: seq<Level>)
    ensures |r| == |s| + 1
    ensures multiset(r) == multiset(s) + multiset{x}
    ensures Sorted(side, s) ==> Sorted(side, r)
  {
    if |s| == 0 then [x]
    else if Rank(side, x) <= Rank(side, s[0]) then
      assert Sorted(side, s) ==> Sorted(side, [x] + s) by {
        if Sorted(side, s) {
          SortedCons(side, x, s);
        }
      }
      [x] + s
    else
      var rest := InsertLevel(side, x, s[1..]);
      assert s == [s[0]] + s[1..];
      assert Sorted(side, s) ==> Sorted(side, [s[0]] + rest) by {
        if Sorted(side, s) {
          SortedCons(side, s[0], s[1..]);
          forall y | y in rest
            ensures Rank(side, s[0]) <= Rank(side, y)
          {
            assert y in multiset(rest);
          }
          SortedCons(side, s[0], rest);
        }
      }
      [s[0]] + rest
  }

  /** Inserting `x` adds it in front of the levels already at its price and
      leaves every other price's levels as they were. */
  lemma {:induction false} InsertLevelAtPrice(side: Side, x: Level, s: seq<Level>, p: nat)
    ensures AtPrice(InsertLevel(side, x, s), p) == if x.price == p then [x] + AtPrice(s, p) else AtPrice(s, p)
  {
    if |s| > 0 && Rank(side, s[0]) < Rank(side, x) {
      InsertLevelAtPrice(side, x, s[1..], p);
      var rest := InsertLevel(side, x, s[1..]);
      assert ([s[0]] + rest)[1..] == rest;
      RankEqualIffPriceEqual(side, x, s[0]);
    } else if |s| > 0 {
      assert ([x] + s)[1..] == s;
    }
  }

  /** Stable sort by rank: what `sort_by` with the side's price comparator
      computes (Rust's slice sort is stable). */
  function SortLevels(side: Side, s: seq<Level>): (r: seq<Level>)
    ensures |r| == |s|
    ensures multiset(r) == multiset(s)
    ensures Sorted(side, r)
  {
    if |s| == 0 then []
    else
      assert s == [s[0]] + s[1..];
      InsertLevel(side, s[0], SortLevels(side, s[1..]))
  }

  /** The sort is stable: the levels at each price keep their relative
      order. Together with sortedness and the permutation property this
      determines the result completely. */
  lemma {:induction false} SortLevelsIsStable(side: Side, s: seq<Level>, p: nat)
    ensures AtPrice(SortLevels(side, s), p) == AtPrice(s, p)
  {
    if |s| > 0 {
      SortLevelsIsStable(side, s[1..], p);
      InsertLevelAtPrice(side, s[0], SortLevels(side, s[1..]), p);
    }
  }

  /** Sorting a side that is already in order changes nothing. */
  lemma {:induction false} SortSortedIsIdentity(side: Side, s: seq<Level>)
    requires Sorted(side, s)
    ensures SortLevels(side, s) == s
  {
    if |s| > 0 {
      var t := s[1..];
      assert [s[0]] + t == s;
      assert Sorted(side, t) by {
        forall i, j | 0 <= i < j < |t|
          ensures Rank(side, t[i]) <= Rank(side, t[j])
        {
          assert t[i] == s[i + 1] && t[j] == s[j + 1];
        }
      }
      SortSortedIsIdentity(side, t);
      if |t| > 0 {
        assert Rank(side, s[0]) <= Rank(side, t[0]) by {
          assert t[0] == s[1];
        }
      }
      InsertAtFront(side, s[0], t);
      assert SortLevels(side, s) == InsertLevel(side, s[0], SortLevels(side, t));
    }
  }

  /** A level that ranks no worse than the head goes in front. */
  lemma InsertAtFront(side: Side, x: Level, s: seq<Level>)
    requires |s| == 0 || Rank(side, x) <= Rank(side, s[0])
    ensures InsertLevel(side, x, s) == [x] + s
  {
  }

  /** The index at which `InsertLevel` places `x`. */
  function InsertionPoint(side: Side, x: Level, s: seq<Level>): (k: nat)
    ensures k <= |s|
  {
    if |s| == 0 || Rank(side, x) <= Rank(side, s[0]) then 0
    else 1 + InsertionPoint(side, x, s[1..])
  }

  /** `InsertLevel` splits `s` at `InsertionPoint` and puts `x` there. */
  lemma {:induction false} InsertLevelShape(side: Side, x: Level, s: seq<Level>)
    ensures var k := InsertionPoint(side, x, s);
      InsertLevel(side, x, s) == s[..k] + [x] + s[k..]
  {
    if |s| > 0 && Rank(side, s[0]) < Rank(side, x) {
      InsertLevelShape(side, x, s[1..]);
      SplitAfterHead(s, x, InsertionPoint(side, x, s[1..]));
    } else {
      SplitAfterHead(s, x, 0);
    }
  }

  /** Sequence bookkeeping for `InsertLevelShape`: splitting a sequence at
      `k + 1` is splitting its tail at `k` behind the head. */
  lemma SplitAfterHead(s: seq<Level>, x: Level, k: nat)
    ensures |s| > 0 && k < |s| ==> s[..k + 1] + [x] + s[k + 1..] == [s[0]] + (s[1..][..k] + [x] + s[1..][k..])
    ensures s[..0] + [x] + s[0..] == [x] + s
  {
    if |s| > 0 && k < |s| {
      assert s[..k + 1] == [s[0]] + s[1..][..k];
      assert s[k + 1..] == s[1..][k..];
    }
  }

  /** On a sorted side, the levels in front of the insertion point rank
      better than `x` and those behind it rank no better. */
  lemma {:induction false} InsertionPointSplits(side: Side, x: Level, s: seq<Level>)
    requires Sorted(side, s)
    ensures var k := InsertionPoint(side, x, s);
      (forall i :: 0 <= i < k ==> Rank(side, s[i]) < Rank(side, x)) &&
      (forall i :: k <= i < |s| ==> Rank(side, x) <= Rank(side, s[i]))
  {
    if |s| > 0 {
      var t := s[1..];
      assert s == [s[0]] + t;
      SortedCons(side, s[0], t);
      if Rank(side, x) <= Rank(side, s[0]) {
        forall i | 0 < i < |s|
          ensures Rank(side, x) <= Rank(side, s[i])
        {
          assert s[i] in t;
        }
      } else {
        InsertionPointSplits(side, x, t);
        var k := InsertionPoint(side, x, s);
        forall i | 0 < i < |s|
          ensures s[i] == t[i - 1]
        {
        }
      }
    }
  }

  /** Conversely, a position with better-ranked levels in front and no
      better-ranked levels behind is the insertion point. */
  lemma {:induction false} InsertionPointAt(side: Side, x: Level, s: seq<Level>, k: nat)
    requires k <= |s|
    requires forall i :: 0 <= i < k ==> Rank(side, s[i]) < Rank(side, x)
    requires forall i :: k <= i < |s| ==> Rank(side, x) <= Rank(side, s[i])
    ensures InsertionPoint(side, x, s) == k
  {
    if k > 0 {
      var t := s[1..];
      forall i | 0 <= i < k - 1
        ensures Rank(side, t[i]) < Rank(side, x)
      {
        assert t[i] == s[i + 1];
      }
      forall i | k - 1 <= i < |t|
        ensures Rank(side, x) <= Rank(side, t[i])
      {
        assert t[i] == s[i + 1];
      }
      InsertionPointAt(side, x, t, k - 1);
    }
  }

  /** Where no level has the price of `x`, the levels behind the insertion
      point rank strictly worse than `x`: the position is unique. */
  lemma InsertLevelPosition(side: Side, x: Level, s: seq<Level>)
    requires Sorted(side, s)
    requires !HasPrice(s, x.price)
    ensures var k := InsertionPoint(side, x, s);
      && InsertLevel(side, x, s) == s[..k] + [x] + s[k..]
      && (forall i :: 0 <= i < k ==> Rank(side, s[i]) < Rank(side, x))
      && (forall i :: k <= i < |s| ==> Rank(side, x) < Rank(side, s[i]))
  {
    InsertLevelShape(side, x, s);
    InsertionPointSplits(side, x, s);
    var k := InsertionPoint(side, x, s);
    forall i | k <= i < |s|
      ensures Rank(side, x) < Rank(side, s[i])
    {
      RankEqualIffPriceEqual(side, x, s[i]);
    }
  }

  /** Inserting the head of a sorted side back after `x` gives the same
      side as inserting `x` directly, when `x` ranks strictly better than the
      head ... */
  lemma InsertBeforeHead(side: Side, x: Level, s: seq<Level>)
    requires Sorted(side, s)
    requires |s| > 0 && Rank(side, x) < Rank(side, s[0])
    ensures InsertLevel(side, s[0], InsertLevel(side, x, s[1..])) == InsertLevel(side, x, s)
  {
    var t := s[1..];
    assert s == [s[0]] + t;
    if |t| > 0 {
      assert Rank(side, s[0]) <= Rank(side, t[0]);
    }
    assert InsertLevel(side, x, t) == [x] + t;
    assert ([x] + t)[1..] == t;
    assert InsertLevel(side, s[0], t) == s;
  }

  /** ... and when it ranks strictly worse. */
  lemma InsertAfterHead(side: Side, x: Level, s: seq<Level>)
    requires Sorted(side, s)
    requires |s| > 0 && Rank(side, s[0]) < Rank(side, x)
    ensures InsertLevel(side, s[0], InsertLevel(side, x, s[1..])) == InsertLevel(side, x, s)
  {
    var t := s[1..];
    var u := InsertLevel(side, x, t);
    if |t| > 0 {
      assert Rank(side, s[0]) <= Rank(side, t[0]);
      assert u[0] == x || u[0] == t[0];
    }
  }

  /** Pushing a level at a new price onto a sorted side and sorting again,
      as the book does, is the same as inserting it at its sorted position. */
  lemma {:induction false} PushThenSortIsInsert(side: Side, s: seq<Level>, x: Level)
    requires Sorted(side, s)
    requires !HasPrice(s, x.price)
    ensures SortLevels(side, s + [x]) == InsertLevel(side, x, s)
  {
    if |s| == 0 {
      assert s + [x] == [x];
    } else {
      var t := s[1..];
      assert s == [s[0]] + t;
      assert s + [x] == [s[0]] + (t + [x]);
      SortedCons(side, s[0], t);
      assert !HasPrice(t, x.price);
      PushThenSortIsInsert(side, t, x);
      assert SortLevels(side, s + [x]) == InsertLevel(side, s[0], InsertLevel(side, x, t));
      RankEqualIffPriceEqual(side, x, s[0]);
      if Rank(side, x) < Rank(side, s[0]) {
        InsertBeforeHead(side, x, s);
      } else {
        InsertAfterHead(side, x, s);
      }
    }
  }

  /** Inserting a level at a new price into a side with distinct prices
      keeps the prices distinct. */
  lemma {:induction false} InsertKeepsDistinct(side: Side, x: Level, s: seq<Level>)
    requires DistinctPrices(s)
    requires !HasPrice(s, x.price)
    ensures DistinctPrices(InsertLevel(side, x, s))
  {
    if |s| == 0 {
    } else if Rank(side, x) <= Rank(side, s[0]) {
      DistinctCons(x, s);
    } else {
      var t := s[1..];
      assert s == [s[0]] + t;
      DistinctCons(s[0], t);
      assert !HasPrice(t, x.price);
      InsertKeepsDistinct(side, x, t);
      var rest := InsertLevel(side, x, t);
      forall y | y in rest
        ensures s[0].price != y.price
      {
        assert y in multiset(rest);
      }
      DistinctCons(s[0], rest);
    }
  }

  /** Sorting keeps the prices of a side distinct. */
  lemma {:induction false} SortKeepsDistinct(side: Side, s: seq<Level>)
    requires DistinctPrices(s)
    ensures DistinctPrices(SortLevels(side, s))
  {
    if |s| > 0 {
      var t := s[1..];
      assert s == [s[0]] + t;
      DistinctCons(s[0], t);
      SortKeepsDistinct(side, t);
      var sorted := SortLevels(side, t);
      assert !HasPrice(sorted, s[0].price) by {
        forall i | 0 <= i < |sorted|
          ensures sorted[i].price != s[0].price
        {
          assert sorted[i] in multiset(t);
        }
      }
      InsertKeepsDistinct(side, s[0], sorted);
    }
  }
}

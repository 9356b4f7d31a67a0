/** The order-book store: a depth bound and two sides of price levels,
    filled once from a snapshot and then changed by diff messages. */
module OrderBook {
  import opened Levels
  import opened Wire

  datatype Book = Book(depth: nat, bids: seq<Level>, asks: seq<Level>)

  /** The state the book is meant to keep: asks strictly ascending, bids
      strictly descending (so no price twice on a side), at most `depth`
      levels per side. */
  predicate Valid(b: Book) {
    && StrictlySorted(Asks, b.asks)
    && StrictlySorted(Bids, b.bids)
    && |b.asks| <= b.depth
    && |b.bids| <= b.depth
  }

  /** `OrderBook::new`: an empty book of the given depth. */
  function New(depth: nat): (b: Book)
    ensures b.depth == depth
    ensures |b.asks| == 0 && |b.bids| == 0
    ensures Valid(b)
  {
    Book(depth, [], [])
  }

  /** The first `n` elements, or all of them when there are fewer
      (`Iterator::take`, `Vec::truncate`). */
  function Take<T>(s: seq<T>, n: nat): (r: seq<T>)
    ensures |r| == if |s| <= n then |s| else n
    ensures r == s[..|r|]
  {
    if |s| <= n then s else s[..n]
  }

  // ---------------------------------------------------------------------------
  // Snapshot (order_book.rs:29-61)
  // ---------------------------------------------------------------------------

  /** `filter_map` over the entries: the levels of the entries that read,
      in entry order. */
  function ParseSnapshot(es: seq<Entry>): (r: seq<Level>)
    ensures |r| <= |es|
    ensures forall l :: l in r <==> exists i :: 0 <= i < |es| && SnapshotLevel(es[i]) == Some(l)
    ensures |r| == |es| <==> forall i :: 0 <= i < |es| ==> SnapshotLevel(es[i]).Some?
  {
    if |es| == 0 then []
    else
      var rest := ParseSnapshot(es[1..]);
      assert forall i :: 0 < i < |es| ==> es[i] == es[1..][i - 1];
      assert (forall i :: 0 <= i < |es| ==> SnapshotLevel(es[i]).Some?) <==>
        SnapshotLevel(es[0]).Some? && forall i :: 0 <= i < |es[1..]| ==> SnapshotLevel(es[1..][i]).Some? by {
        if forall i :: 0 <= i < |es[1..]| ==> SnapshotLevel(es[1..][i]).Some? {
          forall i | 0 < i < |es|
            ensures SnapshotLevel(es[i]).Some?
          {
            assert es[i] == es[1..][i - 1];
          }
        }
      }
      match SnapshotLevel(es[0])
      case Some(l) => [l] + rest
      case None => rest
  }

  /** When every entry reads, nothing is dropped and the levels come out in
      entry order. */
  lemma {:induction false} ParseSnapshotKeepsOrder(es: seq<Entry>)
    requires forall i :: 0 <= i < |es| ==> SnapshotLevel(es[i]).Some?
    ensures |ParseSnapshot(es)| == |es|
    ensures forall i :: 0 <= i < |es| ==> ParseSnapshot(es)[i] == SnapshotLevel(es[i]).value
  {
    if |es| > 0 {
      assert forall i :: 0 < i < |es| ==> es[i] == es[1..][i - 1];
      ParseSnapshotKeepsOrder(es[1..]);
    }
  }

  /** What one entry contributes to the snapshot: its level, or nothing. */
  function EntryLevels(e: Entry): (r: seq<Level>)
    ensures |r| <= 1
  {
    match SnapshotLevel(e)
    case Some(l) => [l]
    case None => []
  }

  lemma ParseSnapshotCons(es: seq<Entry>)
    requires |es| > 0
    ensures ParseSnapshot(es) == EntryLevels(es[0]) + ParseSnapshot(es[1..])
  {
    if SnapshotLevel(es[0]).None? {
      assert EntryLevels(es[0]) + ParseSnapshot(es[1..]) == ParseSnapshot(es[1..]);
    }
  }

  /** `filter_map` works entry by entry: the levels of a concatenation are
      the levels of its parts, concatenated. With `ParseSnapshotSingle`
      (one entry gives its level or nothing) this fixes the result
      completely, copies and order included. */
  lemma {:induction false} ParseSnapshotAppend(a: seq<Entry>, b: seq<Entry>)
    ensures ParseSnapshot(a + b) == ParseSnapshot(a) + ParseSnapshot(b)
  {
    if |a| > 0 {
      var ab := a + b;
      assert ab[0] == a[0] && ab[1..] == a[1..] + b;
      ParseSnapshotAppend(a[1..], b);
      ParseSnapshotCons(ab);
      ParseSnapshotCons(a);
    } else {
      assert a + b == b;
    }
  }

  lemma ParseSnapshotSingle(e: Entry)
    ensures ParseSnapshot([e]) == EntryLevels(e)
  {
    var es := [e];
    assert es[1..] == [];
    ParseSnapshotCons(es);
  }

  /** One side as the snapshot builds it: the first `depth` entries in
      source order, those that do not read dropped, then sorted. */
  function SnapshotSide(side: Side, depth: nat, es: seq<Entry>): (r: seq<Level>)
    ensures |r| <= depth
    ensures Sorted(side, r)
    ensures forall l :: l in r <==> exists i :: 0 <= i < |es| && i < depth && SnapshotLevel(es[i]) == Some(l)
    ensures multiset(r) == multiset(ParseSnapshot(Take(es, depth)))
    ensures forall p :: AtPrice(r, p) == AtPrice(ParseSnapshot(Take(es, depth)), p)
  {
    var head := Take(es, depth);
    assert forall i :: 0 <= i < |head| ==> head[i] == es[i];
    var parsed := ParseSnapshot(head);
    assert forall l :: l in parsed <==> l in multiset(parsed);
    assert forall p :: AtPrice(SortLevels(side, parsed), p) == AtPrice(parsed, p) by {
      forall p
        ensures AtPrice(SortLevels(side, parsed), p) == AtPrice(parsed, p)
      {
        SortLevelsIsStable(side, parsed, p);
      }
    }
    SortLevels(side, parsed)
  }

  /** The side has one level per entry among the first `depth` when all of
      them read, and fewer as soon as one of them does not. */
  lemma SnapshotSideCount(side: Side, depth: nat, es: seq<Entry>)
    ensures (forall i :: 0 <= i < |es| && i < depth ==> SnapshotLevel(es[i]).Some?) ==>
      |SnapshotSide(side, depth, es)| == if |es| <= depth then |es| else depth
    ensures (exists i :: 0 <= i < |es| && i < depth && SnapshotLevel(es[i]).None?) ==>
      |SnapshotSide(side, depth, es)| < if |es| <= depth then |es| else depth
  {
    var head := Take(es, depth);
    assert forall i :: 0 <= i < |head| ==> head[i] == es[i];
  }

  /** A snapshot within the depth whose entries all read and are already in
      book order is stored exactly as sent. */
  lemma SnapshotSideInOrder(side: Side, depth: nat, es: seq<Entry>, levels: seq<Level>)
    requires |es| <= depth && |levels| == |es|
    requires forall i :: 0 <= i < |es| ==> SnapshotLevel(es[i]) == Some(levels[i])
    requires Sorted(side, levels)
    ensures SnapshotSide(side, depth, es) == levels
  {
    ParseSnapshotKeepsOrder(es);
    assert ParseSnapshot(es) == levels;
    SortSortedIsIdentity(side, levels);
  }

  /** `OrderBook::initialize` on the already extracted "as" and "bs" lists
      (`None` for a key that is absent or not an array). A present side is
      replaced by `SnapshotSide`; an absent one keeps its levels; both sides
      are then sorted. Duplicate prices in the snapshot are kept. */
  function Initialize(b: Book, asks: Option<seq<Entry>>, bids: Option<seq<Entry>>): (r: Book)
    ensures r.depth == b.depth
    ensures Sorted(Asks, r.asks) && Sorted(Bids, r.bids)
    ensures asks.Some? ==> |r.asks| <= b.depth
    ensures bids.Some? ==> |r.bids| <= b.depth
    ensures asks.Some? ==> forall l :: l in r.asks <==>
      exists i :: 0 <= i < |asks.value| && i < b.depth && SnapshotLevel(asks.value[i]) == Some(l)
    ensures bids.Some? ==> forall l :: l in r.bids <==>
      exists i :: 0 <= i < |bids.value| && i < b.depth && SnapshotLevel(bids.value[i]) == Some(l)
    ensures asks.None? ==> multiset(r.asks) == multiset(b.asks)
    ensures bids.None? ==> multiset(r.bids) == multiset(b.bids)
    ensures asks.None? && Sorted(Asks, b.asks) ==> r.asks == b.asks
    ensures bids.None? && Sorted(Bids, b.bids) ==> r.bids == b.bids
    ensures asks.Some? ==> r.asks == SnapshotSide(Asks, b.depth, asks.value)
    ensures bids.Some? ==> r.bids == SnapshotSide(Bids, b.depth, bids.value)
    ensures asks.None? ==> forall p :: AtPrice(r.asks, p) == AtPrice(b.asks, p)
    ensures bids.None? ==> forall p :: AtPrice(r.bids, p) == AtPrice(b.bids, p)
  {
    var newAsks := if asks.Some? then SnapshotSide(Asks, b.depth, asks.value) else b.asks;
    var newBids := if bids.Some? then SnapshotSide(Bids, b.depth, bids.value) else b.bids;
    assert Sorted(Asks, newAsks) ==> SortLevels(Asks, newAsks) == newAsks by {
      if Sorted(Asks, newAsks) {
        SortSortedIsIdentity(Asks, newAsks);
      }
    }
    assert Sorted(Bids, newBids) ==> SortLevels(Bids, newBids) == newBids by {
      if Sorted(Bids, newBids) {
        SortSortedIsIdentity(Bids, newBids);
      }
    }
    assert forall p :: AtPrice(SortLevels(Asks, newAsks), p) == AtPrice(newAsks, p) by {
      forall p
        ensures AtPrice(SortLevels(Asks, newAsks), p) == AtPrice(newAsks, p)
      {
        SortLevelsIsStable(Asks, newAsks, p);
      }
    }
    assert forall p :: AtPrice(SortLevels(Bids, newBids), p) == AtPrice(newBids, p) by {
      forall p
        ensures AtPrice(SortLevels(Bids, newBids), p) == AtPrice(newBids, p)
      {
        SortLevelsIsStable(Bids, newBids, p);
      }
    }
    Book(b.depth, SortLevels(Bids, newBids), SortLevels(Asks, newAsks))
  }

  /** A side is taken from the first `depth` entries, not the first `depth`
      that read: a malformed entry among them shortens the side even when
      later entries would have read. */
  lemma MalformedEntryShortensSide(b: Book, asks: seq<Entry>, k: nat)
    requires k < |asks| && k < b.depth
    requires SnapshotLevel(asks[k]).None?
    ensures |Initialize(b, Some(asks), None).asks| < b.depth
  {
    SnapshotSideCount(Asks, b.depth, asks);
  }

  /** The levels read from entries whose prices are pairwise distinct have
      distinct prices. */
  lemma {:induction false} ParseSnapshotDistinct(es: seq<Entry>)
    requires forall i, j :: 0 <= i < j < |es| && SnapshotLevel(es[i]).Some? && SnapshotLevel(es[j]).Some? ==>
      SnapshotLevel(es[i]).value.price != SnapshotLevel(es[j]).value.price
    ensures DistinctPrices(ParseSnapshot(es))
  {
    if |es| > 0 {
      var t := es[1..];
      assert forall i :: 0 <= i < |t| ==> t[i] == es[i + 1];
      ParseSnapshotDistinct(t);
      var rest := ParseSnapshot(t);
      if SnapshotLevel(es[0]).Some? {
        var l := SnapshotLevel(es[0]).value;
        forall y | y in rest
          ensures l.price != y.price
        {
          var i :| 0 <= i < |t| && SnapshotLevel(t[i]) == Some(y);
          assert SnapshotLevel(es[i + 1]) == Some(y);
        }
        DistinctCons(l, rest);
      }
    }
  }

  /** When the snapshot entries that read have pairwise distinct prices, the
      snapshot side is strictly ordered: with `Initialize` this is how a
      snapshot establishes `Valid`. */
  lemma SnapshotStrictWhenDistinct(side: Side, depth: nat, es: seq<Entry>)
    requires forall i, j :: 0 <= i < j < |es| && j < depth && SnapshotLevel(es[i]).Some? && SnapshotLevel(es[j]).Some? ==>
      SnapshotLevel(es[i]).value.price != SnapshotLevel(es[j]).value.price
    ensures StrictlySorted(side, SnapshotSide(side, depth, es))
  {
    var head := Take(es, depth);
    assert forall i :: 0 <= i < |head| ==> head[i] == es[i];
    ParseSnapshotDistinct(head);
    SortKeepsDistinct(side, ParseSnapshot(head));
    StrictlySortedIff(side, SnapshotSide(side, depth, es));
  }

  /** A snapshot whose readable entries (among the first `depth` of each
      side) have distinct prices leaves the book valid: asks strictly
      ascending, bids strictly descending, both within the depth. */
  lemma InitializeValid(b: Book, asks: seq<Entry>, bids: seq<Entry>)
    requires forall i, j :: 0 <= i < j < |asks| && j < b.depth && SnapshotLevel(asks[i]).Some? && SnapshotLevel(asks[j]).Some? ==>
      SnapshotLevel(asks[i]).value.price != SnapshotLevel(asks[j]).value.price
    requires forall i, j :: 0 <= i < j < |bids| && j < b.depth && SnapshotLevel(bids[i]).Some? && SnapshotLevel(bids[j]).Some? ==>
      SnapshotLevel(bids[i]).value.price != SnapshotLevel(bids[j]).value.price
    ensures Valid(Initialize(b, Some(asks), Some(bids)))
  {
    SnapshotStrictWhenDistinct(Asks, b.depth, asks);
    SnapshotStrictWhenDistinct(Bids, b.depth, bids);
  }

  // ---------------------------------------------------------------------------
  // Diff messages (order_book.rs:64-145)
  // ---------------------------------------------------------------------------

  /** Index of the first level at price `p`: what `iter_mut().find` stops on. */
  function FirstAtPrice(s: seq<Level>, p: nat): (r: Option<nat>)
    ensures r.None? <==> !HasPrice(s, p)
    ensures r.Some? ==> r.value < |s| && s[r.value].price == p
    ensures r.Some? ==> forall j :: 0 <= j < r.value ==> s[j].price != p
  {
    if |s| == 0 then None
    else if s[0].price == p then Some(0)
    else
      assert forall j :: 0 < j < |s| ==> s[j] == s[1..][j - 1];
      match FirstAtPrice(s[1..], p)
      case None => None
      case Some(k) => Some(k + 1)
  }

  /** One diff entry applied to one side (order_book.rs:69-92 for asks,
      99-122 for bids): a zero volume removes every level at the price; a
      non-zero volume overwrites the volume of the first level at the price,
      or, when there is none, pushes a new level and sorts the side. */
  function ApplyDiff(side: Side, s: seq<Level>, e: Entry): (r: seq<Level>)
    requires ReadDiff(e) != Panic
    ensures ReadDiff(e).Skip? ==> r == s
    ensures Sorted(side, s) ==> Sorted(side, r)
    ensures DistinctPrices(s) ==> DistinctPrices(r)
  {
    match ReadDiff(e)
    case Skip => s
    case Diff(p, v) =>
      if v == 0 then
        WithoutPriceKeepsOrder(side, s, p);
        WithoutPrice(s, p)
      else
        match FirstAtPrice(s, p)
        case Some(i) =>
          var r := s[i := Level(p, v)];
          assert forall j :: 0 <= j < |r| ==> r[j].price == s[j].price;
          r
        case None =>
          assert DistinctPrices(s) ==> DistinctPrices(s + [Level(p, v)]) by {
            if DistinctPrices(s) {
              var t := s + [Level(p, v)];
              forall a, c | 0 <= a < c < |t|
                ensures t[a].price != t[c].price
              {
                if c == |s| {
                  assert t[a] == s[a];
                }
              }
            }
          }
          assert DistinctPrices(s + [Level(p, v)]) ==> DistinctPrices(SortLevels(side, s + [Level(p, v)])) by {
            if DistinctPrices(s + [Level(p, v)]) {
              SortKeepsDistinct(side, s + [Level(p, v)]);
            }
          }
          SortLevels(side, s + [Level(p, v)])
  }

  /** Zero volume: every level at the price goes and nothing else changes;
      with no level at the price the side is unchanged. */
  lemma ApplyDiffDeletes(side: Side, s: seq<Level>, e: Entry)
    requires ReadDiff(e).Diff? && ReadDiff(e).volume == 0
    ensures var p := ReadDiff(e).price;
      forall l :: multiset(ApplyDiff(side, s, e))[l] == if l.price == p then 0 else multiset(s)[l]
    ensures !HasPrice(s, ReadDiff(e).price) ==> ApplyDiff(side, s, e) == s
    ensures forall q :: q != ReadDiff(e).price ==> AtPrice(ApplyDiff(side, s, e), q) == AtPrice(s, q)
  {
    WithoutPriceCounts(s, ReadDiff(e).price);
    WithoutPriceKeepsOthers(s, ReadDiff(e).price);
  }

  /** Non-zero volume at a price already on the side: only the volume of the
      first level at that price changes. */
  lemma ApplyDiffOverwrites(side: Side, s: seq<Level>, e: Entry)
    requires ReadDiff(e).Diff? && ReadDiff(e).volume != 0
    requires HasPrice(s, ReadDiff(e).price)
    ensures var r := ApplyDiff(side, s, e);
      var p := ReadDiff(e).price;
      exists k :: 0 <= k < |s| && s[k].price == p && (forall j :: 0 <= j < k ==> s[j].price != p) &&
        r == s[k := Level(p, ReadDiff(e).volume)]
  {
    var k := FirstAtPrice(s, ReadDiff(e).price).value;
    assert s[k].price == ReadDiff(e).price;
  }

  /** Non-zero volume at a new price: exactly one level is added; on a
      sorted side it lands at the unique position `k` between the levels
      ranking better and those ranking worse. */
  lemma ApplyDiffInserts(side: Side, s: seq<Level>, e: Entry)
    requires ReadDiff(e).Diff? && ReadDiff(e).volume != 0
    requires !HasPrice(s, ReadDiff(e).price)
    ensures var x := Level(ReadDiff(e).price, ReadDiff(e).volume);
      multiset(ApplyDiff(side, s, e)) == multiset(s) + multiset{x}
    ensures var x := Level(ReadDiff(e).price, ReadDiff(e).volume);
      var k := InsertionPoint(side, x, s);
      Sorted(side, s) ==>
        && ApplyDiff(side, s, e) == s[..k] + [x] + s[k..]
        && (forall i :: 0 <= i < k ==> Rank(side, s[i]) < Rank(side, x))
        && (forall i :: k <= i < |s| ==> Rank(side, x) < Rank(side, s[i]))
  {
    var x := Level(ReadDiff(e).price, ReadDiff(e).volume);
    assert ApplyDiff(side, s, e) == SortLevels(side, s + [x]);
    if Sorted(side, s) {
      PushThenSortIsInsert(side, s, x);
      InsertLevelPosition(side, x, s);
    }
  }

  /** The three cases pinned to a position `k`, as used on concrete books.
      Zero volume where exactly one level has the price: that level goes. */
  lemma ApplyDiffDeletesAt(side: Side, s: seq<Level>, e: Entry, k: nat)
    requires ReadDiff(e).Diff? && ReadDiff(e).volume == 0
    requires k < |s| && s[k].price == ReadDiff(e).price
    requires forall j :: 0 <= j < |s| && j != k ==> s[j].price != ReadDiff(e).price
    ensures ApplyDiff(side, s, e) == s[..k] + s[k + 1..]
  {
    WithoutPriceSingle(s, ReadDiff(e).price, k);
  }

  /** Non-zero volume where `k` is the first level with the price: only its
      volume changes. */
  lemma ApplyDiffOverwritesAt(side: Side, s: seq<Level>, e: Entry, k: nat)
    requires ReadDiff(e).Diff? && ReadDiff(e).volume != 0
    requires k < |s| && s[k].price == ReadDiff(e).price
    requires forall j :: 0 <= j < k ==> s[j].price != ReadDiff(e).price
    ensures ApplyDiff(side, s, e) == s[k := Level(s[k].price, ReadDiff(e).volume)]
  {
    var f := FirstAtPrice(s, ReadDiff(e).price);
    assert f.Some?;
    assert f.value == k;
  }

  /** Non-zero volume at a new price that ranks between `s[..k]` and
      `s[k..]` on a sorted side: it is inserted at `k`. */
  lemma ApplyDiffInsertsAt(side: Side, s: seq<Level>, e: Entry, k: nat)
    requires ReadDiff(e).Diff? && ReadDiff(e).volume != 0
    requires Sorted(side, s)
    requires k <= |s|
    requires forall i :: 0 <= i < k ==> Rank(side, s[i]) < Rank(side, Level(ReadDiff(e).price, 0))
    requires forall i :: k <= i < |s| ==> Rank(side, Level(ReadDiff(e).price, 0)) < Rank(side, s[i])
    ensures ApplyDiff(side, s, e) == s[..k] + [Level(ReadDiff(e).price, ReadDiff(e).volume)] + s[k..]
  {
    var x := Level(ReadDiff(e).price, ReadDiff(e).volume);
    assert forall i :: 0 <= i < |s| ==> Rank(side, s[i]) != Rank(side, Level(x.price, 0));
    assert !HasPrice(s, x.price);
    ApplyDiffInserts(side, s, e);
    InsertLevelShape(side, x, s);
    InsertionPointAt(side, x, s, k);
  }

  /** The entries of one side's diff list, applied left to right. */
  function ApplyDiffs(side: Side, s: seq<Level>, es: seq<Entry>): (r: seq<Level>)
    requires Readable(es)
    ensures Sorted(side, s) ==> Sorted(side, r)
    ensures DistinctPrices(s) ==> DistinctPrices(r)
    decreases |es|
  {
    if |es| == 0 then s
    else ApplyDiffs(side, ApplyDiff(side, s, es[0]), es[1..])
  }

  /** The diffs of a list take effect one after another: if each entry
      carries the side from one state of `trace` to the next, the whole list
      carries it from the first state to the last. */
  lemma {:induction false} ApplyDiffsTrace(side: Side, es: seq<Entry>, trace: seq<seq<Level>>)
    requires Readable(es)
    requires |trace| == |es| + 1
    requires forall i :: 0 <= i < |es| ==> ApplyDiff(side, trace[i], es[i]) == trace[i + 1]
    ensures ApplyDiffs(side, trace[0], es) == trace[|es|]
    decreases |es|
  {
    if |es| > 0 {
      forall i | 0 <= i < |es[1..]|
        ensures ApplyDiff(side, trace[1..][i], es[1..][i]) == trace[1..][i + 1]
      {
        assert es[1..][i] == es[i + 1];
      }
      ApplyDiffsTrace(side, es[1..], trace[1..]);
    }
  }

  /** `truncate_to_depth` (order_book.rs:130-145): each side cut to its first
      `depth` levels in stored order, then sorted. */
  function TruncateToDepth(b: Book): (r: Book)
    ensures r.depth == b.depth
    ensures |r.asks| <= b.depth && |r.bids| <= b.depth
    ensures Sorted(Asks, r.asks) && Sorted(Bids, r.bids)
    ensures Sorted(Asks, b.asks) ==> r.asks == Take(b.asks, b.depth)
    ensures Sorted(Bids, b.bids) ==> r.bids == Take(b.bids, b.depth)
    ensures DistinctPrices(b.asks) ==> DistinctPrices(r.asks)
    ensures DistinctPrices(b.bids) ==> DistinctPrices(r.bids)
  {
    var asks := Take(b.asks, b.depth);
    var bids := Take(b.bids, b.depth);
    assert Sorted(Asks, b.asks) ==> SortLevels(Asks, asks) == asks by {
      if Sorted(Asks, b.asks) {
        SortSortedIsIdentity(Asks, asks);
      }
    }
    assert Sorted(Bids, b.bids) ==> SortLevels(Bids, bids) == bids by {
      if Sorted(Bids, b.bids) {
        SortSortedIsIdentity(Bids, bids);
      }
    }
    assert DistinctPrices(b.asks) ==> DistinctPrices(SortLevels(Asks, asks)) by {
      if DistinctPrices(b.asks) {
        SortKeepsDistinct(Asks, asks);
      }
    }
    assert DistinctPrices(b.bids) ==> DistinctPrices(SortLevels(Bids, bids)) by {
      if DistinctPrices(b.bids) {
        SortKeepsDistinct(Bids, bids);
      }
    }
    Book(b.depth, SortLevels(Bids, bids), SortLevels(Asks, asks))
  }

  /** A book whose sides are sorted and within the depth is left as it is. */
  lemma TruncateKeepsSortedBook(b: Book)
    requires Sorted(Asks, b.asks) && Sorted(Bids, b.bids)
    requires |b.asks| <= b.depth && |b.bids| <= b.depth
    ensures TruncateToDepth(b) == b
  {
  }

  /** `OrderBook::update` on the already extracted "a" and "b" lists (`None`
      for an absent key): all ask entries, then all bid entries, then
      `TruncateToDepth`. */
  function Update(b: Book, asks: Option<seq<Entry>>, bids: Option<seq<Entry>>): (r: Book)
    requires asks.Some? ==> Readable(asks.value)
    requires bids.Some? ==> Readable(bids.value)
    ensures r.depth == b.depth
    ensures |r.asks| <= b.depth && |r.bids| <= b.depth
    ensures Sorted(Asks, r.asks) && Sorted(Bids, r.bids)
    ensures Valid(b) ==> Valid(r)
  {
    var merged := Book(b.depth,
      if bids.Some? then ApplyDiffs(Bids, b.bids, bids.value) else b.bids,
      if asks.Some? then ApplyDiffs(Asks, b.asks, asks.value) else b.asks);
    var r := TruncateToDepth(merged);
    assert Valid(b) ==> Valid(r) by {
      if Valid(b) {
        StrictlySortedIff(Asks, b.asks);
        StrictlySortedIff(Bids, b.bids);
        StrictlySortedIff(Asks, r.asks);
        StrictlySortedIff(Bids, r.bids);
      }
    }
    r
  }

  /** The side of the book after the diffs but before truncation. */
  function Merged(side: Side, s: seq<Level>, es: Option<seq<Entry>>): seq<Level>
    requires es.Some? ==> Readable(es.value)
  {
    if es.Some? then ApplyDiffs(side, s, es.value) else s
  }

  /** On a sorted book, `Update` keeps the `depth` best-ranked levels of the
      merged side (lowest asks, highest bids) in order, evicts the rest, and
      its final sort changes nothing. */
  lemma UpdateKeepsBestLevels(b: Book, asks: Option<seq<Entry>>, bids: Option<seq<Entry>>)
    requires asks.Some? ==> Readable(asks.value)
    requires bids.Some? ==> Readable(bids.value)
    requires Sorted(Asks, b.asks) && Sorted(Bids, b.bids)
    ensures var r := Update(b, asks, bids);
      var m := Merged(Asks, b.asks, asks);
      && r.asks == Take(m, b.depth)
      && forall i, j :: 0 <= i < |r.asks| <= j < |m| ==> Rank(Asks, r.asks[i]) <= Rank(Asks, m[j])
    ensures var r := Update(b, asks, bids);
      var m := Merged(Bids, b.bids, bids);
      && r.bids == Take(m, b.depth)
      && forall i, j :: 0 <= i < |r.bids| <= j < |m| ==> Rank(Bids, r.bids[i]) <= Rank(Bids, m[j])
  {
    var r := Update(b, asks, bids);
    var ma := Merged(Asks, b.asks, asks);
    var mb := Merged(Bids, b.bids, bids);
    assert forall i :: 0 <= i < |r.asks| ==> r.asks[i] == ma[i];
    assert forall i :: 0 <= i < |r.bids| ==> r.bids[i] == mb[i];
  }

  /** Ask diffs never touch the bids and bid diffs never touch the asks. */
  lemma UpdateSidesIndependent(b: Book, asks1: Option<seq<Entry>>, asks2: Option<seq<Entry>>,
                               bids1: Option<seq<Entry>>, bids2: Option<seq<Entry>>)
    requires asks1.Some? ==> Readable(asks1.value)
    requires asks2.Some? ==> Readable(asks2.value)
    requires bids1.Some? ==> Readable(bids1.value)
    requires bids2.Some? ==> Readable(bids2.value)
    ensures Update(b, asks1, bids1).bids == Update(b, asks2, bids1).bids
    ensures Update(b, asks1, bids1).asks == Update(b, asks1, bids2).asks
  {
  }

  /** A message without diffs only truncates and sorts, which leaves a valid
      book as it was. */
  lemma UpdateWithoutDiffs(b: Book)
    ensures Update(b, None, None) == TruncateToDepth(b)
    ensures Update(b, Some([]), Some([])) == TruncateToDepth(b)
    ensures Valid(b) ==> Update(b, None, None) == b
  {
    if Valid(b) {
      StrictlySortedIff(Asks, b.asks);
      StrictlySortedIff(Bids, b.bids);
    }
  }
}

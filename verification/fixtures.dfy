/** The XBT/USD scenario of the order-book tests (order_book.rs:225-449),
    at the model's scales: prices in units of 10^-5, volumes in units of
    10^-8. */
module Fixtures {
  import opened Levels
  import opened Wire
  import opened OrderBook

  /** A price quoted to the tenth of a dollar, at the model's price scale
      (units of 10^-5). */
  function Tenths(t: nat): (p: nat)
    ensures p == t * 10000
  {
    t * 10000
  }

  /** A snapshot row as the exchange sends it: price, volume, timestamp, all
      strings. Nothing reads the timestamp's value, so it is given as a
      string without one. */
  function Row(l: Level): Entry {
    Array([Str(Some(l.price)), Str(Some(l.volume)), Str(None)])
  }

  /** A row of the tests' expected books: price and volume only. */
  function Pair(l: Level): Entry {
    Array([Str(Some(l.price)), Str(Some(l.volume))])
  }

  function Rows(ls: seq<Level>): (r: seq<Entry>)
    ensures |r| == |ls|
    ensures forall i :: 0 <= i < |ls| ==> SnapshotLevel(r[i]) == Some(ls[i])
  {
    seq(|ls|, i requires 0 <= i < |ls| => Row(ls[i]))
  }

  function Pairs(ls: seq<Level>): (r: seq<Entry>)
    ensures |r| == |ls|
    ensures forall i :: 0 <= i < |ls| ==> SnapshotLevel(r[i]) == Some(ls[i])
  {
    seq(|ls|, i requires 0 <= i < |ls| => Pair(ls[i]))
  }

  /** A diff entry: price, volume, timestamp. */
  function Change(price: nat, volume: nat): Entry {
    Array([Str(Some(price)), Str(Some(volume)), Str(None)])
  }

  /** A diff entry carrying the fourth "r" (republish) element. */
  function Republish(price: nat, volume: nat): Entry {
    Array([Str(Some(price)), Str(Some(volume)), Str(None), Str(None)])
  }

  const SnapshotAsks: seq<Level> := [
    Level(Tenths(57118), 813439401),
    Level(Tenths(57122), 200000000),
    Level(Tenths(57128), 30000000),
    Level(Tenths(57130), 329800000),
    Level(Tenths(57131), 100000000),
    Level(Tenths(57139), 100000000),
    Level(Tenths(57147), 50000000),
    Level(Tenths(57152), 100000000),
    Level(Tenths(57166), 122700000),
    Level(Tenths(57168), 35000000)
  ]

  const SnapshotBids: seq<Level> := [
    Level(Tenths(57117), 749800),
    Level(Tenths(57092), 330000000),
    Level(Tenths(57083), 75483907),
    Level(Tenths(57082), 500000000),
    Level(Tenths(57078), 250000000),
    Level(Tenths(57074), 433000000),
    Level(Tenths(57070), 200000),
    Level(Tenths(57069), 117300000),
    Level(Tenths(57064), 85600000),
    Level(Tenths(57063), 100000000)
  ]

  /** 5709.2 set to 3.0, 5708.2 removed, 5705.9 republished with 7.624. */
  const Update1: seq<Entry> := [
    Change(Tenths(57092), 300000000),
    Change(Tenths(57082), 0),
    Republish(Tenths(57059), 762400000)
  ]

  /** 5709.2 set to 8.0, 5709.4 added with 0.3. */
  const Update2: seq<Entry> := [
    Change(Tenths(57092), 800000000),
    Change(Tenths(57094), 30000000)
  ]

  /** 5708.3 removed, 5705.9 republished with 7.624. */
  const Update3: seq<Entry> := [
    Change(Tenths(57083), 0),
    Republish(Tenths(57059), 762400000)
  ]

  /** The expected bids after each update. */
  const Bids1: seq<Level> := [
    Level(Tenths(57117), 749800),
    Level(Tenths(57092), 300000000),
    Level(Tenths(57083), 75483907),
    Level(Tenths(57078), 250000000),
    Level(Tenths(57074), 433000000),
    Level(Tenths(57070), 200000),
    Level(Tenths(57069), 117300000),
    Level(Tenths(57064), 85600000),
    Level(Tenths(57063), 100000000),
    Level(Tenths(57059), 762400000)
  ]

  const Bids2: seq<Level> := [
    Level(Tenths(57117), 749800),
    Level(Tenths(57094), 30000000),
    Level(Tenths(57092), 800000000),
    Level(Tenths(57083), 75483907),
    Level(Tenths(57078), 250000000),
    Level(Tenths(57074), 433000000),
    Level(Tenths(57070), 200000),
    Level(Tenths(57069), 117300000),
    Level(Tenths(57064), 85600000),
    Level(Tenths(57063), 100000000)
  ]

  const Bids3: seq<Level> := [
    Level(Tenths(57117), 749800),
    Level(Tenths(57094), 30000000),
    Level(Tenths(57092), 800000000),
    Level(Tenths(57078), 250000000),
    Level(Tenths(57074), 433000000),
    Level(Tenths(57070), 200000),
    Level(Tenths(57069), 117300000),
    Level(Tenths(57064), 85600000),
    Level(Tenths(57063), 100000000),
    Level(Tenths(57059), 762400000)
  ]

  /** A test book of depth ten loaded from rows already in book order holds
      exactly those rows, with or without the timestamp column. */
  lemma LoadsAsGiven(asks: seq<Level>, bids: seq<Level>)
    requires |asks| <= 10 && |bids| <= 10
    requires Sorted(Asks, asks) && Sorted(Bids, bids)
    ensures Initialize(New(10), Some(Rows(asks)), Some(Rows(bids))) == Book(10, bids, asks)
    ensures Initialize(New(10), Some(Pairs(asks)), Some(Pairs(bids))) == Book(10, bids, asks)
  {
    SnapshotSideInOrder(Asks, 10, Rows(asks), asks);
    SnapshotSideInOrder(Bids, 10, Rows(bids), bids);
    SnapshotSideInOrder(Asks, 10, Pairs(asks), asks);
    SnapshotSideInOrder(Bids, 10, Pairs(bids), bids);
    SortSortedIsIdentity(Asks, asks);
    SortSortedIsIdentity(Bids, bids);
  }

  lemma FixtureSidesSorted()
    ensures Sorted(Asks, SnapshotAsks)
    ensures Sorted(Bids, SnapshotBids)
    ensures Sorted(Bids, Bids1) && Sorted(Bids, Bids2) && Sorted(Bids, Bids3)
  {
    SortedFromAdjacent(Asks, SnapshotAsks);
    SortedFromAdjacent(Bids, SnapshotBids);
    SortedFromAdjacent(Bids, Bids1);
    SortedFromAdjacent(Bids, Bids2);
    SortedFromAdjacent(Bids, Bids3);
  }

  /** The snapshot loads into a depth-ten book as sent. */
  lemma SnapshotLoads()
    ensures Initialize(New(10), Some(Rows(SnapshotAsks)), Some(Rows(SnapshotBids)))
      == Book(10, SnapshotBids, SnapshotAsks)
  {
    FixtureSidesSorted();
    LoadsAsGiven(SnapshotAsks, SnapshotBids);
  }

  /** On a sorted side, a price strictly beyond the best level (below the
      best ask, above the best bid) separates it from every level. */
  lemma BestBoundsSide(side: Side, s: seq<Level>, p: nat)
    requires Sorted(side, s) && |s| > 0
    requires side == Asks ==> s[0].price > p
    requires side == Bids ==> s[0].price < p
    ensures side == Asks ==> forall l :: l in s ==> l.price > p
    ensures side == Bids ==> forall l :: l in s ==> l.price < p
  {
    forall l | l in s
      ensures Rank(side, s[0]) <= Rank(side, l)
    {
      var i :| 0 <= i < |s| && s[i] == l;
    }
  }

  /** Ten sorted rows a side, whose best ask is above `p` and whose best
      bid is below it, load into a depth-ten book with ten levels a side,
      every ask above `p` and every bid below it. */
  lemma LoadedBounds(asks: seq<Level>, bids: seq<Level>, p: nat)
    requires Sorted(Asks, asks) && |asks| == 10 && asks[0].price > p
    requires Sorted(Bids, bids) && |bids| == 10 && bids[0].price < p
    ensures var b := Initialize(New(10), Some(Rows(asks)), Some(Rows(bids)));
      && |b.asks| == 10 && |b.bids| == 10
      && (forall l :: l in b.asks ==> l.price > p)
      && (forall l :: l in b.bids ==> l.price < p)
  {
    LoadsAsGiven(asks, bids);
    BestBoundsSide(Asks, asks, p);
    BestBoundsSide(Bids, bids, p);
  }

  /** test_order_book_initialization: the book the snapshot loads has ten
      levels a side, every ask above 5711.75 and every bid below it. */
  lemma SnapshotFixture()
    ensures var b := Initialize(New(10), Some(Rows(SnapshotAsks)), Some(Rows(SnapshotBids)));
      && |b.asks| == 10 && |b.bids| == 10
      && (forall l :: l in b.asks ==> l.price > 571175000)
      && (forall l :: l in b.bids ==> l.price < 571175000)
  {
    FixtureSidesSorted();
    assert |SnapshotAsks| == 10 && SnapshotAsks[0].price > 571175000;
    assert |SnapshotBids| == 10 && SnapshotBids[0].price < 571175000;
    LoadedBounds(SnapshotAsks, SnapshotBids, 571175000);
  }

  /** The bids between the diffs of the first message. */
  const Bids1a: seq<Level> := [
    Level(Tenths(57117), 749800), Level(Tenths(57092), 300000000), Level(Tenths(57083), 75483907),
    Level(Tenths(57082), 500000000), Level(Tenths(57078), 250000000), Level(Tenths(57074), 433000000),
    Level(Tenths(57070), 200000), Level(Tenths(57069), 117300000), Level(Tenths(57064), 85600000),
    Level(Tenths(57063), 100000000)]

  const Bids1b: seq<Level> := [
    Level(Tenths(57117), 749800), Level(Tenths(57092), 300000000), Level(Tenths(57083), 75483907),
    Level(Tenths(57078), 250000000), Level(Tenths(57074), 433000000), Level(Tenths(57070), 200000),
    Level(Tenths(57069), 117300000), Level(Tenths(57064), 85600000), Level(Tenths(57063), 100000000)]

  lemma Update1Step1()
    ensures ApplyDiff(Bids, SnapshotBids, Update1[0]) == Bids1a
  {
    assert ReadDiff(Update1[0]) == Diff(Tenths(57092), 300000000);
    assert SnapshotBids[1 := Level(Tenths(57092), 300000000)] == Bids1a;
    ApplyDiffOverwritesAt(Bids, SnapshotBids, Update1[0], 1);
  }

  lemma Update1Step2()
    ensures ApplyDiff(Bids, Bids1a, Update1[1]) == Bids1b
  {
    assert Bids1a[..3] + Bids1a[4..] == Bids1b;
    ApplyDiffDeletesAt(Bids, Bids1a, Update1[1], 3);
  }

  lemma Update1Step3()
    ensures ApplyDiff(Bids, Bids1b, Update1[2]) == Bids1
  {
    SortedFromAdjacent(Bids, Bids1b);
    ApplyDiffInsertsAt(Bids, Bids1b, Update1[2], 9);
  }

  /** A message with bid diffs only, on a sorted book: the asks stay, and
      the bids are the first `depth` levels the diffs leave. */
  lemma BidUpdateGives(b: Book, es: seq<Entry>, t: seq<Level>)
    requires Readable(es)
    requires Sorted(Asks, b.asks) && Sorted(Bids, b.bids) && |b.asks| <= b.depth
    requires ApplyDiffs(Bids, b.bids, es) == t
    ensures Update(b, None, Some(es)) == Book(b.depth, Take(t, b.depth), b.asks)
  {
    UpdateKeepsBestLevels(b, None, Some(es));
  }

  /** First diff message: the volume at 5709.2 is overwritten in place,
      5708.2 leaves the book, and 5705.9 joins at the bottom. */
  lemma UpdateFixture1()
    ensures Readable(Update1)
    ensures Update(Book(10, SnapshotBids, SnapshotAsks), None, Some(Update1)) == Book(10, Bids1, SnapshotAsks)
  {
    var trace := [SnapshotBids, Bids1a, Bids1b, Bids1];
    forall i | 0 <= i < 3
      ensures ApplyDiff(Bids, trace[i], Update1[i]) == trace[i + 1]
    {
      if i == 0 {
        Update1Step1();
      } else if i == 1 {
        Update1Step2();
      } else {
        Update1Step3();
      }
    }
    assert Readable(Update1) by {
      forall i | 0 <= i < |Update1|
        ensures ReadDiff(Update1[i]) != Panic
      {
        if i == 0 {} else if i == 1 {} else {}
      }
    }
    ApplyDiffsTrace(Bids, Update1, trace);
    FixtureSidesSorted();
    BidUpdateGives(Book(10, SnapshotBids, SnapshotAsks), Update1, Bids1);
  }

  /** The bids between the diffs of the second message, the last before
      the cut back to depth ten. */
  const Bids2a: seq<Level> := [
    Level(Tenths(57117), 749800), Level(Tenths(57092), 800000000), Level(Tenths(57083), 75483907),
    Level(Tenths(57078), 250000000), Level(Tenths(57074), 433000000), Level(Tenths(57070), 200000),
    Level(Tenths(57069), 117300000), Level(Tenths(57064), 85600000), Level(Tenths(57063), 100000000),
    Level(Tenths(57059), 762400000)]

  const Bids2b: seq<Level> := [
    Level(Tenths(57117), 749800), Level(Tenths(57094), 30000000), Level(Tenths(57092), 800000000),
    Level(Tenths(57083), 75483907), Level(Tenths(57078), 250000000), Level(Tenths(57074), 433000000),
    Level(Tenths(57070), 200000), Level(Tenths(57069), 117300000), Level(Tenths(57064), 85600000),
    Level(Tenths(57063), 100000000), Level(Tenths(57059), 762400000)]

  lemma Update2Step1()
    ensures ApplyDiff(Bids, Bids1, Update2[0]) == Bids2a
  {
    assert ReadDiff(Update2[0]) == Diff(Tenths(57092), 800000000);
    assert Bids1[1 := Level(Tenths(57092), 800000000)] == Bids2a;
    ApplyDiffOverwritesAt(Bids, Bids1, Update2[0], 1);
  }

  lemma Update2Step2()
    ensures ApplyDiff(Bids, Bids2a, Update2[1]) == Bids2b
  {
    assert ReadDiff(Update2[1]) == Diff(Tenths(57094), 30000000);
    assert Bids2a[..1] + [Level(Tenths(57094), 30000000)] + Bids2a[1..] == Bids2b;
    SortedFromAdjacent(Bids, Bids2a);
    ApplyDiffInsertsAt(Bids, Bids2a, Update2[1], 1);
  }

  /** Second diff message: 5709.2 is overwritten again and 5709.4 enters
      second from the top, pushing 5705.9 out past depth ten. */
  lemma UpdateFixture2()
    ensures Readable(Update2)
    ensures Update(Book(10, Bids1, SnapshotAsks), None, Some(Update2)) == Book(10, Bids2, SnapshotAsks)
  {
    assert Take(Bids2b, 10) == Bids2 by {
      assert Bids2b[..10] == Bids2;
    }
    var trace := [Bids1, Bids2a, Bids2b];
    forall i | 0 <= i < 2
      ensures ApplyDiff(Bids, trace[i], Update2[i]) == trace[i + 1]
    {
      if i == 0 {
        Update2Step1();
      } else {
        Update2Step2();
      }
    }
    assert Readable(Update2) by {
      forall i | 0 <= i < |Update2|
        ensures ReadDiff(Update2[i]) != Panic
      {
        if i == 0 {} else {}
      }
    }
    ApplyDiffsTrace(Bids, Update2, trace);
    FixtureSidesSorted();
    BidUpdateGives(Book(10, Bids1, SnapshotAsks), Update2, Bids2b);
  }

  /** The bids between the diffs of the third message. */
  const Bids3a: seq<Level> := [
    Level(Tenths(57117), 749800), Level(Tenths(57094), 30000000), Level(Tenths(57092), 800000000),
    Level(Tenths(57078), 250000000), Level(Tenths(57074), 433000000), Level(Tenths(57070), 200000),
    Level(Tenths(57069), 117300000), Level(Tenths(57064), 85600000), Level(Tenths(57063), 100000000)]

  lemma Update3Step1()
    ensures ApplyDiff(Bids, Bids2, Update3[0]) == Bids3a
  {
    assert Bids2[..3] + Bids2[4..] == Bids3a;
    ApplyDiffDeletesAt(Bids, Bids2, Update3[0], 3);
  }

  lemma Update3Step2()
    ensures ApplyDiff(Bids, Bids3a, Update3[1]) == Bids3
  {
    assert Bids3a[..9] + [Level(Tenths(57059), 762400000)] + Bids3a[9..] == Bids3;
    SortedFromAdjacent(Bids, Bids3a);
    ApplyDiffInsertsAt(Bids, Bids3a, Update3[1], 9);
  }

  /** Third diff message: 5708.3 leaves and the republished 5705.9 comes
      back at the bottom. */
  lemma UpdateFixture3()
    ensures Readable(Update3)
    ensures Update(Book(10, Bids2, SnapshotAsks), None, Some(Update3)) == Book(10, Bids3, SnapshotAsks)
  {
    var trace := [Bids2, Bids3a, Bids3];
    forall i | 0 <= i < 2
      ensures ApplyDiff(Bids, trace[i], Update3[i]) == trace[i + 1]
    {
      if i == 0 {
        Update3Step1();
      } else {
        Update3Step2();
      }
    }
    assert Readable(Update3) by {
      forall i | 0 <= i < |Update3|
        ensures ReadDiff(Update3[i]) != Panic
      {
        if i == 0 {} else {}
      }
    }
    ApplyDiffsTrace(Bids, Update3, trace);
    FixtureSidesSorted();
    BidUpdateGives(Book(10, Bids2, SnapshotAsks), Update3, Bids3);
  }

  /** test_order_book_update compares against books loaded from the
      expected two-column rows: those books hold exactly the levels listed,
      so the three comparisons are with `Bids1`, `Bids2` and `Bids3` and
      the unchanged asks. */
  lemma ExpectedBooks()
    ensures Initialize(New(10), Some(Pairs(SnapshotAsks)), Some(Pairs(Bids1))) == Book(10, Bids1, SnapshotAsks)
    ensures Initialize(New(10), Some(Pairs(SnapshotAsks)), Some(Pairs(Bids2))) == Book(10, Bids2, SnapshotAsks)
    ensures Initialize(New(10), Some(Pairs(SnapshotAsks)), Some(Pairs(Bids3))) == Book(10, Bids3, SnapshotAsks)
  {
    FixtureSidesSorted();
    LoadsAsGiven(SnapshotAsks, Bids1);
    LoadsAsGiven(SnapshotAsks, Bids2);
    LoadsAsGiven(SnapshotAsks, Bids3);
  }
}

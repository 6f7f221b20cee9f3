/**
 * One asset's order book: `lastUpdateId`, the two ladders and the time of
 * the last change. `updateBook` drops a diff whose final id `u` is not newer
 * than `lastUpdateId`; otherwise `updateOrderBook` applies its deltas and the
 * book takes `u` as its new `lastUpdateId`.
 */
module OrderBook {
  import opened Ladder

  /** A `depthUpdate` event: `E`, `s`, `U`, `u`, `b` and `a`. */
  datatype DiffEvent = DiffEvent(
    eventTime: int,
    symbol: string,
    firstUpdateId: int,
    finalUpdateId: int,
    bids: seq<Level>,
    asks: seq<Level>)

  /** The body of a depth snapshot response. */
  datatype Snapshot = Snapshot(lastUpdateId: int, bids: seq<Level>, asks: seq<Level>)

  /** The value of a book at one moment. */
  datatype BookState = BookState(lastUpdateId: int, bids: seq<Level>, asks: seq<Level>, lastUpdate: int)

  /** The book `updateBook` creates when the asset has none. */
  function EmptyBook(now: int): BookState {
    BookState(0, [], [], now)
  }

  /** The book a snapshot installs. */
  function FromSnapshot(snap: Snapshot, now: int): BookState {
    BookState(snap.lastUpdateId, snap.bids, snap.asks, now)
  }

  /** The diff is already represented in the book. */
  predicate IsStale(b: BookState, d: DiffEvent) {
    d.finalUpdateId <= b.lastUpdateId
  }

  /** What `updateBook` does to the book it finds. */
  function ApplyDiff(b: BookState, d: DiffEvent, now: int): BookState {
    if IsStale(b, d) then b
    else BookState(
      d.finalUpdateId,
      Sort(Bids, ApplyAll(b.bids, d.bids)),
      Sort(Asks, ApplyAll(b.asks, d.asks)),
      now)
  }

  /** The diffs applied one after another, the `k`-th at time `times[k]`. */
  function ApplyDiffs(b: BookState, ds: seq<DiffEvent>, times: seq<int>): BookState
    requires |times| == |ds|
    decreases |ds|
  {
    if ds == [] then b
    else ApplyDiff(ApplyDiffs(b, ds[..|ds| - 1], times[..|ds| - 1]), ds[|ds| - 1], times[|ds| - 1])
  }

  /** The larger of `start` and every final id in `ds`. */
  function HighestId(start: int, ds: seq<DiffEvent>): int
    decreases |ds|
  {
    if ds == [] then start
    else
      var m := HighestId(start, ds[..|ds| - 1]);
      if ds[|ds| - 1].finalUpdateId > m then ds[|ds| - 1].finalUpdateId else m
  }

  /** Each ladder has unique prices, no zero quantity, and is ordered for its side. */
  ghost predicate WellFormed(b: BookState) {
    && Unique(b.bids) && NoZero(b.bids) && Sorted(Bids, b.bids)
    && Unique(b.asks) && NoZero(b.asks) && Sorted(Asks, b.asks)
  }

  /** Every quantity in the book is strictly positive. */
  ghost predicate PositiveBook(b: BookState) {
    Positive(b.bids) && Positive(b.asks)
  }

  /** Deltas as the exchange sends them: no negative quantity. */
  ghost predicate NonNegativeDeltas(d: DiffEvent) {
    && (forall k :: 0 <= k < |d.bids| ==> d.bids[k].qty >= 0)
    && (forall k :: 0 <= k < |d.asks| ==> d.asks[k].qty >= 0)
  }

  /**
   * A stale diff changes nothing; a newer one moves `lastUpdateId` strictly
   * forward to its final id, stamps the time, and leaves both ladders sorted
   * for their side and each a rearrangement of the upserted list.
   */
  lemma ApplyDiffEffect(b: BookState, d: DiffEvent, now: int)
    ensures IsStale(b, d) ==> ApplyDiff(b, d, now) == b
    ensures !IsStale(b, d) ==>
      var r := ApplyDiff(b, d, now);
      && b.lastUpdateId < r.lastUpdateId == d.finalUpdateId
      && r.lastUpdate == now
      && Sorted(Bids, r.bids) && multiset(r.bids) == multiset(ApplyAll(b.bids, d.bids))
      && Sorted(Asks, r.asks) && multiset(r.asks) == multiset(ApplyAll(b.asks, d.asks))
  {
    SortSortsAndPermutes(Bids, ApplyAll(b.bids, d.bids));
    SortSortsAndPermutes(Asks, ApplyAll(b.asks, d.asks));
  }

  /** Applying a diff keeps a well-formed book well-formed. */
  lemma ApplyDiffKeepsWellFormed(b: BookState, d: DiffEvent, now: int)
    requires WellFormed(b)
    ensures WellFormed(ApplyDiff(b, d, now))
  {
    if !IsStale(b, d) {
      ApplyAllKeepsUniqueNoZero(b.bids, d.bids);
      ApplyAllKeepsUniqueNoZero(b.asks, d.asks);
      SortKeepsLevels(Bids, ApplyAll(b.bids, d.bids));
      SortKeepsLevels(Asks, ApplyAll(b.asks, d.asks));
      SortSortsAndPermutes(Bids, ApplyAll(b.bids, d.bids));
      SortSortsAndPermutes(Asks, ApplyAll(b.asks, d.asks));
    }
  }

  /** With non-negative deltas every quantity stays strictly positive. */
  lemma ApplyDiffKeepsPositive(b: BookState, d: DiffEvent, now: int)
    requires PositiveBook(b) && NonNegativeDeltas(d)
    ensures PositiveBook(ApplyDiff(b, d, now))
  {
    if !IsStale(b, d) {
      ApplyAllKeepsPositive(b.bids, d.bids);
      ApplyAllKeepsPositive(b.asks, d.asks);
      SortKeepsLevels(Bids, ApplyAll(b.bids, d.bids));
      SortKeepsLevels(Asks, ApplyAll(b.asks, d.asks));
    }
  }

  /** The highest id is at least the start and at least every final id. */
  lemma {:induction false} HighestIdBounds(start: int, ds: seq<DiffEvent>)
    ensures start <= HighestId(start, ds)
    ensures forall k :: 0 <= k < |ds| ==> ds[k].finalUpdateId <= HighestId(start, ds)
    ensures HighestId(start, ds) == start || exists k :: 0 <= k < |ds| && ds[k].finalUpdateId == HighestId(start, ds)
    decreases |ds|
  {
    if ds != [] {
      var init := ds[..|ds| - 1];
      HighestIdBounds(start, init);
      assert forall k :: 0 <= k < |init| ==> init[k] == ds[k];
    }
  }

  /**
   * Over any sequence of diffs, `lastUpdateId` ends at the highest of its
   * starting value and the diffs' final ids: it never decreases.
   */
  lemma {:induction false} LastUpdateIdIsHighest(b: BookState, ds: seq<DiffEvent>, times: seq<int>)
    requires |times| == |ds|
    ensures ApplyDiffs(b, ds, times).lastUpdateId == HighestId(b.lastUpdateId, ds)
    decreases |ds|
  {
    if ds != [] {
      LastUpdateIdIsHighest(b, ds[..|ds| - 1], times[..|ds| - 1]);
    }
  }

  /** Any sequence of diffs keeps a well-formed book well-formed, and positive under non-negative deltas. */
  lemma {:induction false} ApplyDiffsKeepsInvariants(b: BookState, ds: seq<DiffEvent>, times: seq<int>)
    requires |times| == |ds|
    requires WellFormed(b)
    ensures WellFormed(ApplyDiffs(b, ds, times))
    ensures PositiveBook(b) && (forall k :: 0 <= k < |ds| ==> NonNegativeDeltas(ds[k])) ==>
      PositiveBook(ApplyDiffs(b, ds, times))
    decreases |ds|
  {
    if ds != [] {
      var init, last := ds[..|ds| - 1], ds[|ds| - 1];
      var before := ApplyDiffs(b, init, times[..|ds| - 1]);
      ApplyDiffsKeepsInvariants(b, init, times[..|ds| - 1]);
      ApplyDiffKeepsWellFormed(before, last, times[|ds| - 1]);
      if PositiveBook(b) && (forall k :: 0 <= k < |ds| ==> NonNegativeDeltas(ds[k])) {
        assert forall k :: 0 <= k < |init| ==> init[k] == ds[k];
        ApplyDiffKeepsPositive(before, last, times[|ds| - 1]);
      }
    }
  }

  /** A book object; the engine's dictionary holds references to these. */
  class Book {
    var lastUpdateId: int
    var bids: seq<Level>
    var asks: seq<Level>
    var lastUpdate: int

    ghost function State(): BookState
      reads this
    {
      BookState(lastUpdateId, bids, asks, lastUpdate)
    }

    constructor (b: BookState)
      ensures State() == b
    {
      lastUpdateId := b.lastUpdateId;
      bids := b.bids;
      asks := b.asks;
      lastUpdate := b.lastUpdate;
    }

    /** `updateOrderBook(book, bids, asks)`: upsert every delta, then re-sort both ladders. */
    method UpdateOrderBook(bidDeltas: seq<Level>, askDeltas: seq<Level>)
      modifies this
      ensures bids == Sort(Bids, ApplyAll(old(bids), bidDeltas))
      ensures asks == Sort(Asks, ApplyAll(old(asks), askDeltas))
      ensures lastUpdateId == old(lastUpdateId) && lastUpdate == old(lastUpdate)
    {
      bids := ProcessAll(bids, bidDeltas);
      asks := ProcessAll(asks, askDeltas);
      bids := SortLadder(Bids, bids);
      asks := SortLadder(Asks, asks);
    }

    /** The part of `updateBook` after the book is found: skip a stale diff, or apply it and stamp the book. */
    method Update(d: DiffEvent, now: int) returns (applied: bool)
      modifies this
      ensures State() == ApplyDiff(old(State()), d, now)
      ensures applied == !IsStale(old(State()), d)
    {
      if d.finalUpdateId <= lastUpdateId {
        return false;
      }
      UpdateOrderBook(d.bids, d.asks);
      lastUpdateId := d.finalUpdateId;
      lastUpdate := now;
      return true;
    }
  }
}

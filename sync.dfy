/**
 * The synchronisation state of all assets, as values: the order books and
 * the per-asset FIFO buffers of diffs and kill sentinels. Each function here
 * is what one step of the client does to that state; the `Engine` class
 * performs the same steps in place on its dictionaries.
 */
module Sync {
  import opened Symbols
  import opened OrderBook

  /** A buffered entry: `['updateBook', data]` or the sentinel `['kill', 0]`. */
  datatype Item = Diff(data: DiffEvent) | Kill

  datatype State = State(books: map<string, BookState>, buffers: map<string, seq<Item>>)

  /** Every buffered diff sits in the buffer keyed by its own lower-cased symbol. */
  ghost predicate BuffersKeyed(bufs: map<string, seq<Item>>) {
    forall a, i :: a in bufs && 0 <= i < |bufs[a]| && bufs[a][i].Diff? ==> Lower(bufs[a][i].data.symbol) == a
  }

  /** `buffer[key] = buffer[key] || []` followed by `push(x)`. */
  function Enqueued(s: State, key: string, x: Item): State {
    var q := if key in s.buffers then s.buffers[key] else [];
    State(s.books, s.buffers[key := q + [x]])
  }

  /** The book `updateBook` works on: the existing one, or a new empty one. */
  function BaseBook(s: State, key: string, now: int): BookState {
    if key in s.books then s.books[key] else EmptyBook(now)
  }

  /** `updateBook` applies the diff, and so emits the update notifications. */
  predicate Applies(s: State, d: DiffEvent) {
    !IsStale(BaseBook(s, Lower(d.symbol), 0), d)
  }

  /** `updateBook(d)` at time `now`. */
  function BookUpdated(s: State, d: DiffEvent, now: int): State {
    var key := Lower(d.symbol);
    State(s.books[key := ApplyDiff(BaseBook(s, key, now), d, now)], s.buffers)
  }

  /** The success branch of `fetchSnapshot`, before its first drain step. */
  function Installed(s: State, asset: string, snap: Snapshot, now: int): State {
    State(s.books[asset := FromSnapshot(snap, now)], s.buffers)
  }

  /** One call of the closure returned by `processBuffer(asset)`. */
  function Drained(s: State, asset: string, now: int): State {
    if asset !in s.buffers then State(s.books, s.buffers[asset := []])
    else if s.buffers[asset] == [] then s
    else
      match s.buffers[asset][0]
      case Kill => State(s.books - {asset}, s.buffers - {asset})
      case Diff(d) => BookUpdated(State(s.books, s.buffers[asset := s.buffers[asset][1..]]), d, now)
  }

  /** The drain step schedules its successor unless it consumed the kill sentinel. */
  predicate Reschedules(s: State, asset: string) {
    !(asset in s.buffers && s.buffers[asset] != [] && s.buffers[asset][0] == Kill)
  }

  /** The assets a drain step notifies about. */
  function DrainNotices(s: State, asset: string): seq<string> {
    if asset in s.buffers && s.buffers[asset] != [] && s.buffers[asset][0].Diff? && Applies(s, s.buffers[asset][0].data)
    then [Lower(s.buffers[asset][0].data.symbol)]
    else []
  }

  // ---------------------------------------------------------------------
  // One drain step.
  // ---------------------------------------------------------------------

  /**
   * A drain step on an asset whose buffer holds items: it removes exactly the
   * front item. A kill removes that asset's buffer and book and nothing else;
   * a diff goes to that asset's book, which is unchanged when the diff is
   * stale; no other asset's buffer or book changes.
   */
  lemma DrainStepEffect(s: State, asset: string, now: int)
    requires BuffersKeyed(s.buffers)
    requires asset in s.buffers && s.buffers[asset] != []
    ensures var t, q := Drained(s, asset, now), s.buffers[asset];
      && (q[0] == Kill ==> t.books == s.books - {asset} && t.buffers == s.buffers - {asset})
      && (q[0].Diff? ==>
            && t.buffers == s.buffers[asset := q[1..]]
            && t.books == s.books[asset := ApplyDiff(BaseBook(s, asset, now), q[0].data, now)]
            && (asset in s.books && IsStale(s.books[asset], q[0].data) ==> t.books == s.books))
  {
  }

  /**
   * A drain step on an empty buffer changes nothing, and one on an asset with
   * no buffer only creates an empty buffer; neither touches a book.
   */
  lemma DrainIdleEffect(s: State, asset: string, now: int)
    requires asset !in s.buffers || s.buffers[asset] == []
    ensures var t := Drained(s, asset, now);
      && t.books == s.books && t.buffers.Keys == s.buffers.Keys + {asset} && t.buffers[asset] == []
      && (forall a :: a in s.buffers ==> t.buffers[a] == s.buffers[a])
      && Reschedules(s, asset) && DrainNotices(s, asset) == []
  {
  }

  /**
   * Queueing an item puts it at the end of that key's buffer, behind every
   * item already there (an absent buffer counts as empty); every other
   * buffer and every book is unchanged.
   */
  lemma EnqueuedEffect(s: State, key: string, x: Item)
    ensures var t, q := Enqueued(s, key, x), if key in s.buffers then s.buffers[key] else [];
      && t.books == s.books && t.buffers.Keys == s.buffers.Keys + {key}
      && |t.buffers[key]| == |q| + 1 && t.buffers[key][|q|] == x && t.buffers[key][..|q|] == q
      && (forall a :: a in s.buffers && a != key ==> t.buffers[a] == s.buffers[a])
  {
    var q := if key in s.buffers then s.buffers[key] else [];
    assert (q + [x])[..|q|] == q;
  }

  /** A book disappears only when a drain step of its own asset consumes a kill. */
  lemma OnlyKillRemovesBook(s: State, a: string, asset: string, now: int)
    requires a in s.books && a !in Drained(s, asset, now).books
    ensures a == asset && asset in s.buffers && s.buffers[asset] != [] && s.buffers[asset][0] == Kill
  {
  }

  /** Every step keeps each buffered diff in the buffer of its own symbol. */
  lemma StepsKeepBuffersKeyed(s: State, asset: string, snap: Snapshot, d: DiffEvent, now: int)
    requires BuffersKeyed(s.buffers)
    ensures BuffersKeyed(Drained(s, asset, now).buffers)
    ensures BuffersKeyed(Enqueued(s, Lower(d.symbol), Diff(d)).buffers)
    ensures BuffersKeyed(Enqueued(s, asset, Kill).buffers)
    ensures BuffersKeyed(BookUpdated(s, d, now).buffers)
    ensures BuffersKeyed(Installed(s, asset, snap, now).buffers)
  {
    if asset in s.buffers && s.buffers[asset] != [] {
      var q := s.buffers[asset];
      assert forall i :: 0 <= i < |q| - 1 ==> q[1..][i] == q[i + 1];
    }
    var key := Lower(d.symbol);
    var q := if key in s.buffers then s.buffers[key] else [];
    assert forall i :: 0 <= i < |q| ==> (q + [Diff(d)])[i] == q[i];
    var k := if asset in s.buffers then s.buffers[asset] else [];
    assert forall i :: 0 <= i < |k| ==> (k + [Kill])[i] == k[i];
  }

  /**
   * Diffs ending at 5 and 8 arrive while the snapshot is fetched, and the
   * snapshot comes back at id 6: the first drain step drops the diff ending
   * at 5 without a notification, the second applies the one ending at 8 and
   * notifies, and the buffer is then empty and the book at id 8.
   */
  lemma SnapshotSplicesBufferedDiffs(s: State, asset: string, d5: DiffEvent, d8: DiffEvent, snap: Snapshot, t0: int, t1: int, t2: int)
    requires asset !in s.buffers && Lower(d5.symbol) == asset && Lower(d8.symbol) == asset
    requires d5.finalUpdateId == 5 && d8.finalUpdateId == 8 && snap.lastUpdateId == 6
    ensures var s0 := Installed(Enqueued(Enqueued(s, asset, Diff(d5)), asset, Diff(d8)), asset, snap, t0);
      var s1 := Drained(s0, asset, t1);
      var s2 := Drained(s1, asset, t2);
      && s1.books[asset] == FromSnapshot(snap, t0) && s1.buffers[asset] == [Diff(d8)]
      && s2.books[asset].lastUpdateId == 8 && s2.books[asset].lastUpdate == t2 && s2.buffers[asset] == []
      && Reschedules(s0, asset) && Reschedules(s1, asset)
      && DrainNotices(s0, asset) == [] && DrainNotices(s1, asset) == [asset]
  {
    var s0 := Installed(Enqueued(Enqueued(s, asset, Diff(d5)), asset, Diff(d8)), asset, snap, t0);
    assert s0.buffers[asset] == [Diff(d5), Diff(d8)];
    assert s0.buffers[asset][1..] == [Diff(d8)];
    var s1 := Drained(s0, asset, t1);
    assert s1.buffers[asset][1..] == [];
  }

  // ---------------------------------------------------------------------
  // The kill sentinel is honoured in FIFO order.
  // ---------------------------------------------------------------------

  /**
   * The ways the state changes: an item appended to a buffer (`depthUpdate`,
   * or an UNSUBSCRIBE confirmation), one drain step, or a change that leaves
   * the buffers alone and removes no book (`updateBook`, a snapshot install,
   * and everything that touches neither).
   */
  datatype Move = Append(key: string, item: Item) | Tick(asset: string, now: int) | Touch

  ghost predicate Step(s: State, m: Move, t: State) {
    match m
    case Append(key, x) => t == Enqueued(s, key, x)
    case Tick(a, now) => t == Drained(s, a, now)
    case Touch => t.buffers == s.buffers && s.books.Keys <= t.books.Keys
  }

  /** `updateBook` and a snapshot install are `Touch` moves. */
  lemma TouchMoves(s: State, d: DiffEvent, asset: string, snap: Snapshot, now: int)
    ensures Step(s, Touch, BookUpdated(s, d, now))
    ensures Step(s, Touch, Installed(s, asset, snap, now))
  {
  }

  /** The item of `asset`'s buffer that the move consumes, if any. */
  function PoppedBy(s: State, m: Move, asset: string): seq<Item> {
    if m.Tick? && m.asset == asset && asset in s.buffers && s.buffers[asset] != []
    then [s.buffers[asset][0]]
    else []
  }

  /** The items of `asset`'s buffer consumed along a run, in order. */
  ghost function Popped(ss: seq<State>, ms: seq<Move>, asset: string): seq<Item>
    requires |ss| == |ms| + 1
    decreases |ms|
  {
    if ms == [] then []
    else Popped(ss[..|ms|], ms[..|ms| - 1], asset) + PoppedBy(ss[|ms| - 1], ms[|ms| - 1], asset)
  }

  /** The asset has a book, and its buffer holds `pre[c..]` and then the kill sentinel. */
  ghost predicate KillPending(s: State, asset: string, pre: seq<Item>, c: nat) {
    && c <= |pre|
    && asset in s.books && asset in s.buffers
    && |s.buffers[asset]| > |pre| - c
    && s.buffers[asset][..|pre| - c + 1] == pre[c..] + [Kill]
  }

  /** Consecutive states of a run are related by its moves. */
  ghost predicate Run(ss: seq<State>, ms: seq<Move>) {
    |ss| == |ms| + 1 && forall i :: 0 <= i < |ms| ==> Step(ss[i], ms[i], ss[i + 1])
  }

  /**
   * One move with a kill waiting behind the items `pre[c..]`: the move
   * consumes at most the next of them, or, once they are all consumed, the
   * kill itself, which then takes the book with it.
   */
  lemma StepTowardsKill(s: State, m: Move, t: State, asset: string, pre: seq<Item>, c: nat)
    requires Step(s, m, t)
    requires Kill !in pre && KillPending(s, asset, pre, c)
    ensures var p := PoppedBy(s, m, asset);
      if asset in t.buffers then
        c + |p| <= |pre| && p == pre[c..c + |p|] && KillPending(t, asset, pre, c + |p|)
      else
        c == |pre| && p == [Kill] && asset !in t.books
  {
    var q := s.buffers[asset];
    var k := |pre| - c;
    assert q[k] == Kill;
    match m {
      case Append(key, x) =>
        if key == asset {
          assert (q + [x])[..k + 1] == q[..k + 1];
        }
      case Tick(a, now) =>
        if a == asset {
          if k == 0 {
            assert q[0] == Kill;
          } else {
            assert q[0] == pre[c];
            assert q[0] != Kill;
            assert q[1..][..k] == pre[c + 1..] + [Kill];
            assert pre[c..c + 1] == [pre[c]];
          }
        }
      case Touch =>
    }
  }

  /** A run without its last move is a run. */
  lemma RunPrefix(ss: seq<State>, ms: seq<Move>, asset: string)
    requires Run(ss, ms) && ms != []
    requires forall i :: 0 <= i < |ms| ==> asset in ss[i].buffers
    ensures Run(ss[..|ms|], ms[..|ms| - 1])
    ensures forall i :: 0 <= i < |ms| - 1 ==> asset in ss[..|ms|][i].buffers
  {
    var ss', ms' := ss[..|ms|], ms[..|ms| - 1];
    forall i | 0 <= i < |ms'|
      ensures Step(ss'[i], ms'[i], ss'[i + 1])
    {
      assert ss'[i] == ss[i] && ss'[i + 1] == ss[i + 1] && ms'[i] == ms[i];
    }
  }

  /**
   * Unsubscribing is ordered: if an asset's buffer holds the items `pre`
   * followed by the kill sentinel, then along any run that keeps the buffer
   * until its last step, the drain steps consume a prefix of `pre`, in
   * order, while the book stays; and the buffer and the book go away only
   * once exactly `pre` and then the kill have been consumed.
   */
  lemma {:induction false} KillHonouredInOrder(ss: seq<State>, ms: seq<Move>, asset: string, pre: seq<Item>)
    requires Run(ss, ms)
    requires Kill !in pre && KillPending(ss[0], asset, pre, 0)
    requires forall i :: 0 <= i < |ms| ==> asset in ss[i].buffers
    ensures var last, p := ss[|ms|], Popped(ss, ms, asset);
      && (asset in last.buffers ==> |p| <= |pre| && p == pre[..|p|] && KillPending(last, asset, pre, |p|))
      && (asset !in last.buffers ==> p == pre + [Kill] && asset !in last.books)
    decreases |ms|
  {
    var n := |ms|;
    if n > 0 {
      var ss', ms' := ss[..n], ms[..n - 1];
      RunPrefix(ss, ms, asset);
      assert ss'[0] == ss[0];
      KillHonouredInOrder(ss', ms', asset, pre);
      var prev := ss[n - 1];
      assert ss'[|ms'|] == prev;
      var p' := Popped(ss', ms', asset);
      var c := |p'|;
      assert Step(prev, ms[n - 1], ss[n]);
      StepTowardsKill(prev, ms[n - 1], ss[n], asset, pre, c);
      var p := PoppedBy(prev, ms[n - 1], asset);
      assert Popped(ss, ms, asset) == p' + p;
      if asset in ss[n].buffers {
        assert pre[..c + |p|] == pre[..c] + pre[c..c + |p|];
      } else {
        assert pre == pre[..c];
      }
    }
  }
}

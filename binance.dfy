/**
 * The client's state and entry points: the dictionaries `orderBook`,
 * `buffer` and `storage`, the request correlator (`sendMessage`,
 * `handleResponse`), the diff buffer and its drain step (`depthUpdate`,
 * `processBuffer`, `updateBook`), the snapshot arrival, and the public
 * `subscribe`/`unsubscribe`/`listSubscriptions` operations. Asynchrony is
 * replaced by explicit steps: each method is one callback running to
 * completion, and the caller decides the order of the steps.
 */
module Binance {
  import opened Wrappers
  import opened Symbols
  import opened OrderBook
  import opened Sync

  type RequestId = int

  /** The `method` of a control command, as sent on the wire. */
  datatype Command = SUBSCRIBE | UNSUBSCRIBE | LIST_SUBSCRIPTIONS

  /** The `asset` a pending request refers to: one symbol, or the list re-subscribed after a reconnect. */
  datatype Subject = One(asset: string) | Many(assets: seq<string>)

  /** The outbound command `{method, params, id}`. */
  datatype Request = Request(command: Command, params: Option<seq<string>>, id: RequestId)

  /** An inbound confirmation: its `id` and its `result`. */
  datatype Confirmation = Confirmation(id: RequestId, result: Option<seq<string>>)

  /** An entry of `storage`: `{ id, asset, request, response, handle }`, with the callback reduced to its presence. */
  datatype Pending = Pending(subject: Subject, request: Request, response: Option<Confirmation>, hasHandle: bool)

  /** A parsed inbound message: it carries an `id`, or an event name `e`, or neither. */
  datatype Inbound = Response(confirmation: Confirmation) | Event(name: string, data: DiffEvent) | Unsupported

  /** What `handleResponse` leaves behind: the sync state, `storage`, the snapshot fetches it starts and the response it hands to a callback. */
  datatype Outcome = Outcome(core: State, pending: map<RequestId, Pending>, fetch: seq<string>, delivered: Option<Confirmation>)

  function SubjectAssets(subject: Subject): seq<string> {
    match subject
    case One(a) => [a]
    case Many(assets) => assets
  }

  /** `_.map(assets, asset => [asset.toLowerCase(), 'depth'].join('@'))`. */
  function Streams(assets: seq<string>): (r: seq<string>)
    ensures |r| == |assets| && forall i :: 0 <= i < |assets| ==> r[i] == Stream(assets[i])
  {
    seq(|assets|, i requires 0 <= i < |assets| => Stream(assets[i]))
  }

  predicate NoDuplicates(s: seq<string>) {
    forall i, j :: 0 <= i < j < |s| ==> s[i] != s[j]
  }

  /** Distinct keys have distinct stream names, so a bulk SUBSCRIBE over distinct keys names no stream twice. */
  lemma StreamsDistinct(assets: seq<string>)
    requires NoDuplicates(assets) && forall a :: a in assets ==> IsKey(a)
    ensures NoDuplicates(Streams(assets))
  {
    var r := Streams(assets);
    forall i, j | 0 <= i < j < |r|
      ensures r[i] != r[j]
    {
      assert assets[i] in assets && assets[j] in assets;
      SameStreamIffSameKey(assets[i], assets[j]);
    }
  }

  /** `buffer[asset].push(...)` on an UNSUBSCRIBE confirmation only works when the asset's buffer exists. */
  ghost predicate Answerable(pending: map<RequestId, Pending>, buffers: map<string, seq<Item>>, id: RequestId) {
    id in pending && pending[id].request.command == UNSUBSCRIBE ==>
      pending[id].subject.One? && pending[id].subject.asset in buffers
  }

  /** `handleResponse(response)`. */
  function Respond(s: State, pending: map<RequestId, Pending>, c: Confirmation): Outcome
    requires Answerable(pending, s.buffers, c.id)
  {
    if c.id !in pending then Outcome(s, pending, [], None)
    else
      var item := pending[c.id];
      match item.request.command
      case SUBSCRIBE => Outcome(s, pending[c.id := item.(response := Some(c))], SubjectAssets(item.subject), None)
      case UNSUBSCRIBE => Outcome(Enqueued(s, item.subject.asset, Kill), pending - {c.id}, [], None)
      case LIST_SUBSCRIPTIONS => Outcome(s, pending - {c.id}, [], if item.hasHandle then Some(c) else None)
  }

  /**
   * A confirmation for an unknown id changes nothing. A known one is
   * consumed, except a SUBSCRIBE, which stays pending (with its response
   * recorded) until its snapshot fetches settle and asks for one fetch per
   * subject asset. An UNSUBSCRIBE puts the kill sentinel behind everything
   * already queued for its asset and changes no book. Any other command
   * hands the confirmation to its callback when it has one, and otherwise
   * drops it. Only a LIST_SUBSCRIPTIONS confirmation reaches a
   * callback, only a SUBSCRIBE starts fetches, and a second delivery of the
   * same non-SUBSCRIBE confirmation is ignored.
   */
  lemma RespondEffect(s: State, pending: map<RequestId, Pending>, c: Confirmation)
    requires Answerable(pending, s.buffers, c.id)
    ensures var o := Respond(s, pending, c);
      && (c.id !in pending ==> o == Outcome(s, pending, [], None))
      && (c.id in pending && pending[c.id].request.command == SUBSCRIBE ==>
            && o.core == s
            && o.pending == pending[c.id := pending[c.id].(response := Some(c))]
            && o.fetch == SubjectAssets(pending[c.id].subject)
            && o.delivered == None)
      && (c.id in pending && pending[c.id].request.command == UNSUBSCRIBE ==>
            var a := pending[c.id].subject.asset;
            && o.core.books == s.books
            && o.core.buffers == s.buffers[a := s.buffers[a] + [Kill]]
            && o.pending == pending - {c.id}
            && o.fetch == [] && o.delivered == None)
      && (c.id in pending && pending[c.id].request.command == LIST_SUBSCRIPTIONS ==>
            o == Outcome(s, pending - {c.id}, [], if pending[c.id].hasHandle then Some(c) else None))
      && (o.delivered.Some? ==> o.delivered == Some(c) && c.id in pending && pending[c.id].request.command == LIST_SUBSCRIPTIONS)
      && (o.fetch != [] ==> c.id in pending && pending[c.id].request.command == SUBSCRIBE)
      && (c.id in pending && pending[c.id].request.command != SUBSCRIBE ==>
            && c.id !in o.pending
            && Respond(o.core, o.pending, c) == Outcome(o.core, o.pending, [], None))
  {
  }

  /** The contents of a dictionary of books. */
  ghost function View(books: map<string, Book>): map<string, BookState>
    reads books.Values
  {
    map a | a in books :: books[a].State()
  }

  /** A dictionary whose other books hold the contents `m` and whose `key` book holds `v` has the contents `m[key := v]`. */
  lemma ViewUpdated(books: map<string, Book>, key: string, m: map<string, BookState>, v: BookState)
    requires key in books && books[key].State() == v
    requires View(books - {key}) == m - {key}
    ensures View(books) == m[key := v]
  {
    assert View(books).Keys == m[key := v].Keys by {
      assert View(books - {key}).Keys == (books - {key}).Keys == books.Keys - {key};
      assert (m - {key}).Keys == m.Keys - {key};
      assert View(books).Keys == books.Keys;
      assert m[key := v].Keys == (m.Keys - {key}) + {key};
      assert books.Keys == (books.Keys - {key}) + {key};
    }
    forall a | a in books && a != key
      ensures View(books)[a] == m[a]
    {
      assert a in books - {key} && View(books - {key})[a] == books[a].State();
    }
  }

  /** A dictionary whose books are all unchanged has unchanged contents. */
  twostate lemma ViewFramed(books: map<string, Book>)
    requires forall b :: b in books.Values ==> old(allocated(b)) && unchanged(b)
    ensures View(books) == old(View(books))
  {
    forall a | a in books
      ensures books[a].State() == old(books[a].State())
    {
      assert books[a] in books.Values;
    }
  }

  /** Dropping a key from a dictionary of books drops it from its contents. */
  lemma ViewRemoved(books: map<string, Book>, key: string)
    ensures View(books - {key}) == View(books) - {key}
  {
  }

  class Engine {
    var books: map<string, Book>
    var buffers: map<string, seq<Item>>
    var pending: map<RequestId, Pending>
    /** The commands written to the connection, in order. */
    var sent: seq<Request>
    /** `isReady`: the connection has opened at least once. */
    var ready: bool
    /** The assets named by the emitted `update` notifications, in order. */
    ghost var updates: seq<string>

    /**
     * Each asset has its own book object, each buffered diff sits under its
     * own symbol, and the books and the pending requests name lower-cased
     * keys only.
     */
    ghost predicate Valid()
      reads this
    {
      && (forall a, b :: a in books && b in books && a != b ==> books[a] != books[b])
      && BuffersKeyed(buffers)
      && (forall a :: a in books ==> IsKey(a))
      && (forall id, a :: id in pending && a in SubjectAssets(pending[id].subject) ==> IsKey(a))
    }

    /** The sync state as values. */
    ghost function Core(): State
      reads this, books.Values
    {
      State(View(books), buffers)
    }

    constructor ()
      ensures Valid() && Core() == State(map[], map[])
      ensures pending == map[] && sent == [] && !ready && updates == []
    {
      books := map[];
      buffers := map[];
      pending := map[];
      sent := [];
      ready := false;
      updates := [];
    }

    /** `sendMessage(conn, asset, method, params, handle)` with the id supplied by the caller. */
    method SendMessage(subject: Subject, command: Command, params: Option<seq<string>>, hasHandle: bool, id: RequestId)
      modifies this
      ensures pending == old(pending)[id := Pending(subject, Request(command, params, id), None, hasHandle)]
      ensures sent == old(sent) + [Request(command, params, id)]
      ensures books == old(books) && buffers == old(buffers) && ready == old(ready) && updates == old(updates)
    {
      var request := Request(command, params, id);
      pending := pending[id := Pending(subject, request, None, hasHandle)];
      sent := sent + [request];
    }

    /** `subscribe(asset)`: nothing when the lower-cased asset already has a book. */
    method Subscribe(asset: string, id: RequestId)
      requires Valid()
      modifies this
      ensures Valid()
      ensures var key := Lower(asset); var req := Request(SUBSCRIBE, Some([Stream(key)]), id);
        if key in old(books) then pending == old(pending) && sent == old(sent)
        else pending == old(pending)[id := Pending(One(key), req, None, false)] && sent == old(sent) + [req]
      ensures books == old(books) && buffers == old(buffers) && ready == old(ready) && updates == old(updates)
    {
      var key := Lower(asset);
      if key in books {
        return;
      }
      SendMessage(One(key), SUBSCRIBE, Some([Stream(key)]), false, id);
    }

    /** `unsubscribe(asset)`: nothing when the lower-cased asset has no book. */
    method Unsubscribe(asset: string, id: RequestId)
      requires Valid()
      modifies this
      ensures Valid()
      ensures var key := Lower(asset); var req := Request(UNSUBSCRIBE, Some([Stream(key)]), id);
        if key !in old(books) then pending == old(pending) && sent == old(sent)
        else pending == old(pending)[id := Pending(One(key), req, None, false)] && sent == old(sent) + [req]
      ensures books == old(books) && buffers == old(buffers) && ready == old(ready) && updates == old(updates)
    {
      var key := Lower(asset);
      if key !in books {
        return;
      }
      SendMessage(One(key), UNSUBSCRIBE, Some([Stream(key)]), false, id);
    }

    /** `listSubscriptions`: a request whose confirmation goes to the caller's callback. */
    method ListSubscriptions(id: RequestId)
      requires Valid()
      modifies this
      ensures Valid()
      ensures pending == old(pending)[id := Pending(One(""), Request(LIST_SUBSCRIPTIONS, None, id), None, true)]
      ensures sent == old(sent) + [Request(LIST_SUBSCRIPTIONS, None, id)]
      ensures books == old(books) && buffers == old(buffers) && ready == old(ready) && updates == old(updates)
    {
      SendMessage(One(""), LIST_SUBSCRIPTIONS, None, true, id);
    }

    /** `_.keys(orderBook)`, in some order. */
    method AssetKeys() returns (assets: seq<string>)
      ensures forall a :: a in assets <==> a in books
      ensures NoDuplicates(assets)
    {
      var rest := books.Keys;
      assets := [];
      while rest != {}
        invariant rest <= books.Keys
        invariant forall a :: a in assets <==> a in books && a !in rest
        invariant NoDuplicates(assets)
        decreases |rest|
      {
        var a :| a in rest;
        assets := assets + [a];
        rest := rest - {a};
      }
    }

    /** The handler run on every (re)opened connection: re-subscribe every asset that has a book. */
    method OnOpen(id: RequestId)
      requires Valid()
      modifies this
      ensures Valid() && ready
      ensures books == old(books) && buffers == old(buffers) && updates == old(updates)
      ensures |books| == 0 ==> pending == old(pending) && sent == old(sent)
      ensures |books| != 0 ==>
        && id in pending && pending == old(pending)[id := pending[id]]
        && pending[id].subject.Many?
        && (forall a :: a in pending[id].subject.assets <==> a in books)
        && NoDuplicates(pending[id].subject.assets)
        && NoDuplicates(Streams(pending[id].subject.assets))
        && pending[id] == Pending(pending[id].subject, Request(SUBSCRIBE, Some(Streams(pending[id].subject.assets)), id), None, false)
        && sent == old(sent) + [pending[id].request]
    {
      ready := true;
      var assets := AssetKeys();
      if |assets| > 0 {
        assert assets[0] in books;
        StreamsDistinct(assets);
        SendMessage(Many(assets), SUBSCRIBE, Some(Streams(assets)), false, id);
      }
    }

    /** `depthUpdate(data)`: queue the diff behind everything already buffered for its asset. */
    method DepthUpdate(d: DiffEvent)
      requires Valid()
      modifies this
      ensures Valid()
      ensures Core() == Enqueued(old(Core()), Lower(d.symbol), Diff(d))
      ensures books == old(books) && pending == old(pending) && sent == old(sent) && ready == old(ready) && updates == old(updates)
    {
      Push(Lower(d.symbol), Diff(d));
    }

    /** `buffer[key] = buffer[key] || []` followed by `push(x)`. */
    method Push(key: string, x: Item)
      requires Valid()
      requires x.Diff? ==> Lower(x.data.symbol) == key
      modifies this
      ensures Valid()
      ensures books == old(books) && buffers == Enqueued(old(Core()), key, x).buffers
      ensures pending == old(pending) && sent == old(sent) && ready == old(ready) && updates == old(updates)
    {
      var q := if key in buffers then buffers[key] else [];
      match x {
        case Diff(d) => StepsKeepBuffersKeyed(Core(), key, Snapshot(0, [], []), d, 0);
        case Kill => StepsKeepBuffersKeyed(Core(), key, Snapshot(0, [], []), DiffEvent(0, "", 0, 0, [], []), 0);
      }
      buffers := buffers[key := q + [x]];
    }

    /** `updateBook(data)`: apply a diff to its asset's book, creating an empty book if there is none. */
    method UpdateBook(d: DiffEvent, now: int)
      requires Valid()
      modifies this, books.Values
      ensures Valid()
      ensures Core() == BookUpdated(old(Core()), d, now)
      ensures updates == old(updates) + (if Applies(old(Core()), d) then [Lower(d.symbol)] else [])
      ensures pending == old(pending) && sent == old(sent) && ready == old(ready)
    {
      var key := Lower(d.symbol);
      ghost var s0 := Core();
      LowerIdempotent(d.symbol);
      ViewRemoved(books, key);
      var book := BookFor(key, now);
      var applied := book.Update(d, now);
      if applied {
        updates := updates + [key];
      }
      ViewFramed(books - {key});
      ViewUpdated(books, key, s0.books, ApplyDiff(BaseBook(s0, key, now), d, now));
    }

    /** `orderBook[asset] || {}` stored back: the asset's book, created empty when missing. */
    method BookFor(key: string, now: int) returns (book: Book)
      requires Valid() && IsKey(key)
      modifies this
      ensures Valid()
      ensures books == old(books)[key := book]
      ensures key in old(books) ==> book == old(books[key])
      ensures key !in old(books) ==> fresh(book)
      ensures book !in (books - {key}).Values
      ensures books - {key} == old(books) - {key}
      ensures book.State() == BaseBook(old(Core()), key, now)
      ensures buffers == old(buffers) && pending == old(pending) && sent == old(sent) && ready == old(ready) && updates == old(updates)
    {
      if key in books {
        book := books[key];
        assert books == books[key := book];
      } else {
        book := new Book(EmptyBook(now));
        books := books[key := book];
      }
      assert books - {key} == old(books) - {key};
    }

    /** One run of the closure returned by `processBuffer(asset)`; the result says whether it schedules the next. */
    method DrainStep(asset: string, now: int) returns (reschedule: bool)
      requires Valid()
      modifies this, books.Values
      ensures Valid()
      ensures Core() == Drained(old(Core()), asset, now)
      ensures reschedule == Reschedules(old(Core()), asset)
      ensures updates == old(updates) + DrainNotices(old(Core()), asset)
      ensures pending == old(pending) && sent == old(sent) && ready == old(ready)
    {
      ghost var s0 := Core();
      if asset !in buffers {
        buffers := buffers[asset := []];
        ViewFramed(books);
        return true;
      }
      var b := buffers[asset];
      if b == [] {
        return true;
      }
      var item := Pop(asset);
      ViewFramed(books);
      assert Core() == State(s0.books, s0.buffers[asset := b[1..]]);
      match item {
        case Kill =>
          Forget(asset);
          return false;
        case Diff(d) =>
          assert Applies(Core(), d) == Applies(s0, d);
          UpdateBook(d, now);
          return true;
      }
    }

    /** `delete buffer[asset]` and `delete orderBook[asset]`. */
    method Forget(asset: string)
      requires Valid()
      modifies this
      ensures Valid()
      ensures Core() == State(old(Core()).books - {asset}, old(buffers) - {asset})
      ensures pending == old(pending) && sent == old(sent) && ready == old(ready) && updates == old(updates)
    {
      buffers := buffers - {asset};
      ViewRemoved(books, asset);
      books := books - {asset};
      ViewFramed(books);
    }

    /** `_.pullAt(b, [0])` on a non-empty buffer `b`. */
    method Pop(asset: string) returns (item: Item)
      requires Valid() && asset in buffers && buffers[asset] != []
      modifies this
      ensures Valid()
      ensures item == old(buffers[asset][0])
      ensures buffers == old(buffers)[asset := old(buffers[asset][1..])]
      ensures books == old(books) && pending == old(pending) && sent == old(sent) && ready == old(ready) && updates == old(updates)
    {
      var b := buffers[asset];
      assert forall i :: 0 <= i < |b| - 1 ==> b[1..][i] == b[i + 1];
      item := b[0];
      buffers := buffers[asset := b[1..]];
    }

    /** The success branch of `fetchSnapshot(asset)`: install the snapshot as the book, then run one drain step. */
    method OnSnapshot(asset: string, snap: Snapshot, now: int) returns (reschedule: bool)
      requires Valid() && IsKey(asset)
      modifies this, books.Values
      ensures Valid()
      ensures Core() == Drained(Installed(old(Core()), asset, snap, now), asset, now)
      ensures reschedule == Reschedules(Installed(old(Core()), asset, snap, now), asset)
      ensures updates == old(updates) + DrainNotices(Installed(old(Core()), asset, snap, now), asset)
      ensures pending == old(pending) && sent == old(sent) && ready == old(ready)
    {
      Install(asset, snap, now);
      reschedule := DrainStep(asset, now);
    }

    /** `orderBook[asset] = resp.data` stamped with the arrival time. */
    method Install(asset: string, snap: Snapshot, now: int)
      requires Valid() && IsKey(asset)
      modifies this
      ensures Valid()
      ensures Core() == Installed(old(Core()), asset, snap, now)
      ensures forall b :: b in books.Values ==> b in old(books.Values) || fresh(b)
      ensures pending == old(pending) && sent == old(sent) && ready == old(ready) && updates == old(updates)
    {
      ghost var s0 := Core();
      ViewRemoved(books, asset);
      var book := new Book(FromSnapshot(snap, now));
      books := books[asset := book];
      assert books - {asset} == old(books) - {asset};
      ViewFramed(books - {asset});
      ViewUpdated(books, asset, s0.books, FromSnapshot(snap, now));
    }

    /** `handleResponse(response)`. */
    method HandleResponse(c: Confirmation) returns (fetch: seq<string>, delivered: Option<Confirmation>)
      requires Valid() && Answerable(pending, buffers, c.id)
      modifies this
      ensures Valid()
      ensures Outcome(Core(), pending, fetch, delivered) == Respond(old(Core()), old(pending), c)
      ensures forall a :: a in fetch ==> IsKey(a)
      ensures books == old(books) && sent == old(sent) && ready == old(ready) && updates == old(updates)
    {
      fetch, delivered := [], None;
      ghost var s0 := Core();
      if c.id !in pending {
        return;
      }
      var item := pending[c.id];
      ghost var o := Respond(s0, pending, c);
      pending := pending[c.id := item.(response := Some(c))];
      if item.request.command == SUBSCRIBE {
        fetch := SubjectAssets(item.subject);
        ViewFramed(books);
        assert o == Outcome(s0, pending, fetch, None);
      } else if item.request.command == UNSUBSCRIBE {
        Push(item.subject.asset, Kill);
        pending := pending - {c.id};
        ViewFramed(books);
        assert o == Outcome(Core(), pending, [], None);
      } else {
        if item.hasHandle {
          delivered := Some(c);
        }
        pending := pending - {c.id};
        ViewFramed(books);
        assert o == Outcome(s0, pending, [], delivered);
      }
    }

    /** `delete storage[id]` once every snapshot fetch of a SUBSCRIBE has settled. */
    method SettleSubscribe(id: RequestId)
      requires Valid()
      modifies this
      ensures Valid()
      ensures pending == old(pending) - {id}
      ensures books == old(books) && buffers == old(buffers) && sent == old(sent) && ready == old(ready) && updates == old(updates)
    {
      pending := pending - {id};
    }

    /** The `message` handler: route a parsed message to the correlator or to the event table. */
    method OnMessage(msg: Inbound, now: int) returns (fetch: seq<string>, delivered: Option<Confirmation>)
      requires Valid()
      requires msg.Response? ==> Answerable(pending, buffers, msg.confirmation.id)
      modifies this, books.Values
      ensures Valid()
      ensures msg.Response? ==> Outcome(Core(), pending, fetch, delivered) == Respond(old(Core()), old(pending), msg.confirmation)
      ensures forall a :: a in fetch ==> IsKey(a)
      ensures msg.Event? && msg.name == "depthUpdate" ==> Core() == Enqueued(old(Core()), Lower(msg.data.symbol), Diff(msg.data))
      ensures msg.Event? && msg.name == "updateBook" ==> Core() == BookUpdated(old(Core()), msg.data, now)
      ensures msg.Unsupported? || (msg.Event? && msg.name != "depthUpdate" && msg.name != "updateBook") ==> Core() == old(Core())
      ensures !msg.Response? ==> pending == old(pending) && fetch == [] && delivered == None
      ensures msg.Event? && msg.name == "updateBook" ==>
        updates == old(updates) + (if Applies(old(Core()), msg.data) then [Lower(msg.data.symbol)] else [])
      ensures !(msg.Event? && msg.name == "updateBook") ==> updates == old(updates)
      ensures sent == old(sent) && ready == old(ready)
    {
      fetch, delivered := [], None;
      match msg {
        case Response(c) =>
          fetch, delivered := HandleResponse(c);
        case Event(name, data) =>
          if name == "depthUpdate" {
            DepthUpdate(data);
          } else if name == "updateBook" {
            UpdateBook(data, now);
          }
        case Unsupported =>
      }
    }
  }
}

/**
 * One side of an order book: a list of (price, quantity) levels.
 * `updateOrderBook` upserts each delta into the list (its inner `_process`)
 * and then re-orders the list by numeric price with lodash's stable
 * `orderBy`: bids descending, asks ascending.
 */
module Ladder {

  type Price = int
  type Qty = int

  datatype Level = Level(price: Price, qty: Qty)

  datatype Side = Bids | Asks

  /** `p` is placed strictly before `q` on this side (bids: higher first, asks: lower first). */
  predicate Ahead(side: Side, p: Price, q: Price) {
    match side
    case Bids => p > q
    case Asks => p < q
  }

  /** Ordered for the side: no level is strictly ahead of a level listed before it. */
  ghost predicate Sorted(side: Side, s: seq<Level>) {
    forall i, j :: 0 <= i < j < |s| ==> !Ahead(side, s[j].price, s[i].price)
  }

  /** No two levels share a price. */
  ghost predicate Unique(s: seq<Level>) {
    forall i, j :: 0 <= i < j < |s| ==> s[i].price != s[j].price
  }

  /** No level is stored with quantity zero. */
  ghost predicate NoZero(s: seq<Level>) {
    forall i :: 0 <= i < |s| ==> s[i].qty != 0
  }

  /** Every level has a strictly positive quantity. */
  ghost predicate Positive(s: seq<Level>) {
    forall i :: 0 <= i < |s| ==> s[i].qty > 0
  }

  predicate HasPrice(s: seq<Level>, p: Price) {
    exists i :: 0 <= i < |s| && s[i].price == p
  }

  /** `_.findIndex` on the price: the first level with price `p`, or -1. */
  function IndexOf(s: seq<Level>, p: Price): (i: int)
    ensures -1 <= i < |s|
    ensures i == -1 <==> !HasPrice(s, p)
    ensures 0 <= i ==> s[i].price == p && forall k :: 0 <= k < i ==> s[k].price != p
  {
    if s == [] then -1
    else if s[0].price == p then 0
    else
      var j := IndexOf(s[1..], p);
      if j == -1 then
        assert forall k :: 1 <= k < |s| ==> s[k] == s[1..][k - 1];
        -1
      else j + 1
  }

  /**
   * The effect of one delta `d` on a list: an absent price is appended when
   * its quantity is positive; a present price gets the new quantity, and is
   * removed when that quantity is zero.
   */
  function Upsert(s: seq<Level>, d: Level): seq<Level> {
    var i := IndexOf(s, d.price);
    if i == -1 then
      if d.qty > 0 then s + [d] else s
    else if d.qty == 0 then
      s[..i] + s[i + 1..]
    else
      s[i := Level(s[i].price, d.qty)]
  }

  /** The deltas applied one after another, in order (`_.each(deltas, _process(side))`). */
  function ApplyAll(s: seq<Level>, ds: seq<Level>): seq<Level>
    decreases |ds|
  {
    if ds == [] then s else Upsert(ApplyAll(s, ds[..|ds| - 1]), ds[|ds| - 1])
  }

  /** Stable insertion of `x`: after every level that is not strictly behind it. */
  function Insert(side: Side, s: seq<Level>, x: Level): seq<Level> {
    if s == [] then [x]
    else if Ahead(side, x.price, s[0].price) then [x] + s
    else [s[0]] + Insert(side, s[1..], x)
  }

  /** The stable sort by numeric price that `_.orderBy` performs. */
  function Sort(side: Side, s: seq<Level>): seq<Level>
    decreases |s|
  {
    if s == [] then [] else Insert(side, Sort(side, s[..|s| - 1]), s[|s| - 1])
  }

  // ---------------------------------------------------------------------
  // The loops of the source, proved against the functions above.
  // ---------------------------------------------------------------------

  /** `_.findIndex(list, ([_price]) => _price == price)`. */
  method FindIndex(list: seq<Level>, price: Price) returns (idx: int)
    ensures idx == IndexOf(list, price)
    ensures idx == -1 <==> !HasPrice(list, price)
  {
    idx := 0;
    while idx < |list|
      invariant 0 <= idx <= |list|
      invariant forall k :: 0 <= k < idx ==> list[k].price != price
    {
      if list[idx].price == price {
        return;
      }
      idx := idx + 1;
    }
    idx := -1;
  }

  /** The closure returned by `_process(type)`, applied to one delta. */
  method Process(list: seq<Level>, d: Level) returns (r: seq<Level>)
    ensures r == Upsert(list, d)
  {
    var idx := FindIndex(list, d.price);
    if idx == -1 {
      r := if d.qty > 0 then list + [d] else list;
    } else {
      r := list[idx := Level(list[idx].price, d.qty)];
      if r[idx].qty == 0 {
        r := r[..idx] + r[idx + 1..];
      }
    }
  }

  /** `_.each(deltas, _process(type))`: every delta upserted into the list, in order. */
  method ProcessAll(list: seq<Level>, deltas: seq<Level>) returns (r: seq<Level>)
    ensures r == ApplyAll(list, deltas)
  {
    r := list;
    var i := 0;
    while i < |deltas|
      invariant 0 <= i <= |deltas|
      invariant r == ApplyAll(list, deltas[..i])
    {
      assert deltas[..i + 1][..i] == deltas[..i];
      r := Process(r, deltas[i]);
      i := i + 1;
    }
    assert deltas[..i] == deltas;
  }

  /** Finds the insertion point of `x` by a linear scan and inserts it there. */
  method InsertSorted(side: Side, s: seq<Level>, x: Level) returns (r: seq<Level>)
    ensures r == Insert(side, s, x)
  {
    var j := 0;
    while j < |s| && !Ahead(side, x.price, s[j].price)
      invariant 0 <= j <= |s|
      invariant Insert(side, s, x) == s[..j] + Insert(side, s[j..], x)
    {
      assert s[j..][1..] == s[j + 1..];
      assert s[..j] + [s[j]] == s[..j + 1];
      j := j + 1;
    }
    r := s[..j] + [x] + s[j..];
  }

  /** `_.orderBy(list, [_iteratee], [dir])`: sorted for the side and a permutation of the input. */
  method SortLadder(side: Side, list: seq<Level>) returns (r: seq<Level>)
    ensures r == Sort(side, list)
    ensures Sorted(side, r) && multiset(r) == multiset(list)
  {
    r := [];
    var i := 0;
    while i < |list|
      invariant 0 <= i <= |list|
      invariant r == Sort(side, list[..i])
    {
      assert list[..i + 1][..i] == list[..i];
      r := InsertSorted(side, r, list[i]);
      i := i + 1;
    }
    assert list[..i] == list;
    SortSortsAndPermutes(side, list);
  }

  // ---------------------------------------------------------------------
  // Properties of the ladder operations.
  // ---------------------------------------------------------------------

  /** On a list with unique prices a level is determined by its price. */
  lemma UniqueDeterminedByPrice(s: seq<Level>, x: Level, y: Level)
    requires Unique(s) && x in s && y in s && x.price == y.price
    ensures x == y
  {
    var i :| 0 <= i < |s| && s[i] == x;
    var j :| 0 <= j < |s| && s[j] == y;
    if i < j || j < i {
      assert false;
    }
  }

  /**
   * The meaning of one upsert on a list with unique prices: prices stay
   * unique; every level at another price is kept as it was; at the delta's
   * price the list holds exactly the delta, when its quantity is non-zero
   * and either positive or replacing an existing level, and nothing otherwise.
   */
  lemma {:induction false} UpsertLevels(s: seq<Level>, d: Level)
    requires Unique(s)
    ensures Unique(Upsert(s, d))
    ensures forall x :: x in Upsert(s, d) <==>
      (x in s && x.price != d.price) || (x == d && d.qty != 0 && (d.qty > 0 || HasPrice(s, d.price)))
  {
    var i := IndexOf(s, d.price);
    if i == -1 {
    } else if d.qty == 0 {
      RemoveAtLevels(s, i);
    } else {
      assert Upsert(s, d) == s[i := d];
      OverwriteAtLevels(s, i, d);
    }
  }

  /** Pulling the level at `i` out of a list with unique prices removes exactly that price. */
  lemma RemoveAtLevels(s: seq<Level>, i: int)
    requires Unique(s) && 0 <= i < |s|
    ensures Unique(s[..i] + s[i + 1..])
    ensures forall x :: x in s[..i] + s[i + 1..] <==> x in s && x.price != s[i].price
  {
    var r := s[..i] + s[i + 1..];
    assert forall k :: 0 <= k < |r| ==> r[k] == if k < i then s[k] else s[k + 1];
    forall x
      ensures x in r <==> x in s && x.price != s[i].price
    {
      if x in s && x.price != s[i].price {
        var k :| 0 <= k < |s| && s[k] == x;
        if k < i { assert r[k] == x; } else { assert r[k - 1] == x; }
      }
      if x in r {
        var k :| 0 <= k < |r| && r[k] == x;
        if k < i { assert s[k] == x; } else { assert s[k + 1] == x; }
      }
    }
  }

  /** Overwriting the level at `i` of a list with unique prices by one at the same price replaces exactly that level. */
  lemma OverwriteAtLevels(s: seq<Level>, i: int, d: Level)
    requires Unique(s) && 0 <= i < |s| && s[i].price == d.price
    ensures Unique(s[i := d])
    ensures forall x :: x in s[i := d] <==> (x in s && x.price != d.price) || x == d
  {
    var r := s[i := d];
    assert r[i] == d;
    forall x
      ensures x in r <==> (x in s && x.price != d.price) || x == d
    {
      if x in s && x.price != d.price {
        var k :| 0 <= k < |s| && s[k] == x;
        assert k != i && r[k] == x;
      }
      if x in r {
        var k :| 0 <= k < |r| && r[k] == x;
        if k != i {
          assert s[k] == x;
          assert s[k].price != s[i].price by {
            if k < i { assert s[k].price != s[i].price; } else { assert s[i].price != s[k].price; }
          }
        }
      }
    }
  }

  /** Upsert never stores a zero quantity. */
  lemma UpsertKeepsNoZero(s: seq<Level>, d: Level)
    requires NoZero(s)
    ensures NoZero(Upsert(s, d))
  {
    var i := IndexOf(s, d.price);
    if i != -1 && d.qty == 0 {
      var r := s[..i] + s[i + 1..];
      assert forall k :: 0 <= k < |r| ==> r[k] == if k < i then s[k] else s[k + 1];
    }
  }

  /** With a non-negative delta, every stored quantity stays positive. */
  lemma UpsertKeepsPositive(s: seq<Level>, d: Level)
    requires Positive(s) && d.qty >= 0
    ensures Positive(Upsert(s, d))
  {
    var i := IndexOf(s, d.price);
    if i != -1 && d.qty == 0 {
      var r := s[..i] + s[i + 1..];
      assert forall k :: 0 <= k < |r| ==> r[k] == if k < i then s[k] else s[k + 1];
    }
  }

  /** A batch of deltas keeps prices unique and never stores a zero quantity. */
  lemma {:induction false} ApplyAllKeepsUniqueNoZero(s: seq<Level>, ds: seq<Level>)
    requires Unique(s) && NoZero(s)
    ensures Unique(ApplyAll(s, ds)) && NoZero(ApplyAll(s, ds))
    decreases |ds|
  {
    if ds != [] {
      ApplyAllKeepsUniqueNoZero(s, ds[..|ds| - 1]);
      UpsertLevels(ApplyAll(s, ds[..|ds| - 1]), ds[|ds| - 1]);
      UpsertKeepsNoZero(ApplyAll(s, ds[..|ds| - 1]), ds[|ds| - 1]);
    }
  }

  /** Non-negative deltas keep every quantity positive. */
  lemma {:induction false} ApplyAllKeepsPositive(s: seq<Level>, ds: seq<Level>)
    requires Positive(s)
    requires forall k :: 0 <= k < |ds| ==> ds[k].qty >= 0
    ensures Positive(ApplyAll(s, ds))
    decreases |ds|
  {
    if ds != [] {
      ApplyAllKeepsPositive(s, ds[..|ds| - 1]);
      UpsertKeepsPositive(ApplyAll(s, ds[..|ds| - 1]), ds[|ds| - 1]);
    }
  }

  /** Insertion adds exactly `x`. */
  lemma {:induction false} InsertPermutes(side: Side, s: seq<Level>, x: Level)
    ensures multiset(Insert(side, s, x)) == multiset(s) + multiset{x}
  {
    if s != [] {
      assert s == [s[0]] + s[1..];
      if !Ahead(side, x.price, s[0].price) {
        InsertPermutes(side, s[1..], x);
      }
    }
  }

  /** A level placed in front of a sorted list that has nothing ahead of it keeps the list sorted. */
  lemma ConsSorted(side: Side, y: Level, t: seq<Level>)
    requires Sorted(side, t)
    requires forall z :: z in t ==> !Ahead(side, z.price, y.price)
    ensures Sorted(side, [y] + t)
  {
    var r := [y] + t;
    forall i, j | 0 <= i < j < |r|
      ensures !Ahead(side, r[j].price, r[i].price)
    {
      assert r[j] == t[j - 1];
      if i == 0 {
        assert t[j - 1] in t;
      } else {
        assert r[i] == t[i - 1];
      }
    }
  }

  /** Inserting into a sorted list keeps it sorted. */
  lemma {:induction false} InsertSorts(side: Side, s: seq<Level>, x: Level)
    requires Sorted(side, s)
    ensures Sorted(side, Insert(side, s, x))
  {
    if s == [] {
    } else if Ahead(side, x.price, s[0].price) {
      forall z | z in s
        ensures !Ahead(side, z.price, x.price)
      {
        var k :| 0 <= k < |s| && s[k] == z;
        assert k == 0 || !Ahead(side, s[k].price, s[0].price);
      }
      ConsSorted(side, x, s);
    } else {
      var t := Insert(side, s[1..], x);
      InsertSorts(side, s[1..], x);
      InsertPermutes(side, s[1..], x);
      forall z | z in t
        ensures !Ahead(side, z.price, s[0].price)
      {
        assert z in multiset(t);
        if z != x {
          var k :| 0 <= k < |s[1..]| && s[1..][k] == z;
          assert s[k + 1] == z;
        }
      }
      ConsSorted(side, s[0], t);
    }
  }

  /** `Sort` orders the list for the side and only rearranges it. */
  lemma {:induction false} SortSortsAndPermutes(side: Side, s: seq<Level>)
    ensures Sorted(side, Sort(side, s))
    ensures multiset(Sort(side, s)) == multiset(s)
    decreases |s|
  {
    if s != [] {
      var init := s[..|s| - 1];
      SortSortsAndPermutes(side, init);
      InsertSorts(side, Sort(side, init), s[|s| - 1]);
      InsertPermutes(side, Sort(side, init), s[|s| - 1]);
      assert s == init + [s[|s| - 1]];
    }
  }

  /** A list with unique prices holds each level once. */
  lemma {:induction false} UniqueOccursOnce(s: seq<Level>, x: Level)
    requires Unique(s)
    ensures multiset(s)[x] <= 1
    decreases |s|
  {
    if s != [] {
      var init := s[..|s| - 1];
      assert s == init + [s[|s| - 1]];
      assert Unique(init);
      UniqueOccursOnce(init, x);
      if s[|s| - 1] == x {
        assert x !in init;
      }
    }
  }

  /** A rearrangement of a list with unique prices has unique prices. */
  lemma PermutationKeepsUnique(a: seq<Level>, b: seq<Level>)
    requires multiset(a) == multiset(b) && Unique(a)
    ensures Unique(b)
  {
    forall i, j | 0 <= i < j < |b|
      ensures b[i].price != b[j].price
    {
      if b[i].price == b[j].price {
        assert b[i] in multiset(a) && b[j] in multiset(a);
        UniqueDeterminedByPrice(a, b[i], b[j]);
        assert b == b[..j] + [b[j]] + b[j + 1..];
        assert b[i] in b[..j];
        assert multiset(b)[b[j]] >= 2;
        UniqueOccursOnce(a, b[j]);
      }
    }
  }

  /** Sorting keeps prices unique and keeps the quantities. */
  lemma SortKeepsLevels(side: Side, s: seq<Level>)
    ensures forall x :: x in Sort(side, s) <==> x in s
    ensures Unique(s) ==> Unique(Sort(side, s))
    ensures NoZero(s) ==> NoZero(Sort(side, s))
    ensures Positive(s) ==> Positive(Sort(side, s))
  {
    SortSortsAndPermutes(side, s);
    var r := Sort(side, s);
    assert forall x :: x in r <==> x in multiset(r);
    if Unique(s) {
      PermutationKeepsUnique(s, r);
    }
    forall i | 0 <= i < |r|
      ensures r[i] in s
    {
      assert r[i] in multiset(r);
    }
  }

  /** Dropping the first level keeps a list sorted and its prices unique. */
  lemma TailKeepsOrder(side: Side, a: seq<Level>)
    requires a != []
    ensures Sorted(side, a) ==> Sorted(side, a[1..])
    ensures Unique(a) ==> Unique(a[1..])
  {
    assert forall i :: 0 <= i < |a| - 1 ==> a[1..][i] == a[i + 1];
  }

  /** Two sorted rearrangements of the same unique-price levels start with the same level. */
  lemma SortedSameHead(side: Side, a: seq<Level>, b: seq<Level>)
    requires Sorted(side, a) && Sorted(side, b) && Unique(a)
    requires multiset(a) == multiset(b) && a != []
    ensures b != [] && a[0] == b[0]
  {
    assert a[0] in multiset(b);
    var i :| 0 <= i < |b| && b[i] == a[0];
    assert b[0] in multiset(a);
    var j :| 0 <= j < |a| && a[j] == b[0];
    if a[0] != b[0] {
      assert false;
    }
  }

  /**
   * On unique prices the order of a sorted side is forced: two sorted
   * rearrangements of the same levels are the same list.
   */
  lemma {:induction false} SortedIsCanonical(side: Side, a: seq<Level>, b: seq<Level>)
    requires Sorted(side, a) && Sorted(side, b) && Unique(a)
    requires multiset(a) == multiset(b)
    ensures a == b
    decreases |a|
  {
    if a == [] {
      assert |b| == |multiset(b)| == 0;
    } else {
      SortedSameHead(side, a, b);
      var a', b' := a[1..], b[1..];
      assert a == [a[0]] + a' && b == [a[0]] + b';
      assert multiset(a') == multiset(b') by {
        assert multiset(a) == multiset{a[0]} + multiset(a');
        assert multiset(b) == multiset{a[0]} + multiset(b');
        forall z
          ensures multiset(a')[z] == multiset(b')[z]
        {
          assert multiset(a)[z] == multiset{a[0]}[z] + multiset(a')[z];
          assert multiset(b)[z] == multiset{a[0]}[z] + multiset(b')[z];
        }
      }
      TailKeepsOrder(side, a);
      TailKeepsOrder(side, b);
      SortedIsCanonical(side, a', b');
    }
  }
}

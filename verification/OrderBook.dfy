/** The order book of one market: two price-time ordered sides, an index from order id to
    key, and cached best prices. A `BTreeMap` side is a sequence in key order. */
module Books {
  import opened Options
  import opened Orders

  /** Sort key: bids carry the negated price, so smaller keys are better on both sides. */
  datatype OrderKey = OrderKey(priceKey: int, timestamp: nat, id: OrderId)

  predicate Less(a: OrderKey, b: OrderKey) {
    || a.priceKey < b.priceKey
    || (a.priceKey == b.priceKey && a.timestamp < b.timestamp)
    || (a.priceKey == b.priceKey && a.timestamp == b.timestamp && a.id < b.id)
  }

  function KeyOf(o: Order): OrderKey {
    match o.side
    case Buy => OrderKey(-o.price, o.timestamp, o.id)
    case Sell => OrderKey(o.price, o.timestamp, o.id)
  }

  // ---- One side, as an ordered map from key to order ----

  ghost predicate Sorted(q: seq<Order>) {
    forall i, j :: 0 <= i < j < |q| ==> Less(KeyOf(q[i]), KeyOf(q[j]))
  }

  /** Insert, replacing an order that has the same key. */
  function Put(q: seq<Order>, o: Order): seq<Order> {
    if q == [] then [o]
    else if KeyOf(o) == KeyOf(q[0]) then [o] + q[1..]
    else if Less(KeyOf(o), KeyOf(q[0])) then [o] + q
    else [q[0]] + Put(q[1..], o)
  }

  function Drop(q: seq<Order>, k: OrderKey): seq<Order> {
    if q == [] then []
    else if KeyOf(q[0]) == k then q[1..]
    else [q[0]] + Drop(q[1..], k)
  }

  function Lookup(q: seq<Order>, k: OrderKey): Option<Order> {
    if q == [] then None
    else if KeyOf(q[0]) == k then Some(q[0])
    else Lookup(q[1..], k)
  }

  /** Overwrite in place the order stored under the key of `o`. */
  function Overwrite(q: seq<Order>, o: Order): seq<Order> {
    if q == [] then []
    else if KeyOf(q[0]) == KeyOf(o) then [o] + q[1..]
    else [q[0]] + Overwrite(q[1..], o)
  }

  lemma {:induction false} PutMembers(q: seq<Order>, o: Order)
    requires Sorted(q)
    ensures Sorted(Put(q, o))
    ensures forall x :: x in Put(q, o) <==> x == o || (x in q && KeyOf(x) != KeyOf(o))
  {
    if q == [] {
    } else if KeyOf(o) == KeyOf(q[0]) {
      assert q == [q[0]] + q[1..];
    } else if Less(KeyOf(o), KeyOf(q[0])) {
    } else {
      PutMembers(q[1..], o);
      PutBehind(q, o, Put(q[1..], o));
    }
  }

  lemma PutBehind(q: seq<Order>, o: Order, r: seq<Order>)
    requires Sorted(q) && q != [] && Less(KeyOf(q[0]), KeyOf(o)) && Sorted(r)
    requires forall x :: x in r <==> x == o || (x in q[1..] && KeyOf(x) != KeyOf(o))
    ensures Sorted([q[0]] + r)
    ensures forall x :: x in [q[0]] + r <==> x == o || (x in q && KeyOf(x) != KeyOf(o))
  {
    assert q == [q[0]] + q[1..];
    forall j | 0 <= j < |r| ensures Less(KeyOf(q[0]), KeyOf(r[j])) { assert r[j] in r; }
  }

  lemma {:induction false} DropMembers(q: seq<Order>, k: OrderKey)
    requires Sorted(q)
    ensures Sorted(Drop(q, k))
    ensures forall x :: x in Drop(q, k) <==> x in q && KeyOf(x) != k
  {
    if q != [] {
      assert q == [q[0]] + q[1..];
      if KeyOf(q[0]) != k {
        DropMembers(q[1..], k);
        var r := Drop(q[1..], k);
        assert forall j :: 0 <= j < |r| ==> r[j] in r;
      }
    }
  }

  lemma {:induction false} LookupMembers(q: seq<Order>, k: OrderKey)
    requires Sorted(q)
    ensures Lookup(q, k).Some? ==> Lookup(q, k).value in q && KeyOf(Lookup(q, k).value) == k
    ensures forall x :: x in q && KeyOf(x) == k ==> Lookup(q, k) == Some(x)
  {
    if q != [] {
      assert q == [q[0]] + q[1..];
      if KeyOf(q[0]) != k {
        LookupMembers(q[1..], k);
      }
    }
  }

  lemma {:induction false} OverwriteMembers(q: seq<Order>, o: Order)
    requires Sorted(q) && exists was :: was in q && KeyOf(was) == KeyOf(o)
    ensures Sorted(Overwrite(q, o))
    ensures forall x :: x in Overwrite(q, o) <==> x == o || (x in q && KeyOf(x) != KeyOf(o))
    ensures |Overwrite(q, o)| == |q| > 0 && KeyOf(Overwrite(q, o)[0]) == KeyOf(q[0])
  {
    assert q == [q[0]] + q[1..];
    if KeyOf(q[0]) != KeyOf(o) {
      OverwriteMembers(q[1..], o);
      var r := Overwrite(q[1..], o);
      assert forall j :: 0 <= j < |r| ==> r[j] in r;
    }
  }

  /** In a sorted side the key identifies the order. */
  lemma SameKeySameOrder(q: seq<Order>, x: Order, y: Order)
    requires Sorted(q) && x in q && y in q && KeyOf(x) == KeyOf(y)
    ensures x == y
  {
  }

  /** A sorted side is determined by its members. */
  lemma {:induction false} SortedUnique(p: seq<Order>, q: seq<Order>)
    requires Sorted(p) && Sorted(q)
    requires forall x :: x in p <==> x in q
    ensures p == q
  {
    assert q != [] ==> q[0] in p;
    if p != [] {
      assert p[0] in q && q != [];
      var i :| 0 <= i < |q| && q[i] == p[0];
      var j :| 0 <= j < |p| && p[j] == q[0];
      assert p[0] == q[0];
      assert p == [p[0]] + p[1..] && q == [q[0]] + q[1..];
      assert p[0] !in p[1..] && q[0] !in q[1..];
      forall x ensures x in p[1..] <==> x in q[1..] {
        assert x in p <==> x in q;
      }
      SortedUnique(p[1..], q[1..]);
    }
  }

  // ---- The whole book ----

  datatype Book = Book(
    bids: seq<Order>, asks: seq<Order>, index: map<OrderId, OrderKey>,
    bestBid: Option<int>, bestAsk: Option<int>)

  const EMPTY_BOOK := Book([], [], map[], None, None)

  function BestPrice(q: seq<Order>): Option<int> {
    if q == [] then None else Some(q[0].price)
  }

  ghost predicate InBook(b: Book, o: Order) { o in b.bids || o in b.asks }

  ghost predicate HasId(b: Book, id: OrderId) { exists o :: InBook(b, o) && o.id == id }

  ghost predicate SideOk(q: seq<Order>, side: Side) {
    && Sorted(q)
    && forall o :: o in q ==> o.side == side && 0 < o.price && 0 < o.remaining
  }

  /** Index, caches and the two sides describe the same set of orders. */
  ghost predicate WellFormed(b: Book) {
    && SideOk(b.bids, Buy)
    && SideOk(b.asks, Sell)
    && (forall o :: InBook(b, o) ==> o.id in b.index && b.index[o.id] == KeyOf(o))
    && (forall id :: id in b.index ==> HasId(b, id))
    && b.bestBid == BestPrice(b.bids)
    && b.bestAsk == BestPrice(b.asks)
  }

  function Insert(b: Book, o: Order): Book {
    match o.side
    case Buy =>
      var bids := Put(b.bids, o);
      b.(bids := bids, index := b.index[o.id := KeyOf(o)], bestBid := BestPrice(bids))
    case Sell =>
      var asks := Put(b.asks, o);
      b.(asks := asks, index := b.index[o.id := KeyOf(o)], bestAsk := BestPrice(asks))
  }

  /** The side is recovered from the sign of the indexed key. */
  function Remove(b: Book, id: OrderId): Book {
    if id !in b.index then b
    else
      var k := b.index[id];
      if k.priceKey < 0 then
        var bids := Drop(b.bids, k);
        b.(bids := bids, index := b.index - {id}, bestBid := BestPrice(bids))
      else
        var asks := Drop(b.asks, k);
        b.(asks := asks, index := b.index - {id}, bestAsk := BestPrice(asks))
  }

  function Get(b: Book, id: OrderId): Option<Order> {
    if id !in b.index then None
    else if b.index[id].priceKey < 0 then Lookup(b.bids, b.index[id])
    else Lookup(b.asks, b.index[id])
  }

  /** Two orders of a well-formed book with the same id are the same order. */
  lemma SameIdSameOrder(b: Book, x: Order, y: Order)
    requires WellFormed(b) && InBook(b, x) && InBook(b, y) && x.id == y.id
    ensures x == y
  {
    assert KeyOf(x) == KeyOf(y);
    if x in b.bids && y in b.bids { SameKeySameOrder(b.bids, x, y); }
    if x in b.asks && y in b.asks { SameKeySameOrder(b.asks, x, y); }
  }

  /** Two well-formed books with the same orders are identical, index and caches included. */
  lemma BookDeterminedBySides(a: Book, b: Book)
    requires WellFormed(a) && WellFormed(b)
    requires forall o :: InBook(a, o) <==> InBook(b, o)
    ensures a == b
  {
    forall x ensures x in a.bids <==> x in b.bids {
      assert InBook(a, x) <==> InBook(b, x);
    }
    forall x ensures x in a.asks <==> x in b.asks {
      assert InBook(a, x) <==> InBook(b, x);
    }
    SortedUnique(a.bids, b.bids);
    SortedUnique(a.asks, b.asks);
    forall id ensures id in a.index <==> id in b.index {
      if id in a.index { assert HasId(a, id); }
      if id in b.index { assert HasId(b, id); }
    }
    forall id | id in a.index ensures a.index[id] == b.index[id] {
      var o :| InBook(a, o) && o.id == id;
      assert InBook(b, o);
    }
    assert a.index == b.index;
  }

  /** Insert keeps the book well formed and adds exactly the order, provided its id is new
      or already stands under the same key. */
  lemma InsertKeeps(b: Book, o: Order)
    requires WellFormed(b) && 0 < o.price && 0 < o.remaining
    requires o.id in b.index ==> b.index[o.id] == KeyOf(o)
    ensures WellFormed(Insert(b, o))
    ensures forall x :: InBook(Insert(b, o), x) <==> x == o || (InBook(b, x) && x.id != o.id)
  {
    var c := Insert(b, o);
    if o.side == Buy { PutMembers(b.bids, o); } else { PutMembers(b.asks, o); }
    forall x ensures InBook(c, x) <==> x == o || (InBook(b, x) && x.id != o.id) {
      if InBook(b, x) && x.id == o.id {
        assert KeyOf(x) == KeyOf(o);
      }
    }
    forall id | id in c.index ensures HasId(c, id) {
      if id == o.id {
        assert InBook(c, o);
      } else {
        assert HasId(b, id);
        var x :| InBook(b, x) && x.id == id;
        assert InBook(c, x);
      }
    }
  }

  /** Remove takes out exactly the order with that id, if there is one. */
  lemma RemoveKeeps(b: Book, id: OrderId)
    requires WellFormed(b)
    ensures WellFormed(Remove(b, id))
    ensures forall x :: InBook(Remove(b, id), x) <==> InBook(b, x) && x.id != id
    ensures Remove(b, id).index == b.index - {id}
  {
    var c := Remove(b, id);
    if id in b.index {
      assert HasId(b, id);
      var o :| InBook(b, o) && o.id == id;
      var k := b.index[id];
      if k.priceKey < 0 { DropMembers(b.bids, k); } else { DropMembers(b.asks, k); }
      forall x ensures InBook(c, x) <==> InBook(b, x) && x.id != id {
        if InBook(b, x) && x.id == id {
          SameIdSameOrder(b, x, o);
        }
      }
      forall i | i in c.index ensures HasId(c, i) {
        assert HasId(b, i);
        var x :| InBook(b, x) && x.id == i;
        assert InBook(c, x);
      }
    } else {
      assert b.index - {id} == b.index;
    }
  }

  /** Lookup by id answers exactly for the orders on the book. */
  lemma GetFinds(b: Book, id: OrderId)
    requires WellFormed(b)
    ensures Get(b, id).Some? ==> InBook(b, Get(b, id).value) && Get(b, id).value.id == id
    ensures forall x :: InBook(b, x) && x.id == id ==> Get(b, id) == Some(x)
    ensures Get(b, id).Some? <==> id in b.index
  {
    if id in b.index {
      assert HasId(b, id);
      var o :| InBook(b, o) && o.id == id;
      LookupMembers(b.bids, b.index[id]);
      LookupMembers(b.asks, b.index[id]);
      forall x | InBook(b, x) && x.id == id ensures Get(b, id) == Some(x) {
        SameIdSameOrder(b, x, o);
      }
    }
  }

  /** Replace a resting order by one with the same key and side. */
  function Refresh(b: Book, o: Order): Book {
    if o.side == Buy then b.(bids := Overwrite(b.bids, o)) else b.(asks := Overwrite(b.asks, o))
  }

  lemma RefreshMembers(b: Book, was: Order, o: Order)
    requires WellFormed(b) && InBook(b, was)
    requires KeyOf(o) == KeyOf(was) && o.side == was.side && 0 < o.remaining
    ensures forall x :: InBook(Refresh(b, o), x) <==> x == o || (InBook(b, x) && x.id != o.id)
    ensures SideOk(Refresh(b, o).bids, Buy) && SideOk(Refresh(b, o).asks, Sell)
    ensures BestPrice(Refresh(b, o).bids) == b.bestBid && BestPrice(Refresh(b, o).asks) == b.bestAsk
  {
    var q := if o.side == Buy then b.bids else b.asks;
    OverwriteMembers(q, o);
    forall x ensures InBook(Refresh(b, o), x) <==> x == o || (InBook(b, x) && x.id != o.id) {
      if InBook(b, x) && x.id == o.id { SameIdSameOrder(b, x, was); }
    }
    assert q[0] in q && Overwrite(q, o)[0] in Overwrite(q, o);
  }

  lemma RefreshKeeps(b: Book, was: Order, o: Order)
    requires WellFormed(b) && InBook(b, was)
    requires KeyOf(o) == KeyOf(was) && o.side == was.side && 0 < o.remaining
    ensures WellFormed(Refresh(b, o))
    ensures forall x :: InBook(Refresh(b, o), x) <==> x == o || (InBook(b, x) && x.id != o.id)
    ensures Refresh(b, o).index == b.index
  {
    RefreshMembers(b, was, o);
    var c := Refresh(b, o);
    forall i | i in c.index ensures HasId(c, i) {
      assert HasId(b, i);
      var x :| InBook(b, x) && x.id == i;
      assert InBook(c, if x.id == o.id then o else x);
    }
  }

  /** Inserting an order that is already on the book changes nothing. */
  lemma InsertIdempotent(b: Book, o: Order)
    requires WellFormed(b) && InBook(b, o)
    ensures Insert(b, o) == b
  {
    InsertKeeps(b, o);
    forall x ensures InBook(Insert(b, o), x) <==> InBook(b, x) {
      if InBook(b, x) && x.id == o.id { SameIdSameOrder(b, x, o); }
    }
    BookDeterminedBySides(Insert(b, o), b);
  }

  lemma KeyIsNew(q: seq<Order>, o: Order)
    requires forall x :: x in q ==> x.id != o.id
    ensures forall x :: x in q ==> KeyOf(x) != KeyOf(o)
  {
  }

  /** Putting a new order in and dropping its key again leaves the side as it was. */
  lemma DropUndoesPut(q: seq<Order>, o: Order)
    requires Sorted(q) && forall x :: x in q ==> x.id != o.id
    ensures Drop(Put(q, o), KeyOf(o)) == q
  {
    KeyIsNew(q, o);
    PutMembers(q, o);
    DropMembers(Put(q, o), KeyOf(o));
    SortedUnique(Drop(Put(q, o), KeyOf(o)), q);
  }

  /** On every book: the side test on the key's sign answers correctly exactly for positive bid prices and
      non-negative ask prices, and only then does removal find what insertion stored. */
  lemma RemoveUndoesInsertIff(b: Book, o: Order)
    requires WellFormed(b) && o.id !in b.index
    ensures Remove(Insert(b, o), o.id) == b <==> (if o.side == Buy then 0 < o.price else 0 <= o.price)
  {
    forall x | InBook(b, x) ensures x.id != o.id {}
    assert b.index[o.id := KeyOf(o)] - {o.id} == b.index;
    if o.side == Buy {
      DropUndoesPut(b.bids, o);
      PutMembers(b.bids, o);
      assert o in Put(b.bids, o) && o !in b.bids;
    } else {
      DropUndoesPut(b.asks, o);
      PutMembers(b.asks, o);
      assert o in Put(b.asks, o) && o !in b.asks;
    }
  }

  // ---- The object ----

  class OrderBook {
    var bids: seq<Order>
    var asks: seq<Order>
    var index: map<OrderId, OrderKey>
    var bestBid: Option<int>
    var bestAsk: Option<int>

    function Contents(): Book
      reads this
    {
      Book(bids, asks, index, bestBid, bestAsk)
    }

    /** Load a book value. */
    constructor (b: Book)
      ensures Contents() == b
    {
      bids, asks, index, bestBid, bestAsk := b.bids, b.asks, b.index, b.bestBid, b.bestAsk;
    }

    /** Rebuild a book from the saved orders of its two sides. */
    constructor FromSnapshot(savedBids: seq<Order>, savedAsks: seq<Order>)
      ensures Contents() == InsertAll(InsertAll(EMPTY_BOOK, savedBids), savedAsks)
    {
      bids, asks, index, bestBid, bestAsk := [], [], map[], None, None;
      new;
      for i := 0 to |savedBids|
        invariant InsertAll(Contents(), savedBids[i..]) == InsertAll(EMPTY_BOOK, savedBids)
      {
        InsertOrder(savedBids[i]);
      }
      ghost var half := Contents();
      assert savedBids[|savedBids|..] == [];
      for i := 0 to |savedAsks|
        invariant InsertAll(Contents(), savedAsks[i..]) == InsertAll(half, savedAsks)
      {
        InsertOrder(savedAsks[i]);
      }
      assert savedAsks[|savedAsks|..] == [];
    }

    method InsertOrder(o: Order)
      modifies this
      ensures Contents() == Insert(old(Contents()), o)
    {
      index := index[o.id := KeyOf(o)];
      if o.side == Buy {
        bids := Put(bids, o);
        bestBid := BestPrice(bids);
      } else {
        asks := Put(asks, o);
        bestAsk := BestPrice(asks);
      }
    }

    method RemoveOrder(id: OrderId) returns (found: Option<Order>)
      modifies this
      ensures Contents() == Remove(old(Contents()), id)
      ensures found == Get(old(Contents()), id)
    {
      if id !in index {
        return None;
      }
      var k := index[id];
      index := index - {id};
      if k.priceKey < 0 {
        found := Lookup(bids, k);
        bids := Drop(bids, k);
        bestBid := BestPrice(bids);
      } else {
        found := Lookup(asks, k);
        asks := Drop(asks, k);
        bestAsk := BestPrice(asks);
      }
    }

    /** Fill part of a resting order in place. */
    method FillResting(id: OrderId, size: int)
      modifies this
      ensures Contents() ==
        match Get(old(Contents()), id)
        case None => old(Contents())
        case Some(o) =>
          if old(index[id]).priceKey < 0
          then old(Contents()).(bids := Overwrite(old(bids), o.Fill(size)))
          else old(Contents()).(asks := Overwrite(old(asks), o.Fill(size)))
    {
      if id !in index {
        return;
      }
      var k := index[id];
      if k.priceKey < 0 {
        var o := Lookup(bids, k);
        if o.Some? { bids := Overwrite(bids, o.value.Fill(size)); }
      } else {
        var o := Lookup(asks, k);
        if o.Some? { asks := Overwrite(asks, o.value.Fill(size)); }
      }
    }
  }

  function InsertAll(b: Book, orders: seq<Order>): Book
    decreases orders
  {
    if orders == [] then b else InsertAll(Insert(b, orders[0]), orders[1..])
  }

  /** Loading any list of well-priced orders with distinct ids into an empty book gives a
      well-formed book that holds exactly those orders. */
  lemma {:induction false} InsertAllKeeps(b: Book, orders: seq<Order>)
    requires WellFormed(b)
    requires forall o :: o in orders ==> 0 < o.price && 0 < o.remaining
    requires forall o :: o in orders ==> o.id !in b.index
    requires forall i, j :: 0 <= i < j < |orders| ==> orders[i].id != orders[j].id
    ensures WellFormed(InsertAll(b, orders))
    ensures forall x :: InBook(InsertAll(b, orders), x) <==> x in orders || InBook(b, x)
    decreases orders
  {
    if orders != [] {
      var o := orders[0];
      InsertKeeps(b, o);
      InsertAllKeeps(Insert(b, o), orders[1..]);
      assert orders == [o] + orders[1..];
      forall x ensures InBook(Insert(b, o), x) <==> x == o || InBook(b, x) {
        if InBook(b, x) { assert x.id in b.index; }
      }
    }
  }

  /** Saving a book and rebuilding it gives back the same book, index and caches included. */
  lemma SnapshotRoundTrip(b: Book)
    requires WellFormed(b)
    ensures InsertAll(InsertAll(EMPTY_BOOK, b.bids), b.asks) == b
  {
    DistinctIds(b);
    InsertAllKeeps(EMPTY_BOOK, b.bids);
    var half := InsertAll(EMPTY_BOOK, b.bids);
    forall id | id in half.index ensures forall o :: o in b.asks ==> o.id != id {
      assert HasId(half, id);
    }
    InsertAllKeeps(half, b.asks);
    BookDeterminedBySides(InsertAll(half, b.asks), b);
  }

  lemma DistinctIds(b: Book)
    requires WellFormed(b)
    ensures forall i, j :: 0 <= i < j < |b.bids| ==> b.bids[i].id != b.bids[j].id
    ensures forall i, j :: 0 <= i < j < |b.asks| ==> b.asks[i].id != b.asks[j].id
    ensures forall x, y :: x in b.bids && y in b.asks ==> x.id != y.id
  {
    forall i, j | 0 <= i < j < |b.bids| ensures b.bids[i].id != b.bids[j].id {
      assert Less(KeyOf(b.bids[i]), KeyOf(b.bids[j]));
      assert InBook(b, b.bids[i]) && InBook(b, b.bids[j]);
    }
    forall i, j | 0 <= i < j < |b.asks| ensures b.asks[i].id != b.asks[j].id {
      assert Less(KeyOf(b.asks[i]), KeyOf(b.asks[j]));
      assert InBook(b, b.asks[i]) && InBook(b, b.asks[j]);
    }
    forall x, y | x in b.bids && y in b.asks ensures x.id != y.id {
      assert InBook(b, x) && InBook(b, y);
    }
  }
}

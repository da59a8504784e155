/** Stored take-profit and stop-loss orders: per direction an ordered map from trigger price to
    the orders waiting there, and an index from order id to its place. */
module Triggers {
  import opened Options
  import opened Orders

  datatype Bucket = Bucket(price: int, orders: seq<Order>)

  datatype TriggerState = TriggerState(
    above: seq<Bucket>, below: seq<Bucket>, index: map<OrderId, (TriggerDirection, int)>)

  const NO_TRIGGERS := TriggerState([], [], map[])

  function Side(ts: TriggerState, d: TriggerDirection): seq<Bucket> {
    if d == Above then ts.above else ts.below
  }

  function WithSide(ts: TriggerState, d: TriggerDirection, bs: seq<Bucket>): TriggerState {
    if d == Above then ts.(above := bs) else ts.(below := bs)
  }

  /** All orders of one direction, bucket after bucket. */
  function Flat(bs: seq<Bucket>): seq<Order> {
    if bs == [] then [] else bs[0].orders + Flat(bs[1..])
  }

  function Count(ts: TriggerState): nat { |Flat(ts.above)| + |Flat(ts.below)| }

  // ---- Adding ----

  /** Append to the bucket at `price`, opening it if needed. */
  function Push(bs: seq<Bucket>, price: int, o: Order): seq<Bucket> {
    if bs == [] || price < bs[0].price then [Bucket(price, [o])] + bs
    else if bs[0].price == price then [Bucket(price, bs[0].orders + [o])] + bs[1..]
    else [bs[0]] + Push(bs[1..], price, o)
  }

  /** An order without trigger price or direction is not stored. */
  function Add(ts: TriggerState, o: Order): TriggerState {
    if o.triggerPrice.None? || o.triggerDirection.None? then ts
    else
      var d, p := o.triggerDirection.value, o.triggerPrice.value;
      WithSide(ts, d, Push(Side(ts, d), p, o)).(index := ts.index[o.id := (d, p)])
  }

  // ---- Removing ----

  /** Drop the first order with this id. */
  function Without(orders: seq<Order>, id: OrderId): seq<Order> {
    if orders == [] then []
    else if orders[0].id == id then orders[1..]
    else [orders[0]] + Without(orders[1..], id)
  }

  /** Drop the order from the bucket at `price`; an emptied bucket goes too. */
  function Pull(bs: seq<Bucket>, price: int, id: OrderId): seq<Bucket> {
    if bs == [] then []
    else if bs[0].price == price then
      var left := Without(bs[0].orders, id);
      if left == [] then bs[1..] else [Bucket(price, left)] + bs[1..]
    else [bs[0]] + Pull(bs[1..], price, id)
  }

  function RemoveTrigger(ts: TriggerState, id: OrderId): TriggerState {
    if id !in ts.index then ts
    else
      var (d, p) := ts.index[id];
      WithSide(ts, d, Pull(Side(ts, d), p, id)).(index := ts.index - {id})
  }

  function RemoveTriggers(ts: TriggerState, ids: seq<OrderId>): TriggerState
    decreases ids
  {
    if ids == [] then ts else RemoveTriggers(RemoveTrigger(ts, ids[0]), ids[1..])
  }

  function IdsOf(orders: seq<Order>, owner: Account): seq<OrderId> {
    if orders == [] then []
    else (if orders[0].owner == owner then [orders[0].id] else []) + IdsOf(orders[1..], owner)
  }

  /** Cancel every trigger of an account, as happens when its position goes flat. */
  function CancelFor(ts: TriggerState, owner: Account): TriggerState {
    RemoveTriggers(ts, IdsOf(Flat(ts.above), owner) + IdsOf(Flat(ts.below), owner))
  }

  // ---- Firing ----

  predicate Fires(d: TriggerDirection, price: int, mark: int) {
    if d == Above then price <= mark else price >= mark
  }

  function Kept(d: TriggerDirection, bs: seq<Bucket>, mark: int): seq<Bucket> {
    if bs == [] then []
    else if Fires(d, bs[0].price, mark) then Kept(d, bs[1..], mark)
    else [bs[0]] + Kept(d, bs[1..], mark)
  }

  function Fired(d: TriggerDirection, bs: seq<Bucket>, mark: int): seq<Order> {
    if bs == [] then []
    else (if Fires(d, bs[0].price, mark) then bs[0].orders else []) + Fired(d, bs[1..], mark)
  }

  function Ids(orders: seq<Order>): set<OrderId> { set o | o in orders :: o.id }

  /** Take out every order of direction `d` whose price the mark has reached. */
  function Pop(ts: TriggerState, d: TriggerDirection, mark: int): TriggerState {
    WithSide(ts, d, Kept(d, Side(ts, d), mark)).(index := ts.index - Ids(Fired(d, Side(ts, d), mark)))
  }

  function PopAll(ts: TriggerState, mark: int): TriggerState { Pop(Pop(ts, Above, mark), Below, mark) }

  function InsertById(orders: seq<Order>, o: Order): seq<Order> {
    if orders == [] then [o]
    else if o.id <= orders[0].id then [o] + orders
    else [orders[0]] + InsertById(orders[1..], o)
  }

  function SortById(orders: seq<Order>): seq<Order> {
    if orders == [] then [] else InsertById(SortById(orders[1..]), orders[0])
  }

  /** Everything that fires at `mark`, in order of id. */
  function AllFired(ts: TriggerState, mark: int): seq<Order> {
    SortById(Fired(Above, ts.above, mark) + Fired(Below, ts.below, mark))
  }

  // ---- Counting ----

  lemma FlatCons(b: Bucket, bs: seq<Bucket>)
    ensures Flat([b] + bs) == b.orders + Flat(bs)
  {
    assert ([b] + bs)[1..] == bs;
  }

  lemma {:induction false} PushCount(bs: seq<Bucket>, price: int, o: Order)
    ensures |Flat(Push(bs, price, o))| == |Flat(bs)| + 1
  {
    if bs != [] && price > bs[0].price { PushCount(bs[1..], price, o); }
  }

  lemma {:induction false} PullCount(bs: seq<Bucket>, price: int, id: OrderId)
    ensures |Flat(Pull(bs, price, id))| <= |Flat(bs)|
  {
    if bs != [] {
      WithoutCount(bs[0].orders, id);
      if bs[0].price != price {
        PullCount(bs[1..], price, id);
        FlatCons(bs[0], Pull(bs[1..], price, id));
      } else {
        FlatCons(Bucket(price, Without(bs[0].orders, id)), bs[1..]);
      }
    }
  }

  lemma WithoutCount(orders: seq<Order>, id: OrderId)
    ensures |Without(orders, id)| <= |orders|
  {
  }

  lemma {:induction false} KeptCount(d: TriggerDirection, bs: seq<Bucket>, mark: int)
    ensures |Flat(Kept(d, bs, mark))| + |Fired(d, bs, mark)| == |Flat(bs)|
  {
    if bs != [] {
      KeptCount(d, bs[1..], mark);
      FlatCons(bs[0], Kept(d, bs[1..], mark));
    }
  }

  lemma AddCount(ts: TriggerState, o: Order)
    ensures Count(Add(ts, o)) <= Count(ts) + 1
  {
    if o.triggerPrice.Some? && o.triggerDirection.Some? {
      PushCount(Side(ts, o.triggerDirection.value), o.triggerPrice.value, o);
    }
  }

  lemma {:induction false} RemoveTriggersCount(ts: TriggerState, ids: seq<OrderId>)
    ensures Count(RemoveTriggers(ts, ids)) <= Count(ts)
    decreases ids
  {
    if ids != [] {
      if ids[0] in ts.index {
        var (d, p) := ts.index[ids[0]];
        PullCount(Side(ts, d), p, ids[0]);
      }
      RemoveTriggersCount(RemoveTrigger(ts, ids[0]), ids[1..]);
    }
  }

  lemma SortByIdLength(orders: seq<Order>)
    ensures |SortById(orders)| == |orders|
  {
    if orders != [] { InsertByIdLength(SortById(orders[1..]), orders[0]); }
  }

  lemma InsertByIdLength(orders: seq<Order>, o: Order)
    ensures |InsertById(orders, o)| == |orders| + 1
  {
  }

  /** Every order that fires leaves the store, and nothing else does. */
  lemma PopAllCount(ts: TriggerState, mark: int)
    ensures Count(PopAll(ts, mark)) + |AllFired(ts, mark)| == Count(ts)
  {
    KeptCount(Above, ts.above, mark);
    KeptCount(Below, ts.below, mark);
    SortByIdLength(Fired(Above, ts.above, mark) + Fired(Below, ts.below, mark));
  }

  // ---- Membership and the index ----

  /** The orders waiting at `price`. */
  function At(bs: seq<Bucket>, price: int): seq<Order> {
    if bs == [] then [] else if bs[0].price == price then bs[0].orders else At(bs[1..], price)
  }

  ghost predicate Ordered(bs: seq<Bucket>) {
    && (forall i, j :: 0 <= i < j < |bs| ==> bs[i].price < bs[j].price)
    && (forall i :: 0 <= i < |bs| ==> bs[i].orders != [])
  }

  ghost predicate PlacedAt(o: Order, d: TriggerDirection, price: int) {
    o.triggerPrice == Some(price) && o.triggerDirection == Some(d)
  }

  /** The orders at one price: all of that price and direction, indexed there, each id once. */
  ghost predicate ListedAt(ts: TriggerState, d: TriggerDirection, price: int) {
    var orders := At(Side(ts, d), price);
    && OncePerId(orders)
    && forall o :: o in orders ==> PlacedAt(o, d, price) && o.id in ts.index && ts.index[o.id] == (d, price)
  }

  ghost predicate HasIdAt(ts: TriggerState, d: TriggerDirection, price: int, id: OrderId) {
    exists o :: o in At(Side(ts, d), price) && o.id == id
  }

  /** Index and buckets hold the same orders, each id once. */
  ghost predicate TriggersOk(ts: TriggerState) {
    && Ordered(ts.above) && Ordered(ts.below)
    && (forall d, price :: ListedAt(ts, d, price))
    && (forall id :: id in ts.index ==> HasIdAt(ts, ts.index[id].0, ts.index[id].1, id))
  }

  /** The order is stored, in the place its own fields name. */
  ghost predicate Stored(ts: TriggerState, o: Order) {
    o.triggerPrice.Some? && o.triggerDirection.Some? &&
    o in At(Side(ts, o.triggerDirection.value), o.triggerPrice.value)
  }

  lemma {:induction false} PushOrdered(bs: seq<Bucket>, price: int, o: Order)
    requires Ordered(bs)
    ensures Ordered(Push(bs, price, o))
    ensures Push(bs, price, o)[0].price == if bs == [] || price < bs[0].price then price else bs[0].price
  {
    var r := Push(bs, price, o);
    if bs != [] && price >= bs[0].price {
      if bs[0].price == price {
        assert r[1..] == bs[1..];
      } else {
        assert r[1..] == Push(bs[1..], price, o);
        PushOrdered(bs[1..], price, o);
      }
    }
  }

  lemma {:induction false} PushAt(bs: seq<Bucket>, price: int, o: Order, x: int)
    requires Ordered(bs)
    ensures At(Push(bs, price, o), x) == if x == price then At(bs, price) + [o] else At(bs, x)
  {
    var r := Push(bs, price, o);
    if bs == [] || price < bs[0].price {
      assert r[1..] == bs;
      AbsentAt(bs, price);
    } else if bs[0].price == price {
      assert r[1..] == bs[1..];
    } else {
      assert r[1..] == Push(bs[1..], price, o);
      PushAt(bs[1..], price, o, x);
    }
  }

  lemma {:induction false} AbsentAt(bs: seq<Bucket>, price: int)
    requires Ordered(bs) && (bs == [] || price < bs[0].price)
    ensures At(bs, price) == []
  {
    if bs != [] { AbsentAt(bs[1..], price); }
  }

  lemma {:induction false} PullOrdered(bs: seq<Bucket>, price: int, id: OrderId)
    requires Ordered(bs)
    ensures Ordered(Pull(bs, price, id))
    ensures Pull(bs, price, id) != [] ==> bs != [] && bs[0].price <= Pull(bs, price, id)[0].price
  {
    if bs != [] {
      if bs[0].price != price { PullOrdered(bs[1..], price, id); }
    }
  }

  lemma {:induction false} PullAt(bs: seq<Bucket>, price: int, id: OrderId, x: int)
    requires Ordered(bs)
    ensures At(Pull(bs, price, id), x) == if x == price then Without(At(bs, price), id) else At(bs, x)
  {
    var r := Pull(bs, price, id);
    if bs != [] {
      if bs[0].price != price {
        assert r[1..] == Pull(bs[1..], price, id);
        PullAt(bs[1..], price, id, x);
      } else if Without(bs[0].orders, id) == [] {
        assert r == bs[1..];
        AbsentAt(bs[1..], price);
      } else {
        assert r[1..] == bs[1..];
      }
    }
  }

  lemma {:induction false} KeptAt(d: TriggerDirection, bs: seq<Bucket>, mark: int, x: int)
    requires Ordered(bs)
    ensures Ordered(Kept(d, bs, mark))
    ensures At(Kept(d, bs, mark), x) == if Fires(d, x, mark) then [] else At(bs, x)
    ensures Kept(d, bs, mark) != [] ==> bs != [] && bs[0].price <= Kept(d, bs, mark)[0].price
  {
    if bs != [] {
      KeptAt(d, bs[1..], mark, x);
      var rest := Kept(d, bs[1..], mark);
      if Fires(d, bs[0].price, mark) {
        assert Kept(d, bs, mark) == rest;
      } else {
        assert Kept(d, bs, mark)[1..] == rest;
      }
    }
  }

  lemma {:induction false} AtFlat(bs: seq<Bucket>, price: int, o: Order)
    requires o in At(bs, price)
    ensures o in Flat(bs)
  {
    if bs[0].price != price { AtFlat(bs[1..], price, o); }
  }

  /** Enumerating the buckets meets exactly the orders found by price. */
  lemma {:induction false} FlatAt(bs: seq<Bucket>, o: Order) returns (price: int)
    requires Ordered(bs) && o in Flat(bs)
    ensures o in At(bs, price)
  {
    if o in bs[0].orders {
      price := bs[0].price;
    } else {
      price := FlatAt(bs[1..], o);
      if price == bs[0].price { AbsentAt(bs[1..], price); }
    }
  }

  lemma {:induction false} FiredAt(d: TriggerDirection, bs: seq<Bucket>, mark: int, o: Order)
    requires Ordered(bs)
    ensures o in Fired(d, bs, mark) <==> exists price :: Fires(d, price, mark) && o in At(bs, price)
  {
    if bs != [] {
      FiredAt(d, bs[1..], mark, o);
      if o in bs[0].orders { assert o in At(bs, bs[0].price); }
      if o in Fired(d, bs[1..], mark) {
        var price :| Fires(d, price, mark) && o in At(bs[1..], price);
        if price == bs[0].price { AbsentAt(bs[1..], price); }
        assert o in At(bs, price);
      }
    }
  }

  lemma {:induction false} WithoutMembers(orders: seq<Order>, id: OrderId)
    requires OncePerId(orders)
    ensures OncePerId(Without(orders, id))
    ensures forall x :: x in Without(orders, id) <==> x in orders && x.id != id
  {
    if orders != [] {
      assert orders == [orders[0]] + orders[1..];
      WithoutMembers(orders[1..], id);
      var r := Without(orders[1..], id);
      assert forall j :: 0 <= j < |r| ==> r[j] in r;
    }
  }

  /** In a consistent store, "stored" and "found at some price" are the same. */
  lemma StoredAt(ts: TriggerState, d: TriggerDirection, price: int, o: Order)
    requires TriggersOk(ts) && o in At(Side(ts, d), price)
    ensures PlacedAt(o, d, price) && Stored(ts, o) && o.id in ts.index && ts.index[o.id] == (d, price)
  {
    assert ListedAt(ts, d, price);
  }

  lemma AddAt(ts: TriggerState, o: Order, d: TriggerDirection, price: int)
    requires TriggersOk(ts) && o.triggerPrice.Some? && o.triggerDirection.Some?
    ensures At(Side(Add(ts, o), d), price) ==
      if PlacedAt(o, d, price) then At(Side(ts, d), price) + [o] else At(Side(ts, d), price)
    ensures Ordered(Side(Add(ts, o), d))
  {
    PushOrdered(Side(ts, o.triggerDirection.value), o.triggerPrice.value, o);
    PushAt(Side(ts, o.triggerDirection.value), o.triggerPrice.value, o, price);
  }

  lemma AddListed(ts: TriggerState, o: Order, d: TriggerDirection, price: int)
    requires TriggersOk(ts) && o.id !in ts.index && o.triggerPrice.Some? && o.triggerDirection.Some?
    ensures ListedAt(Add(ts, o), d, price)
  {
    AddAt(ts, o, d, price);
    assert ListedAt(ts, d, price);
    ExtendDistinct(At(Side(ts, d), price), o);
  }

  lemma ExtendDistinct(orders: seq<Order>, o: Order)
    requires OncePerId(orders)
    ensures (forall x :: x in orders ==> x.id != o.id) ==> OncePerId(orders + [o])
  {
    assert forall i :: 0 <= i < |orders| ==> orders[i] in orders;
  }

  /** Adding keeps index and buckets in agreement, for a new id. */
  lemma AddKeeps(ts: TriggerState, o: Order)
    requires TriggersOk(ts) && o.id !in ts.index
    ensures TriggersOk(Add(ts, o))
    ensures forall x :: Stored(Add(ts, o), x) <==>
      Stored(ts, x) || (x == o && o.triggerPrice.Some? && o.triggerDirection.Some?)
  {
    if o.triggerPrice.Some? && o.triggerDirection.Some? {
      var us := Add(ts, o);
      AddAt(ts, o, Above, 0);
      AddAt(ts, o, Below, 0);
      forall d, price ensures ListedAt(us, d, price) {
        AddListed(ts, o, d, price);
      }
      forall id | id in us.index ensures HasIdAt(us, us.index[id].0, us.index[id].1, id) {
        AddAt(ts, o, us.index[id].0, us.index[id].1);
        if id == o.id {
          assert o in At(Side(us, o.triggerDirection.value), o.triggerPrice.value);
        } else {
          assert HasIdAt(ts, ts.index[id].0, ts.index[id].1, id);
        }
      }
      forall x ensures Stored(us, x) <==> Stored(ts, x) || x == o {
        if x.triggerPrice.Some? && x.triggerDirection.Some? {
          AddAt(ts, o, x.triggerDirection.value, x.triggerPrice.value);
        }
      }
    }
  }

  lemma RemoveAt(ts: TriggerState, id: OrderId, d: TriggerDirection, price: int)
    requires TriggersOk(ts) && id in ts.index
    ensures At(Side(RemoveTrigger(ts, id), d), price) ==
      if ts.index[id] == (d, price) then Without(At(Side(ts, d), price), id) else At(Side(ts, d), price)
    ensures Ordered(Side(RemoveTrigger(ts, id), d))
  {
    PullAt(Side(ts, ts.index[id].0), ts.index[id].1, id, price);
    PullOrdered(Side(ts, ts.index[id].0), ts.index[id].1, id);
  }

  lemma RemoveMembers(ts: TriggerState, id: OrderId, d: TriggerDirection, price: int)
    requires TriggersOk(ts) && id in ts.index
    ensures OncePerId(At(Side(RemoveTrigger(ts, id), d), price))
    ensures forall o :: o in At(Side(RemoveTrigger(ts, id), d), price) <==> o in At(Side(ts, d), price) && o.id != id
  {
    RemoveAt(ts, id, d, price);
    assert ListedAt(ts, d, price);
    WithoutMembers(At(Side(ts, d), price), id);
  }

  lemma RemoveListed(ts: TriggerState, id: OrderId, d: TriggerDirection, price: int)
    requires TriggersOk(ts) && id in ts.index
    ensures ListedAt(RemoveTrigger(ts, id), d, price)
  {
    RemoveMembers(ts, id, d, price);
    forall o | o in At(Side(RemoveTrigger(ts, id), d), price)
      ensures PlacedAt(o, d, price) && o.id in ts.index - {id} && ts.index[o.id] == (d, price)
    {
      StoredAt(ts, d, price, o);
    }
  }

  /** Removing by id takes out exactly the order with that id. */
  lemma RemoveTriggerKeeps(ts: TriggerState, id: OrderId)
    requires TriggersOk(ts)
    ensures TriggersOk(RemoveTrigger(ts, id))
    ensures forall o :: Stored(RemoveTrigger(ts, id), o) <==> Stored(ts, o) && o.id != id
  {
    var us := RemoveTrigger(ts, id);
    if id in ts.index {
      RemoveAt(ts, id, Above, 0);
      RemoveAt(ts, id, Below, 0);
      forall d, price ensures ListedAt(us, d, price) {
        RemoveListed(ts, id, d, price);
      }
      forall i | i in us.index ensures HasIdAt(us, us.index[i].0, us.index[i].1, i) {
        RemoveMembers(ts, id, us.index[i].0, us.index[i].1);
        assert HasIdAt(ts, ts.index[i].0, ts.index[i].1, i);
      }
      forall o ensures Stored(us, o) <==> Stored(ts, o) && o.id != id {
        if o.triggerPrice.Some? && o.triggerDirection.Some? {
          RemoveMembers(ts, id, o.triggerDirection.value, o.triggerPrice.value);
        }
      }
    } else {
      forall o | Stored(ts, o) ensures o.id != id {
        StoredAt(ts, o.triggerDirection.value, o.triggerPrice.value, o);
      }
    }
  }

  lemma {:induction false} RemoveTriggersKeeps(ts: TriggerState, ids: seq<OrderId>)
    requires TriggersOk(ts)
    ensures TriggersOk(RemoveTriggers(ts, ids))
    ensures forall o :: Stored(RemoveTriggers(ts, ids), o) <==> Stored(ts, o) && o.id !in ids
    decreases ids
  {
    if ids != [] {
      var us := RemoveTrigger(ts, ids[0]);
      RemoveTriggerKeeps(ts, ids[0]);
      RemoveTriggersKeeps(us, ids[1..]);
      forall o ensures Stored(RemoveTriggers(ts, ids), o) <==> Stored(ts, o) && o.id !in ids {
        assert o.id in ids <==> o.id == ids[0] || o.id in ids[1..];
        assert Stored(us, o) <==> Stored(ts, o) && o.id != ids[0];
      }
    }
  }

  ghost predicate OwnsIn(orders: seq<Order>, owner: Account, id: OrderId) {
    exists o :: o in orders && o.owner == owner && o.id == id
  }

  lemma {:induction false} IdsOfMembers(orders: seq<Order>, owner: Account, id: OrderId)
    ensures id in IdsOf(orders, owner) <==> OwnsIn(orders, owner, id)
  {
    if orders != [] {
      IdsOfMembers(orders[1..], owner, id);
      assert orders == [orders[0]] + orders[1..];
    }
  }

  lemma StoredFlat(ts: TriggerState, o: Order)
    requires TriggersOk(ts)
    ensures Stored(ts, o) <==> o in Flat(ts.above) || o in Flat(ts.below)
  {
    if o in Flat(ts.above) {
      var price := FlatAt(ts.above, o);
      StoredAt(ts, Above, price, o);
    }
    if o in Flat(ts.below) {
      var price := FlatAt(ts.below, o);
      StoredAt(ts, Below, price, o);
    }
    if Stored(ts, o) {
      AtFlat(Side(ts, o.triggerDirection.value), o.triggerPrice.value, o);
    }
  }

  /** Two stored orders with one id are the same order. */
  lemma StoredOnce(ts: TriggerState, x: Order, y: Order)
    requires TriggersOk(ts) && Stored(ts, x) && Stored(ts, y) && x.id == y.id
    ensures x == y
  {
    StoredAt(ts, x.triggerDirection.value, x.triggerPrice.value, x);
    StoredAt(ts, y.triggerDirection.value, y.triggerPrice.value, y);
    assert ListedAt(ts, x.triggerDirection.value, x.triggerPrice.value);
  }

  /** Cancelling for an account removes all its triggers and nobody else's. */
  lemma CancelForExact(ts: TriggerState, owner: Account)
    requires TriggersOk(ts)
    ensures TriggersOk(CancelFor(ts, owner))
    ensures forall o :: Stored(CancelFor(ts, owner), o) <==> Stored(ts, o) && o.owner != owner
  {
    var ids := IdsOf(Flat(ts.above), owner) + IdsOf(Flat(ts.below), owner);
    RemoveTriggersKeeps(ts, ids);
    forall o | Stored(ts, o) ensures o.id in ids <==> o.owner == owner {
      IdsOfMembers(Flat(ts.above), owner, o.id);
      IdsOfMembers(Flat(ts.below), owner, o.id);
      StoredFlat(ts, o);
      if o.id in ids {
        var x :| (x in Flat(ts.above) || x in Flat(ts.below)) && x.owner == owner && x.id == o.id;
        StoredFlat(ts, x);
        StoredOnce(ts, x, o);
      }
    }
  }

  // ---- After a check nothing that the price reaches is left ----

  /** The mark has reached the trigger price of `o`. */
  predicate Armed(o: Order, mark: int) {
    o.triggerPrice.Some? && o.triggerDirection.Some? && Fires(o.triggerDirection.value, o.triggerPrice.value, mark)
  }

  /** No stored trigger fires at `mark`. */
  ghost predicate Quiet(ts: TriggerState, mark: int) { forall o :: Stored(ts, o) ==> !Armed(o, mark) }

  lemma PopAt(ts: TriggerState, d: TriggerDirection, mark: int, e: TriggerDirection, price: int)
    requires TriggersOk(ts)
    ensures At(Side(Pop(ts, d, mark), e), price) ==
      if e == d && Fires(d, price, mark) then [] else At(Side(ts, e), price)
    ensures Ordered(Side(Pop(ts, d, mark), e))
  {
    KeptAt(d, Side(ts, d), mark, price);
  }

  lemma FiredIds(ts: TriggerState, d: TriggerDirection, mark: int, id: OrderId)
    requires TriggersOk(ts)
    ensures id in Ids(Fired(d, Side(ts, d), mark)) <==>
      id in ts.index && ts.index[id].0 == d && Fires(d, ts.index[id].1, mark)
  {
    var fired := Fired(d, Side(ts, d), mark);
    if id in Ids(fired) {
      var o :| o in fired && o.id == id;
      FiredAt(d, Side(ts, d), mark, o);
      var price :| Fires(d, price, mark) && o in At(Side(ts, d), price);
      StoredAt(ts, d, price, o);
    }
    if id in ts.index && ts.index[id].0 == d && Fires(d, ts.index[id].1, mark) {
      assert HasIdAt(ts, d, ts.index[id].1, id);
      var o :| o in At(Side(ts, d), ts.index[id].1) && o.id == id;
      FiredAt(d, Side(ts, d), mark, o);
    }
  }

  /** Popping takes out exactly the orders of that direction which fire. */
  lemma PopKeeps(ts: TriggerState, d: TriggerDirection, mark: int)
    requires TriggersOk(ts)
    ensures TriggersOk(Pop(ts, d, mark))
    ensures forall o :: Stored(Pop(ts, d, mark), o) <==>
      Stored(ts, o) && !(o.triggerDirection == Some(d) && Armed(o, mark))
  {
    var us := Pop(ts, d, mark);
    PopAt(ts, d, mark, Above, 0);
    PopAt(ts, d, mark, Below, 0);
    forall e, price ensures ListedAt(us, e, price) {
      PopAt(ts, d, mark, e, price);
      assert ListedAt(ts, e, price);
      forall o | o in At(Side(us, e), price) ensures o.id in us.index {
        FiredIds(ts, d, mark, o.id);
      }
    }
    forall id | id in us.index ensures HasIdAt(us, us.index[id].0, us.index[id].1, id) {
      FiredIds(ts, d, mark, id);
      PopAt(ts, d, mark, ts.index[id].0, ts.index[id].1);
      assert HasIdAt(ts, ts.index[id].0, ts.index[id].1, id);
    }
    forall o ensures Stored(us, o) <==> Stored(ts, o) && !(o.triggerDirection == Some(d) && Armed(o, mark)) {
      if o.triggerPrice.Some? && o.triggerDirection.Some? {
        PopAt(ts, d, mark, o.triggerDirection.value, o.triggerPrice.value);
      }
    }
  }

  /** Popping at `mark` leaves a quiet store; what fires is exactly what was armed. */
  lemma PopAllKeeps(ts: TriggerState, mark: int)
    requires TriggersOk(ts)
    ensures TriggersOk(PopAll(ts, mark)) && Quiet(PopAll(ts, mark), mark)
    ensures forall o :: Stored(PopAll(ts, mark), o) <==> Stored(ts, o) && !Armed(o, mark)
    ensures forall o :: o in AllFired(ts, mark) <==> Stored(ts, o) && Armed(o, mark)
  {
    PopKeeps(ts, Above, mark);
    PopKeeps(Pop(ts, Above, mark), Below, mark);
    var both := Fired(Above, ts.above, mark) + Fired(Below, ts.below, mark);
    forall o ensures o in AllFired(ts, mark) <==> Stored(ts, o) && Armed(o, mark) {
      SortByIdMembers(both, o);
      FiredStored(ts, Above, mark, o);
      FiredStored(ts, Below, mark, o);
    }
  }

  lemma FiredStored(ts: TriggerState, d: TriggerDirection, mark: int, o: Order)
    requires TriggersOk(ts)
    ensures o in Fired(d, Side(ts, d), mark) <==> Stored(ts, o) && Armed(o, mark) && o.triggerDirection == Some(d)
  {
    FiredAt(d, Side(ts, d), mark, o);
    if o in Fired(d, Side(ts, d), mark) {
      var price :| Fires(d, price, mark) && o in At(Side(ts, d), price);
      StoredAt(ts, d, price, o);
    }
  }

  lemma {:induction false} SortByIdMembers(orders: seq<Order>, o: Order)
    ensures o in SortById(orders) <==> o in orders
  {
    if orders != [] {
      SortByIdMembers(orders[1..], o);
      InsertByIdMembers(SortById(orders[1..]), orders[0], o);
    }
  }

  lemma {:induction false} InsertByIdMembers(orders: seq<Order>, x: Order, o: Order)
    ensures o in InsertById(orders, x) <==> o == x || o in orders
  {
    if orders != [] && x.id > orders[0].id { InsertByIdMembers(orders[1..], x, o); }
  }
}

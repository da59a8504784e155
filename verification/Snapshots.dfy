/** Saving the engine state as lists and rebuilding it from them, by inserting entry after entry. */
module Snapshots {
  import opened Options
  import opened Orders
  import opened Books
  import opened Trading
  import opened Agreement
  import Triggers

  datatype EngineState = EngineState(
    slices: map<MarketId, Slice>, accounts: map<Account, int>, modes: map<Account, bool>, fund: int, nextId: nat)

  /** The lists in whatever order the maps were enumerated. */
  datatype Snapshot = Snapshot(
    accounts: seq<(Account, int)>, positions: seq<(MarketId, Account, int)>, leverage: seq<(MarketId, Account, nat)>,
    markets: seq<(MarketId, MarketInfo)>, orders: seq<Order>, modes: seq<(Account, bool)>, triggers: seq<Order>,
    fund: int, nextId: nat)

  function EmptySlice(m: MarketId): Slice {
    Slice(m, None, map[], map[], EMPTY_BOOK, map[], map[], Triggers.NO_TRIGGERS)
  }

  /** A market nothing is known about has nothing in it. */
  function SliceAt(slices: map<MarketId, Slice>, m: MarketId): Slice {
    if m in slices then slices[m] else EmptySlice(m)
  }

  // ---- Loading entries ----

  /** One entry of a snapshot that belongs to a market. */
  datatype Load =
    | LoadPosition(m: MarketId, account: Account, size: int)
    | LoadLeverage(m: MarketId, account: Account, leverage: nat)
    | LoadMarket(m: MarketId, info: MarketInfo)
    | LoadOrder(order: Order)
    | LoadTrigger(order: Order)

  function MarketOf(l: Load): MarketId { if l.LoadOrder? || l.LoadTrigger? then l.order.market else l.m }

  /** Adding a market resets its book and its records; an order of an unknown market is only listed. */
  function Apply(s: Slice, l: Load): Slice {
    match l
    case LoadPosition(_, a, size) => s.(positions := s.positions[a := size])
    case LoadLeverage(_, a, x) => s.(leverage := s.leverage[a := x])
    case LoadMarket(_, info) => s.(market := Some(info), book := EMPTY_BOOK, orders := map[])
    case LoadOrder(o) =>
      if s.market.Some? then AddOrder(s, o)
      else s.(accountOrders := s.accountOrders[o.owner := Listed(s.accountOrders, o.owner) + [o.id]])
    case LoadTrigger(o) => s.(triggers := Triggers.Add(s.triggers, o))
  }

  function ApplyAll(slices: map<MarketId, Slice>, loads: seq<Load>): map<MarketId, Slice> {
    if loads == [] then slices
    else
      var n := |loads| - 1;
      var before, m := ApplyAll(slices, loads[..n]), MarketOf(loads[n]);
      before[m := Apply(SliceAt(before, m), loads[n])]
  }

  function ApplyTo(s: Slice, loads: seq<Load>): Slice {
    if loads == [] then s else Apply(ApplyTo(s, loads[..|loads| - 1]), loads[|loads| - 1])
  }

  /** The entries of one market. */
  function Of(loads: seq<Load>, m: MarketId): seq<Load> {
    if loads == [] then []
    else
      var n := |loads| - 1;
      Of(loads[..n], m) + if MarketOf(loads[n]) == m then [loads[n]] else []
  }

  /** Markets are loaded independently of each other. */
  lemma {:induction false} LoadsProject(slices: map<MarketId, Slice>, loads: seq<Load>, m: MarketId)
    ensures SliceAt(ApplyAll(slices, loads), m) == ApplyTo(SliceAt(slices, m), Of(loads, m))
  {
    if loads != [] {
      var n := |loads| - 1;
      LoadsProject(slices, loads[..n], m);
      var front := Of(loads[..n], m);
      if MarketOf(loads[n]) == m {
        assert (front + [loads[n]])[..|front|] == front;
      } else {
        assert front + [] == front;
      }
    }
  }

  lemma {:induction false} OfSplit(a: seq<Load>, b: seq<Load>, m: MarketId)
    ensures Of(a + b, m) == Of(a, m) + Of(b, m)
  {
    if b == [] {
      assert a + b == a && Of(a, m) + [] == Of(a, m);
    } else {
      var n := |b| - 1;
      OfSplit(a, b[..n], m);
      assert (a + b)[..|a| + n] == a + b[..n];
      var last := if MarketOf(b[n]) == m then [b[n]] else [];
      assert Of(a, m) + Of(b[..n], m) + last == Of(a, m) + (Of(b[..n], m) + last);
    }
  }

  lemma {:induction false} ApplySplit(s: Slice, a: seq<Load>, b: seq<Load>)
    ensures ApplyTo(s, a + b) == ApplyTo(ApplyTo(s, a), b)
  {
    if b == [] {
      assert a + b == a;
    } else {
      var n := |b| - 1;
      ApplySplit(s, a, b[..n]);
      assert (a + b)[..|a| + n] == a + b[..n];
    }
  }

  // ---- Maps ----

  /** The list has an entry for exactly what the map holds. */
  ghost predicate Enumerates<K(!new), V(!new)>(m: map<K, V>, xs: seq<(K, V)>) {
    forall k, v :: (k, v) in xs <==> k in m && m[k] == v
  }

  function FromList<K, V>(xs: seq<(K, V)>): map<K, V> {
    if xs == [] then map[] else FromList(xs[..|xs| - 1])[xs[|xs| - 1].0 := xs[|xs| - 1].1]
  }

  lemma {:induction false} FromListHas<K(!new), V(!new)>(xs: seq<(K, V)>, k: K)
    ensures k in FromList(xs) <==> exists v :: (k, v) in xs
    ensures k in FromList(xs) ==> (k, FromList(xs)[k]) in xs
  {
    if xs != [] {
      var front, last := xs[..|xs| - 1], xs[|xs| - 1];
      FromListHas(front, k);
      assert xs == front + [last];
      if v :| (k, v) in xs { assert (k, v) in front || last == (k, v); }
      if k in FromList(front) { assert (k, FromList(front)[k]) in xs; }
      if k == last.0 { assert (k, last.1) in xs; }
    }
  }

  /** Inserting the entries of a map, in any order, gives the map back. */
  lemma FromListBack<K(!new), V(!new)>(m: map<K, V>, xs: seq<(K, V)>)
    requires Enumerates(m, xs)
    ensures FromList(xs) == m
  {
    forall k ensures (k in FromList(xs) <==> k in m) && (k in m ==> FromList(xs)[k] == m[k]) {
      FromListHas(xs, k);
      if k in m { assert (k, m[k]) in xs; }
    }
  }

  // ---- Trigger orders ----

  function PushAll(bs: seq<Triggers.Bucket>, orders: seq<Order>): seq<Triggers.Bucket> {
    if orders == [] then bs
    else
      var front, o := PushAll(bs, orders[..|orders| - 1]), orders[|orders| - 1];
      if o.triggerPrice.None? then front else Triggers.Push(front, o.triggerPrice.value, o)
  }

  function AddAll(ts: Triggers.TriggerState, orders: seq<Order>): Triggers.TriggerState {
    if orders == [] then ts else Triggers.Add(AddAll(ts, orders[..|orders| - 1]), orders[|orders| - 1])
  }

  ghost predicate AllBelow(bs: seq<Triggers.Bucket>, price: int) { forall i :: 0 <= i < |bs| ==> bs[i].price < price }

  lemma {:induction false} PushNew(bs: seq<Triggers.Bucket>, price: int, o: Order)
    requires AllBelow(bs, price)
    ensures Triggers.Push(bs, price, o) == bs + [Triggers.Bucket(price, [o])]
  {
    if bs != [] {
      PushNew(bs[1..], price, o);
      assert bs == [bs[0]] + bs[1..];
    }
  }

  lemma {:induction false} PushLast(bs: seq<Triggers.Bucket>, price: int, orders: seq<Order>, o: Order)
    requires AllBelow(bs, price)
    ensures Triggers.Push(bs + [Triggers.Bucket(price, orders)], price, o) == bs + [Triggers.Bucket(price, orders + [o])]
  {
    var all := bs + [Triggers.Bucket(price, orders)];
    if bs == [] {
      assert all[1..] == [];
    } else {
      PushLast(bs[1..], price, orders, o);
      assert all[1..] == bs[1..] + [Triggers.Bucket(price, orders)];
      assert bs == [bs[0]] + bs[1..];
    }
  }

  /** All orders wait for this price. */
  ghost predicate WaitAt(orders: seq<Order>, price: int) { forall o :: o in orders ==> o.triggerPrice == Some(price) }

  lemma {:induction false} PushBucket(bs: seq<Triggers.Bucket>, price: int, orders: seq<Order>)
    requires AllBelow(bs, price) && orders != [] && WaitAt(orders, price)
    ensures PushAll(bs, orders) == bs + [Triggers.Bucket(price, orders)]
  {
    var n := |orders| - 1;
    if n == 0 {
      PushNew(bs, price, orders[0]);
      assert orders == [orders[0]] && orders[..0] == [];
    } else {
      PushBucket(bs, price, orders[..n]);
      PushLast(bs, price, orders[..n], orders[n]);
      assert orders == orders[..n] + [orders[n]];
    }
  }

  lemma {:induction false} PushAllSplit(bs: seq<Triggers.Bucket>, a: seq<Order>, b: seq<Order>)
    ensures PushAll(bs, a + b) == PushAll(PushAll(bs, a), b)
  {
    if b == [] {
      assert a + b == a;
    } else {
      var n := |b| - 1;
      assert (a + b)[..|a| + n] == a + b[..n];
      PushAllSplit(bs, a, b[..n]);
    }
  }

  /** Every bucket holds orders that wait for its price. */
  ghost predicate Labelled(bs: seq<Triggers.Bucket>) { forall i :: 0 <= i < |bs| ==> WaitAt(bs[i].orders, bs[i].price) }

  lemma {:induction false} InSomeBucket(bs: seq<Triggers.Bucket>, o: Order)
    requires o in Triggers.Flat(bs)
    ensures exists i :: 0 <= i < |bs| && o in bs[i].orders
  {
    if o !in bs[0].orders {
      InSomeBucket(bs[1..], o);
      var i :| 0 <= i < |bs[1..]| && o in bs[1..][i].orders;
      assert o in bs[i + 1].orders;
    }
  }

  lemma {:induction false} AtBucket(bs: seq<Triggers.Bucket>, i: nat)
    requires Triggers.Ordered(bs) && i < |bs|
    ensures Triggers.At(bs, bs[i].price) == bs[i].orders
  {
    if i > 0 {
      assert bs[0].price < bs[i].price;
      AtBucket(bs[1..], i - 1);
    }
  }

  /** Prices rise from bucket to bucket, and each holds orders that wait for its price. */
  ghost predicate Rising(bs: seq<Triggers.Bucket>) {
    bs != [] ==>
      && bs[0].orders != [] && WaitAt(bs[0].orders, bs[0].price)
      && (|bs| > 1 ==> bs[0].price < bs[1].price) && Rising(bs[1..])
  }

  lemma {:induction false} OrderedRises(bs: seq<Triggers.Bucket>)
    requires Triggers.Ordered(bs) && Labelled(bs)
    ensures Rising(bs)
  {
    if bs != [] {
      assert |bs| > 1 ==> bs[0].price < bs[1].price;
      OrderedRises(bs[1..]);
    }
  }

  lemma BucketPushed(pre: seq<Triggers.Bucket>, b: Triggers.Bucket, rest: seq<Order>)
    requires AllBelow(pre, b.price) && b.orders != [] && WaitAt(b.orders, b.price)
    ensures PushAll(pre, b.orders + rest) == PushAll(pre + [b], rest)
  {
    PushAllSplit(pre, b.orders, rest);
    PushBucket(pre, b.price, b.orders);
  }

  lemma AllBelowNext(pre: seq<Triggers.Bucket>, b: Triggers.Bucket, price: int)
    requires AllBelow(pre, b.price) && b.price < price
    ensures AllBelow(pre + [b], price)
  {
  }

  /** Pushing the orders bucket by bucket rebuilds the buckets, with the order inside each. */
  lemma {:induction false} BucketsRebuilt(pre: seq<Triggers.Bucket>, bs: seq<Triggers.Bucket>)
    requires Rising(bs) && (bs != [] ==> AllBelow(pre, bs[0].price))
    ensures PushAll(pre, Triggers.Flat(bs)) == pre + bs
    decreases |bs|
  {
    if bs != [] {
      BucketPushed(pre, bs[0], Triggers.Flat(bs[1..]));
      if |bs| > 1 { AllBelowNext(pre, bs[0], bs[1].price); }
      BucketsRebuilt(pre + [bs[0]], bs[1..]);
      assert pre + [bs[0]] + bs[1..] == pre + bs;
    }
  }

  /** The order is complete and waits in direction `d`. */
  predicate Waits(o: Order, d: TriggerDirection) { o.triggerPrice.Some? && o.triggerDirection == Some(d) }

  lemma {:induction false} AddAllSplit(ts: Triggers.TriggerState, a: seq<Order>, b: seq<Order>)
    ensures AddAll(ts, a + b) == AddAll(AddAll(ts, a), b)
  {
    if b == [] {
      assert a + b == a;
    } else {
      var n := |b| - 1;
      AddAllSplit(ts, a, b[..n]);
      assert (a + b)[..|a| + n] == a + b[..n];
    }
  }

  lemma {:induction false} AddAllSide(ts: Triggers.TriggerState, orders: seq<Order>, d: TriggerDirection)
    requires forall o :: o in orders ==> Waits(o, d)
    ensures var r := AddAll(ts, orders);
      r == Triggers.WithSide(ts, d, PushAll(Triggers.Side(ts, d), orders)).(index := r.index)
  {
    if orders != [] {
      AddAllSide(ts, orders[..|orders| - 1], d);
      assert Waits(orders[|orders| - 1], d);
    }
  }

  /** Where an order that waits is indexed. */
  function Place(o: Order): (TriggerDirection, int)
    requires o.triggerPrice.Some? && o.triggerDirection.Some?
  {
    (o.triggerDirection.value, o.triggerPrice.value)
  }

  ghost predicate PlacedBy(target: map<OrderId, (TriggerDirection, int)>, o: Order) {
    o.triggerPrice.Some? && o.triggerDirection.Some? && o.id in target && target[o.id] == Place(o)
  }

  lemma {:induction false} AddAllIndex(orders: seq<Order>, target: map<OrderId, (TriggerDirection, int)>, id: OrderId)
    requires forall o :: o in orders ==> PlacedBy(target, o)
    ensures var index := AddAll(Triggers.NO_TRIGGERS, orders).index;
      && (id in index <==> exists o :: o in orders && o.id == id)
      && (id in index ==> id in target && index[id] == target[id])
  {
    if orders != [] {
      var front, last := orders[..|orders| - 1], orders[|orders| - 1];
      assert orders == front + [last];
      AddAllIndex(front, target, id);
      assert last in orders;
      if o :| o in orders && o.id == id { assert o in front || o == last; }
      if o :| o in front && o.id == id { assert o in orders; }
    }
  }

  lemma SideWaits(ts: Triggers.TriggerState, d: TriggerDirection)
    requires Triggers.TriggersOk(ts)
    ensures Labelled(Triggers.Side(ts, d))
    ensures forall o :: o in Triggers.Flat(Triggers.Side(ts, d)) ==> Waits(o, d) && PlacedBy(ts.index, o)
  {
    var bs := Triggers.Side(ts, d);
    forall i | 0 <= i < |bs|
      ensures WaitAt(bs[i].orders, bs[i].price)
      ensures forall o :: o in bs[i].orders ==> Waits(o, d) && PlacedBy(ts.index, o)
    {
      AtBucket(bs, i);
      assert Triggers.ListedAt(ts, d, bs[i].price);
    }
    forall o | o in Triggers.Flat(bs) ensures Waits(o, d) && PlacedBy(ts.index, o) { InSomeBucket(bs, o); }
  }

  /** All stored triggers in the order in which they are saved. */
  function Saved(ts: Triggers.TriggerState): seq<Order> { Triggers.Flat(ts.above) + Triggers.Flat(ts.below) }

  /** Saving the triggers and adding them again rebuilds the store, buckets, their order and the index. */
  lemma TriggersBack(ts: Triggers.TriggerState)
    requires Triggers.TriggersOk(ts)
    ensures AddAll(Triggers.NO_TRIGGERS, Saved(ts)) == ts
  {
    var a, b := Triggers.Flat(ts.above), Triggers.Flat(ts.below);
    SideWaits(ts, Above);
    SideWaits(ts, Below);
    AddAllSplit(Triggers.NO_TRIGGERS, a, b);
    AddAllSide(Triggers.NO_TRIGGERS, a, Above);
    AddAllSide(AddAll(Triggers.NO_TRIGGERS, a), b, Below);
    OrderedRises(ts.above);
    OrderedRises(ts.below);
    BucketsRebuilt([], ts.above);
    BucketsRebuilt([], ts.below);
    var r := AddAll(Triggers.NO_TRIGGERS, Saved(ts));
    assert r.above == [] + ts.above && r.below == [] + ts.below;
    IndexBack(ts);
  }

  lemma IndexBackAt(ts: Triggers.TriggerState, saved: seq<Order>, id: OrderId)
    requires saved == Saved(ts) && (forall o :: o in saved ==> PlacedBy(ts.index, o))
    requires id in ts.index ==> Triggers.HasIdAt(ts, ts.index[id].0, ts.index[id].1, id)
    ensures var index := AddAll(Triggers.NO_TRIGGERS, saved).index;
      (id in index <==> id in ts.index) && (id in ts.index ==> index[id] == ts.index[id])
  {
    AddAllIndex(saved, ts.index, id);
    if id in ts.index {
      var (d, price) := ts.index[id];
      var o :| o in Triggers.At(Triggers.Side(ts, d), price) && o.id == id;
      Triggers.AtFlat(Triggers.Side(ts, d), price, o);
      assert o in saved;
    }
  }

  lemma IndexBack(ts: Triggers.TriggerState)
    requires Triggers.TriggersOk(ts)
    ensures AddAll(Triggers.NO_TRIGGERS, Saved(ts)).index == ts.index
  {
    SideWaits(ts, Above);
    SideWaits(ts, Below);
    var index := AddAll(Triggers.NO_TRIGGERS, Saved(ts)).index;
    forall id ensures (id in index <==> id in ts.index) && (id in ts.index ==> index[id] == ts.index[id]) {
      IndexBackAt(ts, Saved(ts), id);
    }
  }

  // ---- One market, phase by phase ----

  function PositionsOf(xs: seq<(MarketId, Account, int)>, m: MarketId): seq<(Account, int)> {
    if xs == [] then []
    else
      var n := |xs| - 1;
      PositionsOf(xs[..n], m) + if xs[n].0 == m then [(xs[n].1, xs[n].2)] else []
  }

  function PositionLoads(xs: seq<(MarketId, Account, int)>): seq<Load> {
    if xs == [] then []
    else
      var n := |xs| - 1;
      PositionLoads(xs[..n]) + [LoadPosition(xs[n].0, xs[n].1, xs[n].2)]
  }

  function LeverageOf(xs: seq<(MarketId, Account, nat)>, m: MarketId): seq<(Account, nat)> {
    if xs == [] then []
    else
      var n := |xs| - 1;
      LeverageOf(xs[..n], m) + if xs[n].0 == m then [(xs[n].1, xs[n].2)] else []
  }

  function LeverageLoads(xs: seq<(MarketId, Account, nat)>): seq<Load> {
    if xs == [] then []
    else
      var n := |xs| - 1;
      LeverageLoads(xs[..n]) + [LoadLeverage(xs[n].0, xs[n].1, xs[n].2)]
  }

  function MarketLoads(xs: seq<(MarketId, MarketInfo)>): seq<Load> {
    if xs == [] then []
    else
      var n := |xs| - 1;
      MarketLoads(xs[..n]) + [LoadMarket(xs[n].0, xs[n].1)]
  }

  function InfoOf(xs: seq<(MarketId, MarketInfo)>, m: MarketId): Option<MarketInfo> {
    if xs == [] then None
    else
      var n := |xs| - 1;
      if xs[n].0 == m then Some(xs[n].1) else InfoOf(xs[..n], m)
  }

  function OrdersOf(orders: seq<Order>, m: MarketId): seq<Order> {
    if orders == [] then []
    else
      var n := |orders| - 1;
      OrdersOf(orders[..n], m) + if orders[n].market == m then [orders[n]] else []
  }

  function OrderLoads(orders: seq<Order>): seq<Load> {
    if orders == [] then [] else OrderLoads(orders[..|orders| - 1]) + [LoadOrder(orders[|orders| - 1])]
  }

  function TriggerLoads(orders: seq<Order>): seq<Load> {
    if orders == [] then [] else TriggerLoads(orders[..|orders| - 1]) + [LoadTrigger(orders[|orders| - 1])]
  }

  /** Loading one more entry of a list touches its own market only. */
  lemma OneMore(s: Slice, loads: seq<Load>, l: Load, m: MarketId)
    ensures ApplyTo(s, Of(loads + [l], m)) ==
      if MarketOf(l) == m then Apply(ApplyTo(s, Of(loads, m)), l) else ApplyTo(s, Of(loads, m))
  {
    assert (loads + [l])[..|loads|] == loads;
    var front := Of(loads, m);
    assert (front + [l])[..|front|] == front && front + [] == front;
  }

  lemma FromListMore<K(!new), V(!new)>(xs: seq<(K, V)>, k: K, v: V)
    ensures FromList(xs + [(k, v)]) == FromList(xs)[k := v]
  {
    assert (xs + [(k, v)])[..|xs|] == xs;
  }

  lemma {:induction false} PositionsPhase(s: Slice, xs: seq<(MarketId, Account, int)>, m: MarketId)
    requires s.positions == map[]
    ensures ApplyTo(s, Of(PositionLoads(xs), m)) == s.(positions := FromList(PositionsOf(xs, m)))
  {
    if xs != [] {
      var n := |xs| - 1;
      var front := PositionsOf(xs[..n], m);
      PositionsPhase(s, xs[..n], m);
      OneMore(s, PositionLoads(xs[..n]), LoadPosition(xs[n].0, xs[n].1, xs[n].2), m);
      FromListMore(front, xs[n].1, xs[n].2);
      assert front + [] == front;
    }
  }

  lemma {:induction false} LeveragePhase(s: Slice, xs: seq<(MarketId, Account, nat)>, m: MarketId)
    requires s.leverage == map[]
    ensures ApplyTo(s, Of(LeverageLoads(xs), m)) == s.(leverage := FromList(LeverageOf(xs, m)))
  {
    if xs != [] {
      var n := |xs| - 1;
      var front := LeverageOf(xs[..n], m);
      LeveragePhase(s, xs[..n], m);
      OneMore(s, LeverageLoads(xs[..n]), LoadLeverage(xs[n].0, xs[n].1, xs[n].2), m);
      FromListMore(front, xs[n].1, xs[n].2);
      assert front + [] == front;
    }
  }

  lemma {:induction false} MarketPhase(s: Slice, xs: seq<(MarketId, MarketInfo)>, m: MarketId)
    requires s.market == None && s.book == EMPTY_BOOK && s.orders == map[]
    ensures ApplyTo(s, Of(MarketLoads(xs), m)) == s.(market := InfoOf(xs, m))
  {
    if xs != [] {
      var n := |xs| - 1;
      MarketPhase(s, xs[..n], m);
      OneMore(s, MarketLoads(xs[..n]), LoadMarket(xs[n].0, xs[n].1), m);
    }
  }

  lemma {:induction false} TriggerPhase(s: Slice, orders: seq<Order>, m: MarketId)
    ensures ApplyTo(s, Of(TriggerLoads(orders), m)) == s.(triggers := AddAll(s.triggers, OrdersOf(orders, m)))
  {
    if orders != [] {
      var front := orders[..|orders| - 1];
      TriggerPhase(s, front, m);
      TriggerPhaseStep(s, TriggerLoads(front), OrdersOf(front, m), orders[|orders| - 1], m);
    }
  }

  lemma TriggerPhaseStep(s: Slice, loads: seq<Load>, mine: seq<Order>, o: Order, m: MarketId)
    requires ApplyTo(s, Of(loads, m)) == s.(triggers := AddAll(s.triggers, mine))
    ensures ApplyTo(s, Of(loads + [LoadTrigger(o)], m)) ==
      s.(triggers := AddAll(s.triggers, mine + if o.market == m then [o] else []))
  {
    OneMore(s, loads, LoadTrigger(o), m);
    if o.market == m {
      AddAllMore(s.triggers, mine, o);
    } else {
      assert mine + [] == mine;
    }
  }

  lemma OrdersOfMore(orders: seq<Order>, o: Order, m: MarketId)
    ensures OrdersOf(orders + [o], m) == OrdersOf(orders, m) + if o.market == m then [o] else []
  {
    assert (orders + [o])[..|orders|] == orders;
  }

  lemma AddAllMore(ts: Triggers.TriggerState, orders: seq<Order>, o: Order)
    ensures AddAll(ts, orders + [o]) == Triggers.Add(AddAll(ts, orders), o)
  {
    assert (orders + [o])[..|orders|] == orders;
  }

  /** The records of these orders, by id. */
  function Records(orders: seq<Order>): map<OrderId, Order> {
    if orders == [] then map[] else Records(orders[..|orders| - 1])[orders[|orders| - 1].id := orders[|orders| - 1]]
  }

  function OwnIds(orders: seq<Order>, a: Account): seq<OrderId> {
    if orders == [] then []
    else
      var n := |orders| - 1;
      OwnIds(orders[..n], a) + if orders[n].owner == a then [orders[n].id] else []
  }

  lemma {:induction false} InsertAllMore(b: Book, orders: seq<Order>, o: Order)
    ensures InsertAll(b, orders + [o]) == Insert(InsertAll(b, orders), o)
    decreases orders
  {
    if orders == [] {
      assert [] + [o] == [o] && [o][1..] == [];
    } else {
      assert (orders + [o])[1..] == orders[1..] + [o];
      InsertAllMore(Insert(b, orders[0]), orders[1..], o);
    }
  }

  /** What a market looks like once these orders are loaded. */
  ghost predicate OrdersLoaded(s: Slice, r: Slice, mine: seq<Order>) {
    && r == s.(orders := Records(mine), book := InsertAll(EMPTY_BOOK, mine), accountOrders := r.accountOrders)
    && forall a :: Listed(r.accountOrders, a) == OwnIds(mine, a)
  }

  lemma ListedStep(r: Slice, mine: seq<Order>, o: Order, a: Account)
    requires Listed(r.accountOrders, a) == OwnIds(mine, a)
    ensures Listed(AddOrder(r, o).accountOrders, a) == OwnIds(mine + [o], a)
  {
    assert (mine + [o])[..|mine|] == mine;
    assert OwnIds(mine, a) + [] == OwnIds(mine, a);
  }

  lemma RecordsMore(mine: seq<Order>, o: Order)
    ensures Records(mine + [o]) == Records(mine)[o.id := o]
  {
    assert (mine + [o])[..|mine|] == mine;
  }

  lemma OrderLoadedStep(s: Slice, r: Slice, mine: seq<Order>, o: Order)
    requires OrdersLoaded(s, r, mine)
    ensures OrdersLoaded(s, AddOrder(r, o), mine + [o])
  {
    InsertAllMore(EMPTY_BOOK, mine, o);
    RecordsMore(mine, o);
    forall a ensures Listed(AddOrder(r, o).accountOrders, a) == OwnIds(mine + [o], a) { ListedStep(r, mine, o, a); }
  }

  lemma LoadedStep(s: Slice, r: Slice, mine: seq<Order>, o: Order)
    requires s.market.Some? && OrdersLoaded(s, r, mine)
    ensures OrdersLoaded(s, Apply(r, LoadOrder(o)), mine + [o])
  {
    OrderLoadedStep(s, r, mine, o);
  }

  lemma OrderPhaseStep(s: Slice, loads: seq<Load>, mine: seq<Order>, o: Order, m: MarketId)
    requires s.market.Some? && OrdersLoaded(s, ApplyTo(s, Of(loads, m)), mine)
    ensures OrdersLoaded(s, ApplyTo(s, Of(loads + [LoadOrder(o)], m)), mine + if o.market == m then [o] else [])
  {
    OneMore(s, loads, LoadOrder(o), m);
    if o.market == m {
      LoadedStep(s, ApplyTo(s, Of(loads, m)), mine, o);
    } else {
      assert mine + [] == mine;
    }
  }

  lemma NoneLoaded(s: Slice)
    requires s.orders == map[] && s.book == EMPTY_BOOK && s.accountOrders == map[]
    ensures OrdersLoaded(s, s, [])
  {
  }

  lemma {:induction false} OrderPhase(s: Slice, orders: seq<Order>, m: MarketId)
    requires s.market.Some? && s.orders == map[] && s.book == EMPTY_BOOK && s.accountOrders == map[]
    ensures OrdersLoaded(s, ApplyTo(s, Of(OrderLoads(orders), m)), OrdersOf(orders, m))
  {
    if orders == [] {
      NoneLoaded(s);
    } else {
      var front := orders[..|orders| - 1];
      OrderPhase(s, front, m);
      OrderPhaseStep(s, OrderLoads(front), OrdersOf(front, m), orders[|orders| - 1], m);
    }
  }

  // ---- One market, saved and rebuilt ----

  /** The list holds exactly the records, each once. */
  ghost predicate ListsRecords(orders: seq<Order>, records: map<OrderId, Order>) {
    OncePerId(orders) && forall o :: o in orders <==> o.id in records && records[o.id] == o
  }

  /** The snapshot's entries for this market are those of the slice. */
  ghost predicate Captures(snap: Snapshot, m: MarketId, s: Slice) {
    && Enumerates(s.positions, PositionsOf(snap.positions, m))
    && Enumerates(s.leverage, LeverageOf(snap.leverage, m))
    && (forall info :: (m, info) in snap.markets <==> s.market == Some(info))
    && ListsRecords(OrdersOf(snap.orders, m), s.orders)
    && OrdersOf(snap.triggers, m) == Saved(s.triggers)
  }

  /** Book, triggers and account lists are each in order, and an unknown market has no records. Records and book
      need not agree. */
  ghost predicate Sound(s: Slice) {
    && WellFormed(s.book) && Triggers.TriggersOk(s.triggers)
    && AccountsAgree(s.orders, s.accountOrders) && RecordsKept(s.orders)
    && (s.market.None? ==> s.orders == map[])
  }

  lemma {:induction false} InfoBack(xs: seq<(MarketId, MarketInfo)>, m: MarketId, market: Option<MarketInfo>)
    requires forall info :: (m, info) in xs <==> market == Some(info)
    ensures InfoOf(xs, m) == market
  {
    InfoIn(xs, m);
    if market.Some? { assert (m, market.value) in xs; }
  }

  lemma {:induction false} InfoIn(xs: seq<(MarketId, MarketInfo)>, m: MarketId)
    ensures InfoOf(xs, m).Some? ==> (m, InfoOf(xs, m).value) in xs
    ensures InfoOf(xs, m).None? ==> forall info :: (m, info) !in xs
  {
    if xs != [] {
      InfoIn(xs[..|xs| - 1], m);
      assert xs == xs[..|xs| - 1] + [xs[|xs| - 1]];
    }
  }

  lemma {:induction false} RecordsHas(orders: seq<Order>, id: OrderId)
    requires OncePerId(orders)
    ensures id in Records(orders) <==> exists o :: o in orders && o.id == id
    ensures id in Records(orders) ==> Records(orders)[id] in orders && Records(orders)[id].id == id
  {
    if orders != [] {
      var front, last := orders[..|orders| - 1], orders[|orders| - 1];
      assert orders == front + [last];
      RecordsHas(front, id);
      if o :| o in orders && o.id == id { assert o in front || o == last; }
      if o :| o in front && o.id == id { assert o in orders; }
      assert last in orders;
    }
  }

  lemma RecordsBack(orders: seq<Order>, records: map<OrderId, Order>)
    requires ListsRecords(orders, records) && forall id :: id in records ==> records[id].id == id
    ensures Records(orders) == records
  {
    forall id ensures (id in Records(orders) <==> id in records) && (id in records ==> Records(orders)[id] == records[id]) {
      RecordsHas(orders, id);
      if id in records { assert records[id] in orders; }
    }
  }

  /** What is on the book is what is on record. */
  ghost predicate HoldsRecords(b: Book, orders: map<OrderId, Order>) {
    forall o :: InBook(b, o) <==> o.id in orders && orders[o.id] == o
  }

  lemma HoldsIffAgree(b: Book, orders: map<OrderId, Order>)
    requires WellFormed(b) && RecordsKept(orders)
    ensures HoldsRecords(b, orders) <==> RecordsAgree(orders, b)
  {
    forall id ensures Get(b, id).Some? <==> id in b.index { GetFinds(b, id); }
    if HoldsRecords(b, orders) {
      forall id ensures (id in orders <==> id in b.index) && (id in orders ==> Get(b, id) == Some(orders[id])) {
        GetFinds(b, id);
        if id in orders { assert InBook(b, orders[id]); }
      }
    }
    if RecordsAgree(orders, b) {
      forall o ensures InBook(b, o) <==> o.id in orders && orders[o.id] == o { GetFinds(b, o.id); }
    }
  }

  lemma BookOf(orders: seq<Order>)
    requires OncePerId(orders) && forall o :: o in orders ==> 0 < o.price && 0 < o.remaining
    ensures WellFormed(InsertAll(EMPTY_BOOK, orders))
    ensures forall o :: InBook(InsertAll(EMPTY_BOOK, orders), o) <==> o in orders
  {
    assert WellFormed(EMPTY_BOOK);
    InsertAllKeeps(EMPTY_BOOK, orders);
  }

  /** The book rebuilt from any list of the records holds exactly the records. It is the book there was, caches and
      index included, exactly when that one agreed with the records. */
  lemma BookBack(orders: seq<Order>, s: Slice)
    requires Sound(s) && ListsRecords(orders, s.orders)
    ensures var b := InsertAll(EMPTY_BOOK, orders);
      && WellFormed(b) && HoldsRecords(b, s.orders) && RecordsAgree(s.orders, b)
      && (b == s.book <==> RecordsAgree(s.orders, s.book))
  {
    var b := InsertAll(EMPTY_BOOK, orders);
    BookOf(orders);
    HoldsIffAgree(b, s.orders);
    HoldsIffAgree(s.book, s.orders);
    if RecordsAgree(s.orders, s.book) { BookDeterminedBySides(b, s.book); }
  }

  ghost predicate Owns(orders: seq<Order>, a: Account, id: OrderId) {
    exists o :: o in orders && o.id == id && o.owner == a
  }

  lemma {:induction false} OwnIdsIn(orders: seq<Order>, a: Account)
    ensures forall id :: id in OwnIds(orders, a) <==> Owns(orders, a, id)
    ensures OncePerId(orders) ==> NoRepeats(OwnIds(orders, a))
  {
    if orders != [] {
      var front, last := orders[..|orders| - 1], orders[|orders| - 1];
      assert orders == front + [last];
      OwnIdsIn(front, a);
      forall id ensures id in OwnIds(orders, a) <==> Owns(orders, a, id) {
        if o :| o in orders && o.id == id && o.owner == a { assert o in front || o == last; }
        if o :| o in front && o.id == id && o.owner == a { assert o in orders; }
        assert last in orders;
      }
      if OncePerId(orders) { OwnIdsOnce(front, last, a); }
    }
  }

  lemma OwnIdsOnce(front: seq<Order>, last: Order, a: Account)
    requires OncePerId(front + [last]) && NoRepeats(OwnIds(front, a))
    requires forall id :: id in OwnIds(front, a) ==> Owns(front, a, id)
    ensures NoRepeats(OwnIds(front + [last], a))
  {
    var ids := OwnIds(front, a);
    assert (front + [last])[..|front|] == front;
    forall i | 0 <= i < |ids| ensures ids[i] != last.id {
      assert Owns(front, a, ids[i]);
      var o :| o in front && o.id == ids[i];
      var j :| 0 <= j < |front| && front[j] == o;
      assert (front + [last])[j] == o && (front + [last])[|front|] == last;
    }
  }

  lemma ListsBack(orders: seq<Order>, records: map<OrderId, Order>, index: map<Account, seq<OrderId>>)
    requires ListsRecords(orders, records) && (forall id :: id in records ==> records[id].id == id)
    requires forall a :: Listed(index, a) == OwnIds(orders, a)
    ensures AccountsAgree(records, index)
  {
    forall a, id ensures id in Listed(index, a) <==> id in records && records[id].owner == a {
      OwnIdsIn(orders, a);
      if id in records { assert records[id] in orders; }
    }
    forall a ensures NoRepeats(Listed(index, a)) { OwnIdsIn(orders, a); }
  }

  function LoadsOf(snap: Snapshot): seq<Load> {
    PositionLoads(snap.positions) + LeverageLoads(snap.leverage) + MarketLoads(snap.markets) +
    OrderLoads(snap.orders) + TriggerLoads(snap.triggers)
  }

  function LoadedSlice(snap: Snapshot, m: MarketId): Slice {
    var s1 := ApplyTo(EmptySlice(m), Of(PositionLoads(snap.positions), m));
    var s2 := ApplyTo(s1, Of(LeverageLoads(snap.leverage), m));
    var s3 := ApplyTo(s2, Of(MarketLoads(snap.markets), m));
    var s4 := ApplyTo(s3, Of(OrderLoads(snap.orders), m));
    ApplyTo(s4, Of(TriggerLoads(snap.triggers), m))
  }

  lemma InPhases(snap: Snapshot, m: MarketId)
    ensures ApplyTo(EmptySlice(m), Of(LoadsOf(snap), m)) == LoadedSlice(snap, m)
  {
    var p, l, k := PositionLoads(snap.positions), LeverageLoads(snap.leverage), MarketLoads(snap.markets);
    var o, t := OrderLoads(snap.orders), TriggerLoads(snap.triggers);
    OfSplit(p, l, m);
    OfSplit(p + l, k, m);
    OfSplit(p + l + k, o, m);
    OfSplit(p + l + k + o, t, m);
    ApplySplit(EmptySlice(m), Of(p, m), Of(l, m));
    ApplySplit(EmptySlice(m), Of(p + l, m), Of(k, m));
    ApplySplit(EmptySlice(m), Of(p + l + k, m), Of(o, m));
    ApplySplit(EmptySlice(m), Of(p + l + k + o, m), Of(t, m));
  }

  /** What comes back: everything but the book and the order inside the account lists is as it was; the book holds
      exactly the records, and is the book there was exactly when that one agreed with them. */
  ghost predicate ComesBack(s: Slice, r: Slice) {
    && r == s.(accountOrders := r.accountOrders, book := r.book)
    && WellFormed(r.book) && HoldsRecords(r.book, s.orders) && Agree(r)
    && (r.book == s.book <==> RecordsAgree(s.orders, s.book))
  }

  lemma NoOrders(orders: seq<Order>, m: MarketId, s: Slice)
    requires OrdersOf(orders, m) == []
    ensures ApplyTo(s, Of(OrderLoads(orders), m)) == s
  {
    NoneOf(orders, m);
  }

  lemma {:induction false} NoneOf(orders: seq<Order>, m: MarketId)
    requires OrdersOf(orders, m) == []
    ensures Of(OrderLoads(orders), m) == []
  {
    if orders != [] {
      var front, o := orders[..|orders| - 1], orders[|orders| - 1];
      NoneOf(front, m);
      assert (OrderLoads(front) + [LoadOrder(o)])[..|OrderLoads(front)|] == OrderLoads(front);
    }
  }

  /** A market saved and rebuilt, whether or not its book agreed with its records. */
  lemma SliceBack(snap: Snapshot, m: MarketId, s: Slice)
    requires s.id == m && Sound(s) && Captures(snap, m, s)
    ensures ComesBack(s, LoadedSlice(snap, m))
  {
    var s0 := EmptySlice(m);
    PositionsPhase(s0, snap.positions, m);
    FromListBack(s.positions, PositionsOf(snap.positions, m));
    var s1 := s0.(positions := s.positions);
    LeveragePhase(s1, snap.leverage, m);
    FromListBack(s.leverage, LeverageOf(snap.leverage, m));
    var s2 := s1.(leverage := s.leverage);
    MarketPhase(s2, snap.markets, m);
    InfoBack(snap.markets, m, s.market);
    var s3 := s2.(market := s.market);
    OrdersBack(snap, m, s, s3);
    BookBack(OrdersOf(snap.orders, m), s);
    var s4 := ApplyTo(s3, Of(OrderLoads(snap.orders), m));
    TriggerPhase(s4, snap.triggers, m);
    TriggersBack(s.triggers);
  }

  lemma OrdersBack(snap: Snapshot, m: MarketId, s: Slice, s3: Slice)
    requires Sound(s) && ListsRecords(OrdersOf(snap.orders, m), s.orders)
    requires s3.market == s.market && s3.orders == map[] && s3.book == EMPTY_BOOK && s3.accountOrders == map[]
    ensures var r := ApplyTo(s3, Of(OrderLoads(snap.orders), m));
      && r == s3.(orders := s.orders, book := InsertAll(EMPTY_BOOK, OrdersOf(snap.orders, m)), accountOrders := r.accountOrders)
      && AccountsAgree(s.orders, r.accountOrders)
  {
    var mine := OrdersOf(snap.orders, m);
    RecordsBack(mine, s.orders);
    if s.market.Some? {
      OrderPhase(s3, snap.orders, m);
      ListsBack(mine, s.orders, ApplyTo(s3, Of(OrderLoads(snap.orders), m)).accountOrders);
    } else {
      assert forall o :: o !in mine;
      assert mine == [];
      NoOrders(snap.orders, m, s3);
      assert forall a :: Listed(s3.accountOrders, a) == [];
    }
  }
}

/** One market of the perpetuals engine: book, order records, positions, open interest and stored
    triggers, and what placing, cancelling and triggering orders does to them. */
module Trading {
  import opened Options
  import opened Orders
  import opened Books
  import opened Matching
  import opened Accounting
  import Triggers
  import MarkPrice

  datatype MarketInfo = MarketInfo(
    tick: int, lot: int, minSize: int, maxSize: int, active: bool,
    mark: int, oiLong: int, oiShort: int)

  /** Everything the engine keeps per market. */
  datatype Slice = Slice(
    id: MarketId,
    market: Option<MarketInfo>,
    positions: Positions,
    leverage: map<Account, nat>,
    book: Book,
    orders: map<OrderId, Order>,
    accountOrders: map<Account, seq<OrderId>>,
    triggers: Triggers.TriggerState)

  function Listed(index: map<Account, seq<OrderId>>, a: Account): seq<OrderId> {
    if a in index then index[a] else []
  }

  // ---- Order records ----

  function AddOrder(s: Slice, o: Order): Slice {
    s.(orders := s.orders[o.id := o],
       book := Insert(s.book, o),
       accountOrders := s.accountOrders[o.owner := Listed(s.accountOrders, o.owner) + [o.id]])
  }

  function Retain(ids: seq<OrderId>, drop: set<OrderId>): seq<OrderId> {
    if ids == [] then []
    else if ids[0] in drop then Retain(ids[1..], drop)
    else [ids[0]] + Retain(ids[1..], drop)
  }

  /** Remove an order from the records, the book and its owner's list. */
  function RemoveOrder(s: Slice, id: OrderId): Slice {
    if id !in s.orders then s
    else
      var a := s.orders[id].owner;
      s.(orders := s.orders - {id},
         book := Remove(s.book, id),
         accountOrders := if a in s.accountOrders
                          then s.accountOrders[a := Retain(s.accountOrders[a], {id})]
                          else s.accountOrders)
  }

  // ---- Bringing the records up to date with the book after matching ----

  function MakerIds(fills: seq<Fill>): set<OrderId> { set f | f in fills :: f.makerOrderId }

  /** Makers that the match removed from the book. */
  function Spent(b: Book, fills: seq<Fill>): set<OrderId> {
    set id | id in MakerIds(fills) && Get(b, id).None?
  }

  function SyncedOrders(orders: map<OrderId, Order>, b: Book, fills: seq<Fill>): map<OrderId, Order> {
    map id | id in orders && id !in Spent(b, fills) ::
      if id in MakerIds(fills) && Get(b, id).Some?
      then orders[id].(remaining := Get(b, id).value.remaining, status := PartiallyFilled)
      else orders[id]
  }

  function OwnedBy(orders: map<OrderId, Order>, ids: set<OrderId>, a: Account): set<OrderId> {
    set id | id in ids && id in orders && orders[id].owner == a
  }

  function Sync(s: Slice, fills: seq<Fill>): Slice {
    var gone := Spent(s.book, fills);
    s.(orders := SyncedOrders(s.orders, s.book, fills),
       accountOrders := map a | a in s.accountOrders :: Retain(s.accountOrders[a], OwnedBy(s.orders, gone, a)))
  }

  // ---- Fills ----

  function LedgerOf(s: Slice): Ledger
    requires s.market.Some?
  {
    Ledger(s.positions, s.market.value.oiLong, s.market.value.oiShort)
  }

  function DropIfFlat(ts: Triggers.TriggerState, p: Positions, a: Account): Triggers.TriggerState {
    if a in p && p[a] == 0 then Triggers.CancelFor(ts, a) else ts
  }

  /** Settle positions and open interest, smooth the mark price, cancel triggers of flat parties. */
  function ApplyFill(s: Slice, f: Fill): Slice
    requires s.market.Some?
  {
    var l := Settle(LedgerOf(s), f);
    s.(positions := l.positions,
       market := Some(s.market.value.(oiLong := l.oiLong, oiShort := l.oiShort,
                                      mark := MarkPrice.Smooth(s.market.value.mark, f.price))),
       triggers := DropIfFlat(DropIfFlat(s.triggers, l.positions, f.taker), l.positions, f.maker))
  }

  function ApplyFills(s: Slice, fills: seq<Fill>): (r: Slice)
    requires s.market.Some?
    ensures r.market.Some?
    decreases fills
  {
    if fills == [] then s else ApplyFills(ApplyFill(s, fills[0]), fills[1..])
  }

  // ---- Executing an order that has been admitted ----

  datatype Executed = Executed(slice: Slice, result: Placed)

  /** What the engine does with the outcome of matching. */
  function Absorb(s: Slice, p: Outcome): (r: Executed)
    requires s.market.Some?
    ensures r.slice.market.Some?
  {
    var s1 := s.(book := p.book);
    match p.result
    case Err(e) => Executed(s1, Err(e))
    case Ok((taker, fills)) =>
      var s2 := ApplyFills(Sync(s1, fills), fills);
      Executed(if taker.remaining != 0 && taker.ShouldRest() then AddOrder(s2, taker) else s2, p.result)
  }

  ghost function Execute(s: Slice, o: Order): (r: Executed)
    requires s.market.Some?
    ensures r.slice.market.Some?
  {
    Absorb(s, Process(s.book, o))
  }

  // ---- Admission ----

  /** The margin check, as an arbitrary function of the request, the market and the next order id. */
  type MarginPolicy = (Account, OrderRequest, Slice, nat) -> bool

  /** Tick, lot and minimum size are positive. */
  predicate ConfigOk(m: MarketInfo) { 0 < m.tick && 0 < m.lot && 0 < m.minSize }

  function Validate(m: MarketInfo, req: OrderRequest): Option<Error>
    requires ConfigOk(m)
  {
    if req.price % m.tick != 0 then Some(InvalidPrice)
    else if req.size % m.lot != 0 || req.size < m.minSize then Some(InvalidSize)
    else if req.size < m.minSize then Some(SizeTooSmall)
    else if req.size > m.maxSize then Some(SizeTooLarge)
    else None
  }

  /** Reduce-only must face the position it reduces. */
  predicate Increases(req: OrderRequest, position: int) {
    if req.side == Buy then position >= 0 else position <= 0
  }

  datatype Admission = Refused(slice: Slice, error: Error) | Admitted(slice: Slice)

  /** An empty position is opened before the last two checks and survives a refusal by them. */
  function Admit(s: Slice, a: Account, req: OrderRequest, margin: MarginPolicy, nextId: nat): Admission
    requires s.market.Some? ==> ConfigOk(s.market.value)
  {
    if s.market.None? then Refused(s, MarketNotFound)
    else if !s.market.value.active then Refused(s, MarketPaused)
    else
      match Validate(s.market.value, req)
      case Some(e) => Refused(s, e)
      case None =>
        var t := if a in s.positions then s else s.(positions := s.positions[a := 0]);
        if req.reduceOnly && Increases(req, t.positions[a]) then Refused(t, ReduceOnlyViolation)
        else if !req.reduceOnly && !margin(a, req, t, nextId) then Refused(t, InsufficientMargin)
        else Admitted(t)
  }

  // ---- Placing and triggering, mutually recursive ----

  datatype Core = Core(slice: Slice, nextId: nat)

  /** An order that reached the matching engine, with the market as it was then. */
  datatype Event = Event(slice: Slice, order: Order)

  datatype PlaceOutcome = PlaceOutcome(core: Core, result: Placed, log: seq<Event>)

  datatype CheckOutcome = CheckOutcome(core: Core, results: seq<(Order, seq<Fill>)>, log: seq<Event>)

  ghost predicate CoreOk(c: Core) { c.slice.market.Some? ==> ConfigOk(c.slice.market.value) }

  /** The request a fired trigger re-enters with: it never carries a trigger itself. */
  function Reissue(o: Order): OrderRequest {
    OrderRequest(o.market, o.side, o.price, o.remaining, o.orderType, o.reduceOnly, None, None)
  }

  ghost function TriggerCount(c: Core): nat { Triggers.Count(c.slice.triggers) }

  /** Placing and checking terminate although each calls the other: a fired trigger leaves the store
      before it is re-placed, and a re-placed order never adds one. */
  ghost function Place(c: Core, a: Account, req: OrderRequest, ts: nat, margin: MarginPolicy): (r: PlaceOutcome)
    requires CoreOk(c)
    ensures CoreOk(r.core)
    ensures TriggerCount(r.core) <= TriggerCount(c) + if req.triggerPrice.Some? then 1 else 0
    decreases TriggerCount(c), 2, 0
  {
    match Admit(c.slice, a, req, margin, c.nextId)
    case Refused(s, e) => PlaceOutcome(Core(s, c.nextId), Err(e), [])
    case Admitted(s) => Submit(Core(s, c.nextId), NewOrder(c.nextId, a, req, ts), ts, margin)
  }

  /** A trigger order is stored; any other order is matched, and fills that move the mark fire triggers. */
  ghost function Submit(c: Core, o: Order, ts: nat, margin: MarginPolicy): (r: PlaceOutcome)
    requires CoreOk(c) && c.slice.market.Some?
    ensures CoreOk(r.core)
    ensures TriggerCount(r.core) <= TriggerCount(c) + if o.triggerPrice.Some? then 1 else 0
    decreases TriggerCount(c), 1, 0
  {
    var s := c.slice;
    if o.triggerPrice.Some? then
      Triggers.AddCount(s.triggers, o);
      PlaceOutcome(Core(s.(triggers := Triggers.Add(s.triggers, o)), c.nextId + 1), Ok((o, [])), [])
    else
      var x := Execute(s, o);
      ExecuteFrame(s, o);
      var next := Core(x.slice, c.nextId + 1);
      if MovesMark(x) then
        var k := Check(next, x.slice.market.value.mark, ts, margin);
        PlaceOutcome(k.core, x.result, [Event(s, o)] + k.log)
      else
        PlaceOutcome(next, x.result, [Event(s, o)])
  }

  /** Something traded and there is a mark to check triggers against. */
  ghost predicate MovesMark(x: Executed)
    requires x.slice.market.Some?
  {
    x.result.Ok? && x.result.value.1 != [] && x.slice.market.value.mark != 0
  }

  ghost function Check(c: Core, price: int, ts: nat, margin: MarginPolicy): (r: CheckOutcome)
    requires CoreOk(c)
    ensures CoreOk(r.core) && TriggerCount(r.core) <= TriggerCount(c)
    decreases TriggerCount(c), 0, 0
  {
    Triggers.PopAllCount(c.slice.triggers, price);
    var fired := Triggers.AllFired(c.slice.triggers, price);
    var popped := Core(c.slice.(triggers := Triggers.PopAll(c.slice.triggers, price)), c.nextId);
    if fired == [] then CheckOutcome(popped, [], []) else PlaceAll(popped, fired, ts, margin)
  }

  ghost function PlaceAll(c: Core, orders: seq<Order>, ts: nat, margin: MarginPolicy): (r: CheckOutcome)
    requires CoreOk(c)
    ensures CoreOk(r.core) && TriggerCount(r.core) <= TriggerCount(c)
    decreases TriggerCount(c), 3, |orders|
  {
    if orders == [] then CheckOutcome(c, [], [])
    else
      var p := Place(c, orders[0].owner, Reissue(orders[0]), ts, margin);
      var k := PlaceAll(p.core, orders[1..], ts, margin);
      CheckOutcome(k.core, (if p.result.Ok? then [p.result.value] else []) + k.results, p.log + k.log)
  }

  // ---- What executing leaves alone ----

  lemma {:induction false} ApplyFillsFrame(s: Slice, fills: seq<Fill>)
    requires s.market.Some?
    ensures var r := ApplyFills(s, fills);
      && r.book == s.book && r.orders == s.orders && r.accountOrders == s.accountOrders
      && r.leverage == s.leverage && r.id == s.id
      && Triggers.Count(r.triggers) <= Triggers.Count(s.triggers)
      && (ConfigOk(s.market.value) ==> ConfigOk(r.market.value))
    decreases fills
  {
    if fills != [] {
      var f := fills[0];
      var l := Settle(LedgerOf(s), f);
      DropCount(s.triggers, l.positions, f.taker);
      DropCount(DropIfFlat(s.triggers, l.positions, f.taker), l.positions, f.maker);
      ApplyFillsFrame(ApplyFill(s, f), fills[1..]);
    }
  }

  function Prices(fills: seq<Fill>): seq<int> {
    if fills == [] then [] else [fills[0].price] + Prices(fills[1..])
  }

  /** The mark after a batch of fills is the old mark smoothed by their prices, in order. */
  lemma {:induction false} ApplyFillsMark(s: Slice, fills: seq<Fill>)
    requires s.market.Some?
    ensures ApplyFills(s, fills).market.value.mark == MarkPrice.SmoothAll(s.market.value.mark, Prices(fills))
    decreases fills
  {
    if fills != [] {
      ApplyFillsMark(ApplyFill(s, fills[0]), fills[1..]);
      assert Prices(fills)[1..] == Prices(fills[1..]);
    }
  }

  lemma DropCount(ts: Triggers.TriggerState, p: Positions, a: Account)
    ensures Triggers.Count(DropIfFlat(ts, p, a)) <= Triggers.Count(ts)
  {
    Triggers.RemoveTriggersCount(ts,
      Triggers.IdsOf(Triggers.Flat(ts.above), a) + Triggers.IdsOf(Triggers.Flat(ts.below), a));
  }

  lemma AbsorbFrame(s: Slice, p: Outcome)
    requires s.market.Some?
    ensures Triggers.Count(Absorb(s, p).slice.triggers) <= Triggers.Count(s.triggers)
    ensures Absorb(s, p).slice.id == s.id
    ensures ConfigOk(s.market.value) ==> ConfigOk(Absorb(s, p).slice.market.value)
  {
    if p.result.Ok? {
      ApplyFillsFrame(Sync(s.(book := p.book), p.result.value.1), p.result.value.1);
    }
  }

  lemma ExecuteFrame(s: Slice, o: Order)
    requires s.market.Some?
    ensures Triggers.Count(Execute(s, o).slice.triggers) <= Triggers.Count(s.triggers)
    ensures Execute(s, o).slice.id == s.id
    ensures ConfigOk(s.market.value) ==> ConfigOk(Execute(s, o).slice.market.value)
  {
    AbsorbFrame(s, Process(s.book, o));
  }
}

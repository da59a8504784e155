/** The engine object: the step-by-step procedures, proved against the market specification. */
module EngineObject {
  import opened Options
  import opened Orders
  import opened Books
  import opened Matching
  import opened Accounting
  import opened Trading
  import opened MarketInvariant
  import opened ExchangeRuns
  import Triggers
  import MarkPrice

  // ---- Facts about the record updates ----

  lemma {:induction false} RetainTwice(ids: seq<OrderId>, a: set<OrderId>, b: set<OrderId>)
    ensures Retain(Retain(ids, a), b) == Retain(ids, a + b)
  {
    if ids != [] {
      RetainTwice(ids[1..], a, b);
      if ids[0] !in a {
        assert ([ids[0]] + Retain(ids[1..], a))[1..] == Retain(ids[1..], a);
      }
    }
  }

  lemma {:induction false} RetainNone(ids: seq<OrderId>)
    ensures Retain(ids, {}) == ids
  {
    if ids != [] { RetainNone(ids[1..]); }
  }

  function Elems(ids: seq<OrderId>): set<OrderId> { set id | id in ids }

  /** Removing a list of orders that are no longer on the book, one after the other. */
  lemma {:induction false} RemoveAllShape(s: Slice, ids: seq<OrderId>)
    requires forall id :: id in ids ==> id !in s.book.index
    ensures var t := RemoveAll(s, ids);
      && t == s.(orders := t.orders, accountOrders := t.accountOrders)
      && t.orders == s.orders - Elems(ids)
      && t.accountOrders.Keys == s.accountOrders.Keys
      && (forall a :: a in s.accountOrders ==>
            t.accountOrders[a] == Retain(s.accountOrders[a], OwnedBy(s.orders, Elems(ids), a)))
    decreases ids
  {
    if ids == [] {
      assert s.orders - Elems(ids) == s.orders;
      forall a | a in s.accountOrders ensures s.accountOrders[a] == Retain(s.accountOrders[a], OwnedBy(s.orders, Elems(ids), a)) {
        assert OwnedBy(s.orders, Elems(ids), a) == {};
        RetainNone(s.accountOrders[a]);
      }
    } else {
      var u := RemoveOrder(s, ids[0]);
      RemoveOneShape(s, ids[0]);
      assert forall id :: id in ids[1..] ==> id in ids;
      RemoveAllShape(u, ids[1..]);
      var t := RemoveAll(s, ids);
      assert Elems(ids) == {ids[0]} + Elems(ids[1..]);
      assert u.orders == s.orders - {ids[0]};
      forall a | a in s.accountOrders ensures t.accountOrders[a] == Retain(s.accountOrders[a], OwnedBy(s.orders, Elems(ids), a)) {
        RetainTwice(s.accountOrders[a], OwnedBy(s.orders, {ids[0]}, a), OwnedBy(u.orders, Elems(ids[1..]), a));
        OwnedSplit(s.orders, ids[0], Elems(ids[1..]), a);
      }
    }
  }

  lemma OwnedSplit(orders: map<OrderId, Order>, id: OrderId, rest: set<OrderId>, a: Account)
    ensures OwnedBy(orders, {id} + rest, a) == OwnedBy(orders, {id}, a) + OwnedBy(orders - {id}, rest, a)
  {
  }

  lemma RemoveOneShape(s: Slice, id: OrderId)
    requires id !in s.book.index
    ensures var t := RemoveOrder(s, id);
      && t == s.(orders := t.orders, accountOrders := t.accountOrders)
      && t.orders == s.orders - {id}
      && t.accountOrders.Keys == s.accountOrders.Keys
      && (forall a :: a in s.accountOrders ==>
            t.accountOrders[a] == Retain(s.accountOrders[a], OwnedBy(s.orders, {id}, a)))
  {
    if id !in s.orders {
      assert s.orders - {id} == s.orders;
    }
    forall a | a in s.accountOrders
      ensures RemoveOrder(s, id).accountOrders[a] == Retain(s.accountOrders[a], OwnedBy(s.orders, {id}, a))
    {
      RetainNone(s.accountOrders[a]);
      if id in s.orders && s.orders[id].owner == a {
        assert OwnedBy(s.orders, {id}, a) == {id};
      } else {
        assert OwnedBy(s.orders, {id}, a) == {};
      }
    }
  }

  /** The list names `id`. */
  ghost predicate Names(partial: seq<(OrderId, int)>, id: OrderId) {
    exists k :: 0 <= k < |partial| && partial[k].0 == id
  }

  ghost predicate SizeLeft(b: Book, id: OrderId, size: int) { Get(b, id).Some? && size == Get(b, id).value.remaining }

  /** The list holds exactly the makers still on the book, each with the size it has left there. */
  ghost predicate LeftOver(b: Book, makers: set<OrderId>, partial: seq<(OrderId, int)>) {
    && (forall k :: 0 <= k < |partial| ==> partial[k].0 in makers && SizeLeft(b, partial[k].0, partial[k].1))
    && (forall id :: id in makers && Get(b, id).Some? ==> Names(partial, id))
  }

  lemma NamesMore(b: Book, makers: set<OrderId>, partial: seq<(OrderId, int)>, id: OrderId, remaining: int)
    requires LeftOver(b, makers, partial) && Get(b, id).Some? && remaining == Get(b, id).value.remaining
    ensures LeftOver(b, makers + {id}, partial + [(id, remaining)])
  {
    var more := partial + [(id, remaining)];
    assert more[|partial|].0 == id;
    forall i | i in makers + {id} && Get(b, i).Some? ensures Names(more, i) {
      if i != id {
        assert Names(partial, i);
        var k :| 0 <= k < |partial| && partial[k].0 == i;
        assert more[k].0 == i;
      }
    }
  }

  /** Sort the makers of a match into those gone from the book and those still there. */
  method ClassifyMakers(b: Book, fills: seq<Fill>) returns (gone: seq<OrderId>, partial: seq<(OrderId, int)>)
    ensures Elems(gone) == Spent(b, fills)
    ensures LeftOver(b, MakerIds(fills), partial)
  {
    gone, partial := [], [];
    var seen: set<OrderId> := {};
    for i := 0 to |fills|
      invariant seen == MakerIds(fills[..i])
      invariant Elems(gone) == Spent(b, fills[..i])
      invariant LeftOver(b, seen, partial)
    {
      var id := fills[i].makerOrderId;
      assert fills[..i + 1] == fills[..i] + [fills[i]];
      assert MakerIds(fills[..i + 1]) == seen + {id};
      assert Spent(b, fills[..i + 1]) == Spent(b, fills[..i]) + if Get(b, id).None? then {id} else {};
      if id !in seen {
        match Get(b, id) {
          case None =>
            assert Elems(gone + [id]) == Elems(gone) + {id};
            gone := gone + [id];
          case Some(o) =>
            NamesMore(b, seen, partial, id, o.remaining);
            partial := partial + [(id, o.remaining)];
        }
        seen := seen + {id};
      }
    }
    assert fills[..|fills|] == fills;
  }

  /** Remove a list of orders, one after the other. */
  method RemoveListed(s: Slice, ids: seq<OrderId>) returns (t: Slice)
    ensures t == RemoveAll(s, ids)
  {
    t := s;
    for i := 0 to |ids|
      invariant RemoveAll(t, ids[i..]) == RemoveAll(s, ids)
    {
      t := RemoveOrder(t, ids[i]);
    }
  }

  /** Write the sizes left on the book into the order records. */
  method RefreshRecords(orders: map<OrderId, Order>, b: Book, makers: set<OrderId>, partial: seq<(OrderId, int)>)
    returns (r: map<OrderId, Order>)
    requires LeftOver(b, makers, partial)
    ensures r.Keys == orders.Keys
    ensures forall id :: id in orders ==> r[id] == AtBook(orders[id], b, id in makers && Get(b, id).Some?, id)
  {
    r := orders;
    for i := 0 to |partial|
      invariant r.Keys == orders.Keys
      invariant forall id :: id in orders ==> r[id] == AtBook(orders[id], b, Names(partial[..i], id), id)
    {
      ghost var was := partial[..i];
      assert partial[..i + 1] == was + [partial[i]];
      forall id ensures Names(partial[..i + 1], id) <==> Names(was, id) || id == partial[i].0 {
        assert partial[..i + 1][i] == partial[i];
        if Names(was, id) {
          var k :| 0 <= k < |was| && was[k].0 == id;
          assert partial[..i + 1][k].0 == id;
        }
      }
      if partial[i].0 in r {
        r := r[partial[i].0 := r[partial[i].0].(remaining := partial[i].1, status := PartiallyFilled)];
      }
    }
    assert partial[..|partial|] == partial;
  }

  /** The record of an order that traded in part: the size it has on the book. */
  function AtBook(o: Order, b: Book, traded: bool, id: OrderId): Order {
    if traded && Get(b, id).Some? then o.(remaining := Get(b, id).value.remaining, status := PartiallyFilled) else o
  }

  lemma SpentGone(b: Book, fills: seq<Fill>, gone: seq<OrderId>)
    requires WellFormed(b) && Elems(gone) == Spent(b, fills)
    ensures forall id :: id in gone ==> id !in b.index
  {
    forall id | id in gone ensures id !in b.index {
      assert id in Elems(gone);
      GetFinds(b, id);
    }
  }

  lemma SyncShape(s: Slice, fills: seq<Fill>, gone: seq<OrderId>, r: map<OrderId, Order>)
    requires WellFormed(s.book) && Elems(gone) == Spent(s.book, fills)
    requires var t := RemoveAll(s, gone); r.Keys == t.orders.Keys && forall id :: id in t.orders ==>
      r[id] == AtBook(t.orders[id], s.book, id in MakerIds(fills) && Get(s.book, id).Some?, id)
    ensures RemoveAll(s, gone).(orders := r) == Sync(s, fills)
  {
    SpentGone(s.book, fills, gone);
    RemoveAllShape(s, gone);
    var t := RemoveAll(s, gone);
    assert r == SyncedOrders(s.orders, s.book, fills);
    assert t.accountOrders == Sync(s, fills).accountOrders;
  }

  /** Bring records and account lists up to date with the book after a match. */
  method SyncMakers(s: Slice, fills: seq<Fill>) returns (t: Slice)
    requires WellFormed(s.book)
    ensures t == Sync(s, fills)
  {
    var gone, partial := ClassifyMakers(s.book, fills);
    t := RemoveListed(s, gone);
    var r := RefreshRecords(t.orders, s.book, MakerIds(fills), partial);
    SyncShape(s, fills, gone, r);
    t := t.(orders := r);
  }

  /** Settle one fill: positions, open interest, mark price, triggers of parties that went flat. */
  method SettleFill(s: Slice, f: Fill) returns (t: Slice)
    requires s.market.Some?
    ensures t == ApplyFill(s, f)
  {
    var info := s.market.value;
    var makerBefore, takerBefore := SizeOf(s.positions, f.maker), SizeOf(s.positions, f.taker);
    var positions := s.positions;
    if f.maker in positions {
      positions := positions[f.maker := positions[f.maker] + Signed(f.size, !f.takerBuys)];
    }
    if f.taker in positions {
      positions := positions[f.taker := positions[f.taker] + Signed(f.size, f.takerBuys)];
    }
    var makerAfter, takerAfter := SizeOf(positions, f.maker), SizeOf(positions, f.taker);
    var deltaLong := (Long(makerAfter) - Long(makerBefore)) + (Long(takerAfter) - Long(takerBefore));
    var deltaShort := (Short(makerAfter) - Short(makerBefore)) + (Short(takerAfter) - Short(takerBefore));
    assert Settle(LedgerOf(s), f) == Ledger(positions, info.oiLong + deltaLong, info.oiShort + deltaShort);
    info := info.(oiLong := info.oiLong + deltaLong, oiShort := info.oiShort + deltaShort);
    info := info.(mark := MarkPrice.Smooth(info.mark, f.price));
    var triggers := s.triggers;
    if f.taker in positions && positions[f.taker] == 0 {
      triggers := Triggers.CancelFor(triggers, f.taker);
    }
    if f.maker in positions && positions[f.maker] == 0 {
      triggers := Triggers.CancelFor(triggers, f.maker);
    }
    t := s.(positions := positions, market := Some(info), triggers := triggers);
  }

  /** Settle the fills of one order in turn. */
  method SettleFills(s: Slice, fills: seq<Fill>) returns (t: Slice)
    requires s.market.Some?
    ensures t == ApplyFills(s, fills)
  {
    t := s;
    for i := 0 to |fills|
      invariant t.market.Some?
      invariant ApplyFills(t, fills[i..]) == ApplyFills(s, fills)
    {
      assert fills[i..][0] == fills[i] && fills[i..][1..] == fills[i + 1..];
      t := SettleFill(t, fills[i]);
    }
  }

  /** Take the outcome of matching into the market: synchronise, settle, rest the remainder. */
  method TakeOutcome(s: Slice, p: Outcome) returns (t: Slice)
    requires s.market.Some? && WellFormed(p.book)
    ensures t == Absorb(s, p).slice
  {
    t := s.(book := p.book);
    if p.result.Ok? {
      var taker, fills := p.result.value.0, p.result.value.1;
      t := SyncMakers(t, fills);
      t := SettleFills(t, fills);
      if taker.remaining != 0 && taker.ShouldRest() {
        t := AddOrder(t, taker);
      }
    }
  }

  /** Match an order on the book object, then take the outcome into the market. */
  method ExecuteOrder(s: Slice, order: Order) returns (t: Slice, result: Placed)
    requires s.market.Some? && WellFormed(s.book)
    requires 0 < order.price && 0 < order.remaining && order.id !in s.book.index
    ensures Executed(t, result) == Execute(s, order)
  {
    var book := new OrderBook(s.book);
    result := ProcessOrder(order, book);
    assert WellFormed(book.Contents()) by { ProcessKeeps(s.book, order); }
    t := TakeOutcome(s, Outcome(book.Contents(), result));
  }

  /** Buckets before `i` are dealt with, those from `i` on still to do. */
  ghost predicate Taking(d: TriggerDirection, bs: seq<Triggers.Bucket>, price: int, i: nat,
                         kept: seq<Triggers.Bucket>, fired: seq<Order>)
    requires i <= |bs|
  {
    && kept + Triggers.Kept(d, bs[i..], price) == Triggers.Kept(d, bs, price)
    && fired + Triggers.Fired(d, bs[i..], price) == Triggers.Fired(d, bs, price)
  }

  lemma TakingNext(d: TriggerDirection, bs: seq<Triggers.Bucket>, price: int, i: nat,
                   kept: seq<Triggers.Bucket>, fired: seq<Order>)
    requires i < |bs| && Taking(d, bs, price, i, kept, fired)
    ensures if Triggers.Fires(d, bs[i].price, price) then Taking(d, bs, price, i + 1, kept, fired + bs[i].orders)
            else Taking(d, bs, price, i + 1, kept + [bs[i]], fired)
  {
    assert bs[i..][0] == bs[i] && bs[i..][1..] == bs[i + 1..];
  }

  lemma IdsConcat(a: seq<Order>, b: seq<Order>)
    ensures Triggers.Ids(a + b) == Triggers.Ids(a) + Triggers.Ids(b)
  {
  }

  /** Take out the triggers of one direction that the price has reached. */
  method TakeTriggered(ts: Triggers.TriggerState, d: TriggerDirection, price: int)
    returns (us: Triggers.TriggerState, fired: seq<Order>)
    ensures fired == Triggers.Fired(d, Triggers.Side(ts, d), price)
    ensures us == Triggers.Pop(ts, d, price)
  {
    var bs := Triggers.Side(ts, d);
    var kept: seq<Triggers.Bucket> := [];
    var index := ts.index;
    fired := [];
    for i := 0 to |bs|
      invariant Taking(d, bs, price, i, kept, fired)
      invariant index == ts.index - Triggers.Ids(fired)
    {
      TakingNext(d, bs, price, i, kept, fired);
      if Triggers.Fires(d, bs[i].price, price) {
        IdsConcat(fired, bs[i].orders);
        index := index - Triggers.Ids(bs[i].orders);
        fired := fired + bs[i].orders;
      } else {
        kept := kept + [bs[i]];
      }
    }
    assert kept + [] == kept && fired + [] == fired;
    us := Triggers.WithSide(ts, d, kept).(index := index);
  }

  /** The last write to a key wins. */
  lemma UpdateTwice<K, V>(f: map<K, V>, k: K, v: V, w: V)
    ensures f[k := v][k := w] == f[k := w]
  {
  }

  lemma PlaceShape(c: Core, a: Account, req: OrderRequest, ts: nat, margin: MarginPolicy)
    requires CoreOk(c)
    ensures var adm := Admit(c.slice, a, req, margin, c.nextId);
      && adm.slice.triggers == c.slice.triggers
      && (adm.Admitted? ==> adm.slice.market.Some? && CoreOk(Core(adm.slice, c.nextId)))
      && Place(c, a, req, ts, margin) ==
         if adm.Refused? then PlaceOutcome(Core(adm.slice, c.nextId), Err(adm.error), [])
         else Submit(Core(adm.slice, c.nextId), NewOrder(c.nextId, a, req, ts), ts, margin)
  {
  }

  /** A plain order: what is left to do once it has been executed with outcome (t, result). */
  lemma EnterShape(c: Core, o: Order, ts: nat, margin: MarginPolicy, t: Slice, result: Placed)
    requires Submittable(c, o) && o.triggerPrice.None? && Executed(t, result) == Execute(c.slice, o)
    ensures var next := Core(t, c.nextId + 1); var p := Submit(c, o, ts, margin);
      && CoreOk(next) && t.market.Some? && SliceOk(t, c.nextId + 1) && t.id == c.slice.id
      && Triggers.Count(t.triggers) <= TriggerCount(c)
      && p.result == result
      && (MovesMark(Executed(t, result)) ==> p.core == Check(next, t.market.value.mark, ts, margin).core)
      && (!MovesMark(Executed(t, result)) ==> p.core == next)
  {
    SubmitShape(c, o, ts, margin);
    ExecuteKeeps(c.slice, c.nextId, o);
  }

  lemma PlaceAllStep(c: Core, orders: seq<Order>, ts: nat, margin: MarginPolicy)
    requires CoreOk(c) && orders != []
    ensures var p := Place(c, orders[0].owner, Reissue(orders[0]), ts, margin);
      var k := PlaceAll(p.core, orders[1..], ts, margin); var all := PlaceAll(c, orders, ts, margin);
      all.core == k.core && all.results == OkOnly(p.result) + k.results
  {
  }

  lemma CheckShape(c: Core, price: int, ts: nat, margin: MarginPolicy)
    requires CoreOk(c)
    ensures Check(c, price, ts, margin) ==
      PlaceAll(Core(c.slice.(triggers := Triggers.PopAll(c.slice.triggers, price)), c.nextId),
               Triggers.AllFired(c.slice.triggers, price), ts, margin)
  {
    Triggers.PopAllCount(c.slice.triggers, price);
  }

  /** What is left to place from here completes what was to be placed at the start. */
  ghost predicate Resumes(goal: CheckOutcome, c: Core, orders: seq<Order>, results: seq<(Order, seq<Fill>)>,
                          ts: nat, margin: MarginPolicy)
    requires CoreOk(c)
  {
    var k := PlaceAll(c, orders, ts, margin);
    goal.core == k.core && goal.results == results + k.results
  }

  lemma ResumesNext(goal: CheckOutcome, c: Core, orders: seq<Order>, results: seq<(Order, seq<Fill>)>,
                    ts: nat, margin: MarginPolicy)
    requires CoreOk(c) && orders != [] && Resumes(goal, c, orders, results, ts, margin)
    ensures var p := Place(c, orders[0].owner, Reissue(orders[0]), ts, margin);
      && TriggerCount(p.core) <= TriggerCount(c)
      && Resumes(goal, p.core, orders[1..], results + OkOnly(p.result), ts, margin)
  {
    PlaceAllStep(c, orders, ts, margin);
    var p := Place(c, orders[0].owner, Reissue(orders[0]), ts, margin);
    var k := PlaceAll(p.core, orders[1..], ts, margin);
    Regrouped(results, OkOnly(p.result), k.results);
  }

  lemma Regrouped<T>(a: seq<T>, b: seq<T>, c: seq<T>)
    ensures a + (b + c) == a + b + c
  {
  }

  function OkOnly(r: Placed): seq<(Order, seq<Fill>)> { if r.Ok? then [r.value] else [] }

  class Engine {
    var slices: map<MarketId, Slice>
    var nextOrderId: nat
    var matching: set<MarketId>

    ghost function State(): Exchange
      reads this
    {
      Exchange(slices, nextOrderId, matching)
    }

    function CoreOf(m: MarketId): Core
      requires m in slices
      reads this
    {
      Core(slices[m], nextOrderId)
    }

    ghost predicate Sound(m: MarketId)
      reads this
    {
      m in slices && SliceOk(slices[m], nextOrderId) && slices[m].id == m
    }

    /** Stored triggers of a market. */
    ghost function Waiting(m: MarketId): nat
      reads this
    {
      if m in slices then Triggers.Count(slices[m].triggers) else 0
    }

    constructor ()
      ensures State() == NEW_EXCHANGE
    {
      slices, nextOrderId, matching := map[], 1, {};
    }

    method AddNewMarket(m: MarketId, info: MarketInfo)
      requires Configured(State())
      modifies this
      ensures State() == old(Step(State(), AddMarket(m, info)))
    {
      slices := slices[m := NewSlice(m, info)];
      matching := matching + {m};
    }

    /** Validate a request and open an empty position; answers why the order is refused, if it is. */
    method AdmitOrder(account: Account, req: OrderRequest, margin: MarginPolicy) returns (refusal: Option<Error>)
      requires req.market in slices && CoreOk(CoreOf(req.market))
      modifies this`slices
      ensures var adm := Admit(old(slices[req.market]), account, req, margin, nextOrderId);
        && slices == old(slices)[req.market := adm.slice]
        && refusal == if adm.Refused? then Some(adm.error) else None
    {
      var m := req.market;
      var s := slices[m];
      if s.market.None? {
        return Some(MarketNotFound);
      }
      if !s.market.value.active {
        return Some(MarketPaused);
      }
      var invalid := Validate(s.market.value, req);
      if invalid.Some? {
        return invalid;
      }
      if account !in s.positions {
        s := s.(positions := s.positions[account := 0]);
        slices := slices[m := s];
      }
      if req.reduceOnly && Increases(req, s.positions[account]) {
        return Some(ReduceOnlyViolation);
      }
      if !req.reduceOnly && !margin(account, req, s, nextOrderId) {
        return Some(InsufficientMargin);
      }
      return None;
    }

    /** Place an order: admit it, then store or execute it. */
    method SubmitOrder(account: Account, req: OrderRequest, ts: nat, margin: MarginPolicy) returns (result: Placed)
      requires 0 < req.price && (req.market in slices ==> Sound(req.market))
      modifies this`slices, this`nextOrderId
      ensures req.market !in old(slices) ==> result == Err(MarketNotFound) && State() == old(State())
      ensures req.market in old(slices) ==>
        var p := Place(old(CoreOf(req.market)), account, req, ts, margin);
        && slices == old(slices)[req.market := p.core.slice]
        && nextOrderId == p.core.nextId
        && result == p.result
      decreases Waiting(req.market), 2, 0
    {
      var m := req.market;
      if m !in slices {
        return Err(MarketNotFound);
      }
      PlaceShape(CoreOf(m), account, req, ts, margin);
      AdmitKeeps(slices[m], account, req, margin, nextOrderId);
      var refusal := AdmitOrder(account, req, margin);
      if refusal.Some? {
        return Err(refusal.value);
      }
      ghost var admitted := slices[m];
      result := EnterOrder(m, NewOrder(nextOrderId, account, req, ts), ts, margin);
      UpdateTwice(old(slices), m, admitted, slices[m]);
    }

    /** Store a trigger order; match any other, and fire the triggers that the new mark reaches. */
    method EnterOrder(m: MarketId, order: Order, ts: nat, margin: MarginPolicy) returns (result: Placed)
      requires m in slices && order.market == m && Submittable(CoreOf(m), order)
      modifies this`slices, this`nextOrderId
      ensures var p := Submit(old(CoreOf(m)), order, ts, margin);
        && slices == old(slices)[m := p.core.slice]
        && nextOrderId == p.core.nextId
        && result == p.result
      decreases Waiting(m), 1, 1
    {
      if order.triggerPrice.Some? {
        slices := slices[m := slices[m].(triggers := Triggers.Add(slices[m].triggers, order))];
        nextOrderId := nextOrderId + 1;
        result := Ok((order, []));
      } else {
        result := RunOrder(m, order, ts, margin);
      }
    }

    /** Match an order and bring the records up to date. */
    method MatchOrder(m: MarketId, order: Order) returns (t: Slice, result: Placed)
      requires m in slices && Submittable(CoreOf(m), order)
      modifies this`slices, this`nextOrderId
      ensures Executed(t, result) == Execute(old(slices[m]), order)
      ensures slices == old(slices)[m := t] && nextOrderId == old(nextOrderId) + 1
    {
      NewId(slices[m], nextOrderId);
      t, result := ExecuteOrder(slices[m], order);
      slices, nextOrderId := slices[m := t], nextOrderId + 1;
    }

    /** Match an order that does not wait, then fire the triggers that the new mark reaches. */
    method RunOrder(m: MarketId, order: Order, ts: nat, margin: MarginPolicy) returns (result: Placed)
      requires m in slices && order.market == m && Submittable(CoreOf(m), order) && order.triggerPrice.None?
      modifies this`slices, this`nextOrderId
      ensures var p := Submit(old(CoreOf(m)), order, ts, margin);
        && slices == old(slices)[m := p.core.slice]
        && nextOrderId == p.core.nextId
        && result == p.result
      decreases Waiting(m), 1, 0
    {
      ghost var before := slices;
      ghost var c := CoreOf(m);
      var t;
      t, result := MatchOrder(m, order);
      EnterShape(c, order, ts, margin, t, result);
      assert CoreOf(m) == Core(t, c.nextId + 1);
      if result.Ok? && result.value.1 != [] && t.market.value.mark != 0 {
        ghost var k := Check(Core(t, c.nextId + 1), t.market.value.mark, ts, margin);
        var _ := FireTriggers(m, t.market.value.mark, ts, margin);
        UpdateTwice(before, m, t, k.core.slice);
      }
    }

    /** Fire every trigger that `price` reaches, re-placing each as a plain order, in order of id. */
    method FireTriggers(m: MarketId, price: int, ts: nat, margin: MarginPolicy)
      returns (results: seq<(Order, seq<Fill>)>)
      requires Sound(m)
      modifies this`slices, this`nextOrderId
      ensures var k := Check(old(CoreOf(m)), price, ts, margin);
        && slices == old(slices)[m := k.core.slice]
        && nextOrderId == k.core.nextId
        && results == k.results
      decreases Waiting(m), 0, 0
    {
      CheckShape(CoreOf(m), price, ts, margin);
      Triggers.PopAllCount(slices[m].triggers, price);
      PopKeepsSlice(CoreOf(m), price);
      var s := slices[m];
      var popped, above := TakeTriggered(s.triggers, Above, price);
      var quiet, below := TakeTriggered(popped, Below, price);
      var all := Triggers.SortById(above + below);
      slices := slices[m := s.(triggers := quiet)];
      results := [];
      if all != [] {
        results := ReplaceAll(m, all, ts, margin);
        UpdateTwice(old(slices), m, s.(triggers := quiet), slices[m]);
      }
    }

    /** Re-place one fired trigger; a failure is skipped. */
    method ReplaceOne(m: MarketId, o: Order, ts: nat, margin: MarginPolicy) returns (placed: seq<(Order, seq<Fill>)>)
      requires Sound(m) && 0 < o.price && o.market == m
      modifies this`slices, this`nextOrderId
      ensures var p := Place(old(CoreOf(m)), o.owner, Reissue(o), ts, margin);
        && slices == old(slices)[m := p.core.slice]
        && CoreOf(m) == p.core && Sound(m)
        && placed == OkOnly(p.result)
      decreases Waiting(m), 2, 1
    {
      PlaceKeeps(CoreOf(m), o.owner, Reissue(o), ts, margin);
      var r := SubmitOrder(o.owner, Reissue(o), ts, margin);
      placed := OkOnly(r);
    }

    /** Re-place fired triggers one after the other. */
    method ReplaceAll(m: MarketId, orders: seq<Order>, ts: nat, margin: MarginPolicy)
      returns (results: seq<(Order, seq<Fill>)>)
      requires Sound(m) && forall o :: o in orders ==> 0 < o.price && o.market == m
      modifies this`slices, this`nextOrderId
      ensures var k := PlaceAll(old(CoreOf(m)), orders, ts, margin);
        && slices == old(slices)[m := k.core.slice]
        && nextOrderId == k.core.nextId
        && results == k.results
      decreases Waiting(m), 3, |orders|
    {
      ghost var goal := PlaceAll(CoreOf(m), orders, ts, margin);
      results := [];
      for i := 0 to |orders|
        invariant Sound(m) && slices == old(slices)[m := slices[m]]
        invariant Waiting(m) <= old(Waiting(m))
        invariant Resumes(goal, CoreOf(m), orders[i..], results, ts, margin)
      {
        var o := orders[i];
        assert o in orders && orders[i..][0] == o && orders[i..][1..] == orders[i + 1..];
        ResumesNext(goal, CoreOf(m), orders[i..], results, ts, margin);
        ghost var was := slices[m];
        var placed := ReplaceOne(m, o, ts, margin);
        UpdateTwice(old(slices), m, was, slices[m]);
        results := results + placed;
      }
      assert results + [] == results;
    }

    // ---- Cancelling ----

    method Cancel(account: Account, m: MarketId, id: OrderId) returns (result: Result<Order>)
      requires Configured(State())
      modifies this`slices
      ensures State() == old(Step(State(), CancelOrder(account, m, id)))
      ensures if m !in old(slices) || id !in old(slices)[m].orders then result == Err(OrderNotFound)
        else if old(slices)[m].orders[id].owner != account then result == Err(OrderNotOwned)
        else if m !in matching then result == Err(MarketNotFound)
        else result == Ok(old(slices)[m].orders[id].(status := Canceled))
    {
      if m !in slices || id !in slices[m].orders {
        return Err(OrderNotFound);
      }
      var order := slices[m].orders[id];
      if order.owner != account {
        return Err(OrderNotOwned);
      }
      slices := slices[m := RemoveOrder(slices[m], id)];
      if m !in matching {
        return Err(MarketNotFound);
      }
      return Ok(order.(status := Canceled));
    }

    /** Cancel all orders of an account in a market. If the matching engine does not know the market, the first
        order is gone from the records before that is noticed, and the others stay. */
    method CancelAllOrders(account: Account, m: MarketId) returns (result: Result<seq<Order>>)
      requires Configured(State())
      modifies this`slices
      ensures result.Err? <==> m !in matching && OpenHere(old(slices), account, m) != []
      ensures result.Ok? ==> State() == old(Step(State(), CancelAll(account, m)))
      ensures result.Ok? && m in old(slices) ==> CanceledList(old(slices)[m], account, result.value)
      ensures result.Err? ==>
        && m in old(slices) && result == Err(MarketNotFound)
        && slices == old(slices)[m := RemoveOrder(old(slices)[m], OpenHere(old(slices), account, m)[0])]
    {
      if m !in slices {
        return Ok([]);
      }
      var s := slices[m];
      var t;
      t, result := CancelListed(s, account, m in matching);
      slices := slices[m := t];
    }
  }

  /** The account's open orders in a market, in list order. */
  function OpenHere(slices: map<MarketId, Slice>, a: Account, m: MarketId): seq<OrderId> {
    if m in slices then OpenIds(slices[m], Listed(slices[m].accountOrders, a)) else []
  }

  /** The account's open orders, in list order, each marked canceled. */
  ghost predicate CanceledList(s: Slice, a: Account, canceled: seq<Order>) {
    var ids := OpenIds(s, Listed(s.accountOrders, a));
    CanceledUpTo(s, ids, |ids|, canceled)
  }

  ghost predicate CanceledUpTo(s: Slice, ids: seq<OrderId>, n: nat, canceled: seq<Order>) {
    n <= |ids| && |canceled| == n &&
    forall i :: 0 <= i < n ==> ids[i] in s.orders && canceled[i] == s.orders[ids[i]].(status := Canceled)
  }

  lemma CanceledMore(s: Slice, ids: seq<OrderId>, n: nat, canceled: seq<Order>)
    requires CanceledUpTo(s, ids, n, canceled) && n < |ids| && ids[n] in s.orders
    ensures CanceledUpTo(s, ids, n + 1, canceled + [s.orders[ids[n]].(status := Canceled)])
  {
  }

  /** Each order is taken off the records first and then off the matching engine's book, if that is known. */
  method CancelListed(s: Slice, account: Account, known: bool) returns (t: Slice, result: Result<seq<Order>>)
    ensures var ids := OpenIds(s, Listed(s.accountOrders, account));
      if known || ids == [] then t == RemoveAll(s, ids) && result.Ok? && CanceledList(s, account, result.value)
      else t == RemoveOrder(s, ids[0]) && result == Err(MarketNotFound)
  {
    var ids := OpenIds(s, Listed(s.accountOrders, account));
    OpenIdsMembers(s, Listed(s.accountOrders, account));
    t := s;
    var canceled := [];
    for i := 0 to |ids|
      invariant RemoveAll(t, ids[i..]) == RemoveAll(s, ids)
      invariant CanceledUpTo(s, ids, i, canceled)
      invariant !known ==> i == 0 && t == s
    {
      assert ids[i] in ids && ids[i..][0] == ids[i] && ids[i..][1..] == ids[i + 1..];
      CanceledMore(s, ids, i, canceled);
      t := RemoveOrder(t, ids[i]);
      if !known {
        return t, Err(MarketNotFound);
      }
      canceled := canceled + [s.orders[ids[i]].(status := Canceled)];
    }
    result := Ok(canceled);
  }
}

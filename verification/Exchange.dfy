/** All markets together: every run of placements, cancellations and trigger checks. */
module ExchangeRuns {
  import opened Options
  import opened Orders
  import opened Books
  import opened Matching
  import opened Accounting
  import opened Trading
  import opened Agreement
  import opened MarketInvariant
  import Triggers
  import MapSum

  /** The engine: its markets, the next order id, and the markets its matching engine knows. */
  datatype Exchange = Exchange(slices: map<MarketId, Slice>, nextId: nat, matching: set<MarketId>)

  const NEW_EXCHANGE := Exchange(map[], 1, {})

  datatype Action =
    | AddMarket(market: MarketId, info: MarketInfo)
    | PlaceOrder(account: Account, request: OrderRequest, timestamp: nat, margin: MarginPolicy)
    | CancelOrder(account: Account, market: MarketId, id: OrderId)
    | CancelAll(account: Account, market: MarketId)
    | CancelTrigger(market: MarketId, id: OrderId)
    | CheckTriggers(market: MarketId, price: int, timestamp: nat, margin: MarginPolicy)

  function NewSlice(m: MarketId, info: MarketInfo): Slice {
    Slice(m, Some(info), map[], map[], EMPTY_BOOK, map[], map[], Triggers.NO_TRIGGERS)
  }

  predicate MayCancel(s: Slice, a: Account, id: OrderId) { id in s.orders && s.orders[id].owner == a }

  function RemoveAll(s: Slice, ids: seq<OrderId>): Slice
    decreases ids
  {
    if ids == [] then s else RemoveAll(RemoveOrder(s, ids[0]), ids[1..])
  }

  /** The account's listed orders that are still on record. */
  function OpenIds(s: Slice, ids: seq<OrderId>): seq<OrderId> {
    if ids == [] then []
    else (if ids[0] in s.orders then [ids[0]] else []) + OpenIds(s, ids[1..])
  }

  ghost predicate Configured(e: Exchange) { forall m :: m in e.slices ==> CoreOk(Core(e.slices[m], e.nextId)) }

  /** The market an action is about. */
  function MarketOf(act: Action): MarketId {
    match act
    case AddMarket(m, _) => m
    case PlaceOrder(_, req, _, _) => req.market
    case CancelOrder(_, m, _) => m
    case CancelAll(_, m) => m
    case CancelTrigger(m, _) => m
    case CheckTriggers(m, _, _, _) => m
  }

  /** What an action does to its market. Cancellations presuppose, as `AddMarket` arranges, that the
      matching engine knows the market. */
  ghost function Act(c: Core, act: Action): Core
    requires CoreOk(c)
  {
    var s := c.slice;
    match act
    case AddMarket(_, info) => c
    case PlaceOrder(a, req, ts, margin) => Place(c, a, req, ts, margin).core
    case CancelOrder(a, _, id) => if MayCancel(s, a, id) then Core(RemoveOrder(s, id), c.nextId) else c
    case CancelAll(a, _) => Core(RemoveAll(s, OpenIds(s, Listed(s.accountOrders, a))), c.nextId)
    case CancelTrigger(_, id) => Core(s.(triggers := Triggers.RemoveTrigger(s.triggers, id)), c.nextId)
    case CheckTriggers(_, price, ts, margin) => Check(c, price, ts, margin).core
  }

  ghost function Step(e: Exchange, act: Action): Exchange
    requires Configured(e)
  {
    var m := MarketOf(act);
    if act.AddMarket? then e.(slices := e.slices[m := NewSlice(m, act.info)], matching := e.matching + {m})
    else if m !in e.slices then e
    else
      var c := Act(Core(e.slices[m], e.nextId), act);
      e.(slices := e.slices[m := c.slice], nextId := c.nextId)
  }

  /** Markets are added once, with no open interest; order prices are positive. */
  ghost predicate Allowed(e: Exchange, act: Action) {
    match act
    case AddMarket(m, info) => m !in e.slices && ConfigOk(info) && info.oiLong == 0 && info.oiShort == 0
    case PlaceOrder(_, req, _, _) => 0 < req.price
    case _ => true
  }

  ghost predicate ExchangeOk(e: Exchange) {
    forall m :: m in e.slices ==> SliceOk(e.slices[m], e.nextId) && e.slices[m].id == m && m in e.matching
  }

  lemma NewSliceOk(m: MarketId, info: MarketInfo, nextId: nat)
    requires ConfigOk(info) && info.oiLong == 0 && info.oiShort == 0
    ensures SliceOk(NewSlice(m, info), nextId) && Agree(NewSlice(m, info)) && Calm(NewSlice(m, info))
  {
    var s := NewSlice(m, info);
    assert Longs(s.positions) == map[] && Shorts(s.positions) == map[];
    assert WellFormed(EMPTY_BOOK);
    forall d, p ensures Triggers.ListedAt(s.triggers, d, p) { }
  }

  lemma RemoveSliceOk(s: Slice, nextId: nat, id: OrderId)
    requires SliceOk(s, nextId)
    ensures SliceOk(RemoveOrder(s, id), nextId)
    ensures RemoveOrder(s, id).id == s.id && RemoveOrder(s, id).market == s.market && RemoveOrder(s, id).triggers == s.triggers
  {
    if id in s.orders {
      var t := RemoveOrder(s, id);
      RemoveKeeps(s.book, id);
      RemoveUncrossed(s.book, id);
      assert LedgerOf(t) == LedgerOf(s);
      forall o | InBook(t.book, o) ensures RestingOk(t, nextId, o) { assert RestingOk(s, nextId, o); }
    }
  }

  lemma {:induction false} RemoveAllSliceOk(s: Slice, nextId: nat, ids: seq<OrderId>)
    requires SliceOk(s, nextId)
    ensures SliceOk(RemoveAll(s, ids), nextId)
    ensures RemoveAll(s, ids).id == s.id && RemoveAll(s, ids).market == s.market && RemoveAll(s, ids).triggers == s.triggers
    decreases ids
  {
    if ids != [] {
      RemoveSliceOk(s, nextId, ids[0]);
      RemoveAllSliceOk(RemoveOrder(s, ids[0]), nextId, ids[1..]);
    }
  }

  lemma {:induction false} RemoveAllAgrees(s: Slice, ids: seq<OrderId>)
    requires WellFormed(s.book) && Agree(s)
    ensures Agree(RemoveAll(s, ids))
    ensures forall id :: id in RemoveAll(s, ids).orders <==> id in s.orders && id !in ids
    ensures forall id :: id in RemoveAll(s, ids).orders ==> RemoveAll(s, ids).orders[id] == s.orders[id]
    decreases ids
  {
    if ids != [] {
      RemoveAgrees(s, ids[0]);
      RemoveAllAgrees(RemoveOrder(s, ids[0]), ids[1..]);
      assert forall id :: id in ids <==> id == ids[0] || id in ids[1..];
    }
  }

  lemma CancelTriggerSliceOk(s: Slice, nextId: nat, id: OrderId)
    requires SliceOk(s, nextId)
    ensures var t := s.(triggers := Triggers.RemoveTrigger(s.triggers, id));
      SliceOk(t, nextId) && Shrinks(s, t) && t.market == s.market
  {
    var t := s.(triggers := Triggers.RemoveTrigger(s.triggers, id));
    Triggers.RemoveTriggerKeeps(s.triggers, id);
    assert LedgerOf(t) == LedgerOf(s);
    forall o | InBook(t.book, o) ensures RestingOk(t, nextId, o) { assert RestingOk(s, nextId, o); }
    forall o | Triggers.Stored(t.triggers, o) ensures WaitingOk(t.id, nextId, o) { assert WaitingOk(s.id, nextId, o); }
  }

  lemma {:induction false} OpenIdsMembers(s: Slice, ids: seq<OrderId>)
    ensures forall id :: id in OpenIds(s, ids) <==> id in ids && id in s.orders
  {
    if ids != [] {
      OpenIdsMembers(s, ids[1..]);
      assert ids == [ids[0]] + ids[1..];
    }
  }

  lemma {:induction false} RemoveAllLoose(s: Slice, ids: seq<OrderId>)
    requires WellFormed(s.book) && AccountsAgree(s.orders, s.accountOrders)
    ensures var t := RemoveAll(s, ids);
      && AccountsAgree(t.orders, t.accountOrders) && WellFormed(t.book) && t.id == s.id
      && (forall id :: id in t.orders <==> id in s.orders && id !in ids)
      && (forall id :: id in t.orders ==> t.orders[id] == s.orders[id])
      && (Covered(s.orders, s.book) ==> Covered(t.orders, t.book))
      && (Covered(s.orders, s.book) ==> forall x :: InBook(t.book, x) <==> InBook(s.book, x) && x.id !in ids)
    decreases ids
  {
    if ids != [] {
      RemoveLoose(s, ids[0]);
      RemoveAllLoose(RemoveOrder(s, ids[0]), ids[1..]);
      assert forall id :: id in ids <==> id == ids[0] || id in ids[1..];
    }
  }

  /** Cancel-all removes exactly the account's own records, as long as the account lists follow the records; and
      exactly its own orders from the book, as long as the records cover it. */
  lemma CancelAllExact(s: Slice, a: Account)
    requires WellFormed(s.book) && AccountsAgree(s.orders, s.accountOrders)
    ensures var t := RemoveAll(s, OpenIds(s, Listed(s.accountOrders, a)));
      && AccountsAgree(t.orders, t.accountOrders)
      && (forall id :: id in t.orders <==> id in s.orders && s.orders[id].owner != a)
      && (forall id :: id in t.orders ==> t.orders[id] == s.orders[id])
      && (Covered(s.orders, s.book) ==> forall x :: InBook(t.book, x) <==> InBook(s.book, x) && x.owner != a)
      && (Agree(s) ==> Agree(t))
  {
    var ids := OpenIds(s, Listed(s.accountOrders, a));
    OpenIdsMembers(s, Listed(s.accountOrders, a));
    RemoveAllLoose(s, ids);
    if Agree(s) { RemoveAllAgrees(s, ids); }
    forall id | id in s.orders ensures id in ids <==> s.orders[id].owner == a {
      assert id in Listed(s.accountOrders, a) <==> id in s.orders && s.orders[id].owner == a;
    }
    if Covered(s.orders, s.book) {
      forall x | InBook(s.book, x) ensures x.id in ids <==> x.owner == a { assert OnRecord(s.orders, x); }
    }
  }

  lemma OkConfigured(e: Exchange)
    requires ExchangeOk(e)
    ensures Configured(e)
  {
    forall m | m in e.slices ensures CoreOk(Core(e.slices[m], e.nextId)) {
      assert SliceOk(e.slices[m], e.nextId);
    }
  }

  /** One action keeps the invariant of its market, and ids only grow. */
  lemma ActKeeps(c: Core, act: Action)
    requires SliceOk(c.slice, c.nextId) && MarketOf(act) == c.slice.id && (act.PlaceOrder? ==> 0 < act.request.price)
    ensures SliceOk(Act(c, act).slice, Act(c, act).nextId) && c.nextId <= Act(c, act).nextId
    ensures Act(c, act).slice.id == c.slice.id
  {
    match act
    case AddMarket(_, info) =>
    case PlaceOrder(a, req, ts, margin) => PlaceKeeps(c, a, req, ts, margin);
    case CancelOrder(a, _, id) => RemoveSliceOk(c.slice, c.nextId, id);
    case CancelAll(a, _) => RemoveAllSliceOk(c.slice, c.nextId, OpenIds(c.slice, Listed(c.slice.accountOrders, a)));
    case CancelTrigger(_, id) => CancelTriggerSliceOk(c.slice, c.nextId, id);
    case CheckTriggers(_, price, ts, margin) => CheckKeeps(c, price, ts, margin);
  }

  lemma StepKeeps(e: Exchange, act: Action)
    requires ExchangeOk(e) && Allowed(e, act) && Configured(e)
    ensures ExchangeOk(Step(e, act)) && Configured(Step(e, act))
  {
    var m := MarketOf(act);
    var f := Step(e, act);
    if act.AddMarket? {
      NewSliceOk(m, act.info, e.nextId);
    } else if m in e.slices {
      ActKeeps(Core(e.slices[m], e.nextId), act);
    }
    forall x | x in f.slices ensures SliceOk(f.slices[x], f.nextId) && f.slices[x].id == x && x in f.matching {
      if x != m { LaterIds(e.slices[x], e.nextId, f.nextId); }
    }
    OkConfigured(f);
  }

  // ---- Runs ----

  ghost predicate AllAllowed(e: Exchange, acts: seq<Action>)
    requires Configured(e)
    decreases acts
  {
    acts == [] || (Allowed(e, acts[0]) && Configured(Step(e, acts[0])) && AllAllowed(Step(e, acts[0]), acts[1..]))
  }

  ghost function Run(e: Exchange, acts: seq<Action>): Exchange
    requires Configured(e) && AllAllowed(e, acts)
    decreases acts
  {
    if acts == [] then e else Run(Step(e, acts[0]), acts[1..])
  }

  lemma {:induction false} RunKeeps(e: Exchange, acts: seq<Action>)
    requires Configured(e) && ExchangeOk(e) && AllAllowed(e, acts)
    ensures ExchangeOk(Run(e, acts))
    decreases acts
  {
    if acts != [] {
      StepKeeps(e, acts[0]);
      RunKeeps(Step(e, acts[0]), acts[1..]);
    }
  }

  /** Conservation over every run from an empty exchange: in every market the position sizes sum to
      zero, and long and short open interest both equal the sum of the positive sizes. */
  lemma RunConserves(acts: seq<Action>, m: MarketId)
    requires Configured(NEW_EXCHANGE) && AllAllowed(NEW_EXCHANGE, acts) && m in Run(NEW_EXCHANGE, acts).slices
    ensures var s := Run(NEW_EXCHANGE, acts).slices[m];
      && s.market.Some?
      && MapSum.Sum(s.positions) == 0
      && s.market.value.oiLong == TotalLong(s.positions)
      && s.market.value.oiShort == TotalLong(s.positions)
      && Uncrossed(s.book) && WellFormed(s.book)
      && Triggers.TriggersOk(s.triggers)
  {
    RunKeeps(NEW_EXCHANGE, acts);
    var s := Run(NEW_EXCHANGE, acts).slices[m];
    assert SliceOk(s, Run(NEW_EXCHANGE, acts).nextId);
    OpenInterestMatches(LedgerOf(s));
  }

  // ---- Agreement and calm over runs ----

  /** Every order the action brought to the matching engine met none of its own and was accepted. */
  ghost predicate TidyAct(c: Core, act: Action)
    requires CoreOk(c)
  {
    match act
    case PlaceOrder(a, req, ts, margin) => AllClean(Place(c, a, req, ts, margin).log)
    case CheckTriggers(_, price, ts, margin) => AllClean(Check(c, price, ts, margin).log)
    case _ => true
  }

  /** A trigger is not stored when the mark has already reached it. */
  ghost predicate PatientAct(c: Core, act: Action) {
    act.PlaceOrder? && act.request.triggerPrice.Some? && c.slice.market.Some? ==>
      var mark := c.slice.market.value.mark;
      mark == 0 || !Triggers.Armed(NewOrder(c.nextId, act.account, act.request, act.timestamp), mark)
  }

  ghost predicate Tidy(e: Exchange, act: Action)
    requires Configured(e)
  {
    MarketOf(act) in e.slices ==> TidyAct(Core(e.slices[MarketOf(act)], e.nextId), act)
  }

  ghost predicate Patient(e: Exchange, act: Action) {
    MarketOf(act) in e.slices ==> PatientAct(Core(e.slices[MarketOf(act)], e.nextId), act)
  }

  ghost predicate AllAgree(e: Exchange) { forall m :: m in e.slices ==> Agree(e.slices[m]) }

  ghost predicate AllCalm(e: Exchange) { forall m :: m in e.slices ==> Calm(e.slices[m]) }

  lemma ActAgrees(c: Core, act: Action)
    requires SliceOk(c.slice, c.nextId) && Agree(c.slice) && TidyAct(c, act)
    requires MarketOf(act) == c.slice.id && (act.PlaceOrder? ==> 0 < act.request.price)
    ensures Agree(Act(c, act).slice)
  {
    match act
    case AddMarket(_, info) =>
    case PlaceOrder(a, req, ts, margin) => PlaceAgrees(c, a, req, ts, margin);
    case CancelOrder(a, _, id) => RemoveAgrees(c.slice, id);
    case CancelAll(a, _) => RemoveAllAgrees(c.slice, OpenIds(c.slice, Listed(c.slice.accountOrders, a)));
    case CancelTrigger(_, id) =>
    case CheckTriggers(_, price, ts, margin) => CheckAgrees(c, price, ts, margin);
  }

  lemma StepAgrees(e: Exchange, act: Action)
    requires ExchangeOk(e) && Allowed(e, act) && Configured(e) && AllAgree(e) && Tidy(e, act)
    ensures AllAgree(Step(e, act))
  {
    var m := MarketOf(act);
    if act.AddMarket? {
      NewSliceOk(m, act.info, e.nextId);
    } else if m in e.slices {
      assert SliceOk(e.slices[m], e.nextId) && e.slices[m].id == m && Agree(e.slices[m]);
      ActAgrees(Core(e.slices[m], e.nextId), act);
    }
  }

  lemma PlaceCalm(c: Core, a: Account, req: OrderRequest, ts: nat, margin: MarginPolicy)
    requires SliceOk(c.slice, c.nextId) && 0 < req.price && req.market == c.slice.id && Calm(c.slice)
    requires req.triggerPrice.Some? ==>
      c.slice.market.value.mark == 0 || !Triggers.Armed(NewOrder(c.nextId, a, req, ts), c.slice.market.value.mark)
    ensures Calm(Place(c, a, req, ts, margin).core.slice)
  {
    PlaceKeeps(c, a, req, ts, margin);
    if req.triggerPrice.Some? {
      if Place(c, a, req, ts, margin).result.Ok? {
        StoreCalmIff(c, a, req, ts, margin);
      } else {
        AdmitKeeps(c.slice, a, req, margin, c.nextId);
      }
    }
  }

  lemma ActCalm(c: Core, act: Action)
    requires SliceOk(c.slice, c.nextId) && Calm(c.slice) && PatientAct(c, act)
    requires MarketOf(act) == c.slice.id && (act.PlaceOrder? ==> 0 < act.request.price)
    ensures Calm(Act(c, act).slice)
  {
    match act
    case AddMarket(_, info) =>
    case PlaceOrder(a, req, ts, margin) => PlaceCalm(c, a, req, ts, margin);
    case CancelOrder(a, _, id) => RemoveSliceOk(c.slice, c.nextId, id);
    case CancelAll(a, _) => RemoveAllSliceOk(c.slice, c.nextId, OpenIds(c.slice, Listed(c.slice.accountOrders, a)));
    case CancelTrigger(_, id) => CancelTriggerSliceOk(c.slice, c.nextId, id);
    case CheckTriggers(_, price, ts, margin) => CheckKeeps(c, price, ts, margin);
  }

  lemma StepCalm(e: Exchange, act: Action)
    requires ExchangeOk(e) && Allowed(e, act) && Configured(e) && AllCalm(e) && Patient(e, act)
    ensures AllCalm(Step(e, act))
  {
    var m := MarketOf(act);
    if act.AddMarket? {
      NewSliceOk(m, act.info, e.nextId);
    } else if m in e.slices {
      assert SliceOk(e.slices[m], e.nextId) && e.slices[m].id == m && Calm(e.slices[m]);
      ActCalm(Core(e.slices[m], e.nextId), act);
    }
  }

  ghost predicate AllTidy(e: Exchange, acts: seq<Action>)
    requires Configured(e) && AllAllowed(e, acts)
    decreases acts
  {
    acts == [] || (Tidy(e, acts[0]) && AllTidy(Step(e, acts[0]), acts[1..]))
  }

  ghost predicate AllPatient(e: Exchange, acts: seq<Action>)
    requires Configured(e) && AllAllowed(e, acts)
    decreases acts
  {
    acts == [] || (Patient(e, acts[0]) && AllPatient(Step(e, acts[0]), acts[1..]))
  }

  /** Over every tidy run the records, the books and the account lists stay in agreement. */
  lemma {:induction false} RunAgrees(e: Exchange, acts: seq<Action>)
    requires Configured(e) && ExchangeOk(e) && AllAgree(e) && AllAllowed(e, acts) && AllTidy(e, acts)
    ensures AllAgree(Run(e, acts))
    decreases acts
  {
    if acts != [] {
      StepKeeps(e, acts[0]);
      StepAgrees(e, acts[0]);
      RunAgrees(Step(e, acts[0]), acts[1..]);
    }
  }

  /** Over every patient run no market ever holds a trigger that its current mark has reached. */
  lemma {:induction false} RunCalm(e: Exchange, acts: seq<Action>)
    requires Configured(e) && ExchangeOk(e) && AllCalm(e) && AllAllowed(e, acts) && AllPatient(e, acts)
    ensures AllCalm(Run(e, acts))
    decreases acts
  {
    if acts != [] {
      StepKeeps(e, acts[0]);
      StepCalm(e, acts[0]);
      RunCalm(Step(e, acts[0]), acts[1..]);
    }
  }
}

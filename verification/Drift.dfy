/** How far records, books and account lists can drift apart over any run, tidy or not. */
module Drift {
  import opened Orders
  import opened Books
  import opened Matching
  import opened Trading
  import opened Agreement
  import opened MarketInvariant
  import opened ExchangeRuns
  import Triggers

  /** Every record carries the market it is stored under. */
  ghost predicate Home(s: Slice) { forall id :: id in s.orders ==> s.orders[id].market == s.id }

  /** What is left of agreement when orders meet their own or are rejected after fills: account lists name exactly
      the records of their accounts, each once; everything on the book is on record, in no smaller a size; and
      every record carries its market and is kept under its id, with a price and a size. */
  ghost predicate Loose(s: Slice) {
    AccountsAgree(s.orders, s.accountOrders) && Covered(s.orders, s.book) && RecordsKept(s.orders) && Home(s)
  }

  /** No more than agreement asks: only what is on the book has still to be said of the records. */
  lemma AgreeingIsLoose(s: Slice)
    requires WellFormed(s.book) && Agree(s) && Home(s)
    ensures Loose(s)
  {
    AgreeCovers(s);
    forall id | id in s.orders ensures s.orders[id].id == id && 0 < s.orders[id].price && 0 < s.orders[id].remaining {
      GetFinds(s.book, id);
    }
  }

  lemma AbsorbHome(s: Slice, p: Outcome)
    requires s.market.Some? && Home(s) && (p.result.Ok? ==> p.result.value.0.market == s.id)
    ensures Home(Absorb(s, p).slice)
  {
    if p.result.Ok? {
      var fills := p.result.value.1;
      ApplyFillsFrame(Sync(s.(book := p.book), fills), fills);
    }
  }

  lemma MatchLoose(c: Core, o: Order)
    requires Submittable(c, o) && Loose(c.slice)
    ensures Loose(Execute(c.slice, o).slice)
  {
    NewId(c.slice, c.nextId);
    TakerKeeps(c.slice.book, o);
    AbsorbHome(c.slice, Process(c.slice.book, o));
    ExecuteLoose(c.slice, o);
  }

  /** Placing any order, with the whole cascade of triggers it fires, whatever the orders in it meet. */
  lemma {:induction false} PlaceLoose(c: Core, a: Account, req: OrderRequest, ts: nat, margin: MarginPolicy)
    requires SliceOk(c.slice, c.nextId) && 0 < req.price && req.market == c.slice.id && Loose(c.slice)
    ensures Loose(Place(c, a, req, ts, margin).core.slice)
    decreases TriggerCount(c), 2, 0
  {
    AdmitKeeps(c.slice, a, req, margin, c.nextId);
    var adm := Admit(c.slice, a, req, margin, c.nextId);
    if adm.Admitted? {
      SubmitLoose(Core(adm.slice, c.nextId), NewOrder(c.nextId, a, req, ts), ts, margin);
    }
  }

  lemma {:induction false} SubmitLoose(c: Core, o: Order, ts: nat, margin: MarginPolicy)
    requires Submittable(c, o) && Loose(c.slice)
    ensures Loose(Submit(c, o, ts, margin).core.slice)
    decreases TriggerCount(c), 1, 0
  {
    if o.triggerPrice.None? {
      var x := Execute(c.slice, o);
      SubmitShape(c, o, ts, margin);
      MatchLoose(c, o);
      ExecuteKeeps(c.slice, c.nextId, o);
      FollowLoose(Core(x.slice, c.nextId + 1), MovesMark(x), ts, margin);
    }
  }

  lemma {:induction false} FollowLoose(next: Core, moves: bool, ts: nat, margin: MarginPolicy)
    requires SliceOk(next.slice, next.nextId) && Loose(next.slice)
    ensures Loose(Follow(next, moves, ts, margin).slice)
    decreases TriggerCount(next), 0, 1
  {
    if moves { CheckLoose(next, next.slice.market.value.mark, ts, margin); }
  }

  lemma {:induction false} CheckLoose(c: Core, price: int, ts: nat, margin: MarginPolicy)
    requires SliceOk(c.slice, c.nextId) && Loose(c.slice)
    ensures Loose(Check(c, price, ts, margin).core.slice)
    decreases TriggerCount(c), 0, 0
  {
    Triggers.PopAllCount(c.slice.triggers, price);
    PopKeepsSlice(c, price);
    var fired := Triggers.AllFired(c.slice.triggers, price);
    var popped := Core(c.slice.(triggers := Triggers.PopAll(c.slice.triggers, price)), c.nextId);
    if fired != [] { PlaceAllLoose(popped, fired, ts, margin); }
  }

  lemma {:induction false} PlaceAllLoose(c: Core, orders: seq<Order>, ts: nat, margin: MarginPolicy)
    requires SliceOk(c.slice, c.nextId) && (forall o :: o in orders ==> 0 < o.price && o.market == c.slice.id) && Loose(c.slice)
    ensures Loose(PlaceAll(c, orders, ts, margin).core.slice)
    decreases TriggerCount(c), 3, |orders|
  {
    if orders != [] {
      assert orders[0] in orders;
      PlaceKeeps(c, orders[0].owner, Reissue(orders[0]), ts, margin);
      PlaceLoose(c, orders[0].owner, Reissue(orders[0]), ts, margin);
      var p := Place(c, orders[0].owner, Reissue(orders[0]), ts, margin);
      assert forall o :: o in orders[1..] ==> o in orders;
      PlaceAllLoose(p.core, orders[1..], ts, margin);
    }
  }

  lemma ActLoose(c: Core, act: Action)
    requires SliceOk(c.slice, c.nextId) && MarketOf(act) == c.slice.id && (act.PlaceOrder? ==> 0 < act.request.price)
    requires Loose(c.slice)
    ensures Loose(Act(c, act).slice)
  {
    match act
    case AddMarket(_, _) =>
    case PlaceOrder(a, req, ts, margin) => PlaceLoose(c, a, req, ts, margin);
    case CancelOrder(_, _, id) => RemoveLoose(c.slice, id);
    case CancelAll(a, _) => RemoveAllLoose(c.slice, OpenIds(c.slice, Listed(c.slice.accountOrders, a)));
    case CancelTrigger(_, _) =>
    case CheckTriggers(_, price, ts, margin) => CheckLoose(c, price, ts, margin);
  }

  ghost predicate AllLoose(e: Exchange) { forall m :: m in e.slices ==> Loose(e.slices[m]) }

  lemma NewLoose(m: MarketId, info: MarketInfo)
    requires ConfigOk(info) && info.oiLong == 0 && info.oiShort == 0
    ensures Loose(NewSlice(m, info))
  {
    NewSliceOk(m, info, 0);
    AgreeingIsLoose(NewSlice(m, info));
  }

  lemma StepLoose(e: Exchange, act: Action)
    requires ExchangeOk(e) && Configured(e) && Allowed(e, act) && AllLoose(e)
    ensures AllLoose(Step(e, act))
  {
    var m := MarketOf(act);
    forall x | x in Step(e, act).slices ensures Loose(Step(e, act).slices[x]) {
      if x != m {
        assert Loose(e.slices[x]);
      } else if act.AddMarket? {
        NewLoose(m, act.info);
      } else {
        assert SliceOk(e.slices[m], e.nextId) && e.slices[m].id == m && Loose(e.slices[m]);
        ActLoose(Core(e.slices[m], e.nextId), act);
      }
    }
  }

  /** Over every run, with no condition on what its orders meet. */
  lemma {:induction false} RunLoose(e: Exchange, acts: seq<Action>)
    requires Configured(e) && ExchangeOk(e) && AllLoose(e) && AllAllowed(e, acts)
    ensures AllLoose(Run(e, acts))
    decreases acts
  {
    if acts != [] {
      StepKeeps(e, acts[0]);
      StepLoose(e, acts[0]);
      RunLoose(Step(e, acts[0]), acts[1..]);
    }
  }

  /** After every run from an empty exchange, in every market: the account lists name exactly the records of their
      accounts, records are kept under their ids, everything on the book is on record with the same owner and key and
      in no smaller a size, and
      cancel-all takes out exactly the account's own records and orders. */
  lemma RunDrifts(acts: seq<Action>, m: MarketId, a: Account)
    requires Configured(NEW_EXCHANGE) && AllAllowed(NEW_EXCHANGE, acts) && m in Run(NEW_EXCHANGE, acts).slices
    ensures var s := Run(NEW_EXCHANGE, acts).slices[m];
      var t := RemoveAll(s, OpenIds(s, Listed(s.accountOrders, a)));
      && AccountsAgree(s.orders, s.accountOrders) && Covered(s.orders, s.book) && RecordsKept(s.orders)
      && (forall id :: id in t.orders <==> id in s.orders && s.orders[id].owner != a)
      && (forall x :: InBook(t.book, x) <==> InBook(s.book, x) && x.owner != a)
  {
    RunKeeps(NEW_EXCHANGE, acts);
    RunLoose(NEW_EXCHANGE, acts);
    var e := Run(NEW_EXCHANGE, acts);
    assert Loose(e.slices[m]) && SliceOk(e.slices[m], e.nextId);
    CancelAllExact(e.slices[m], a);
  }
}

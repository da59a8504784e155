/** What every order placement keeps, cascades of trigger orders included. */
module MarketInvariant {
  import opened Orders
  import opened Books
  import opened Matching
  import opened Accounting
  import opened Trading
  import opened Agreement
  import Triggers

  ghost predicate RestingOk(s: Slice, nextId: nat, o: Order) { o.id < nextId && o.owner in s.positions }

  ghost predicate WaitingOk(m: MarketId, nextId: nat, o: Order) {
    o.market == m && o.id < nextId && 0 < o.price && 0 < o.remaining
  }

  /** The market invariant: a well-formed uncrossed book owned by accounts with a position record,
      balanced positions and open interest, a consistent trigger store, and only used ids. */
  ghost predicate SliceOk(s: Slice, nextId: nat) {
    && s.market.Some? && ConfigOk(s.market.value)
    && WellFormed(s.book) && Uncrossed(s.book)
    && (forall o :: InBook(s.book, o) ==> RestingOk(s, nextId, o))
    && Balanced(LedgerOf(s))
    && Triggers.TriggersOk(s.triggers)
    && (forall o :: Triggers.Stored(s.triggers, o) ==> WaitingOk(s.id, nextId, o))
    && (forall id :: id in s.orders ==> id < nextId)
  }

  /** No stored trigger fires at the current mark (a zero mark is never checked). */
  ghost predicate Calm(s: Slice) {
    s.market.Some? && (s.market.value.mark == 0 || Triggers.Quiet(s.triggers, s.market.value.mark))
  }

  lemma LaterIds(s: Slice, m: nat, n: nat)
    requires SliceOk(s, m) && m <= n
    ensures SliceOk(s, n)
  {
    forall o | InBook(s.book, o) ensures RestingOk(s, n, o) { assert RestingOk(s, m, o); }
    forall o | Triggers.Stored(s.triggers, o) ensures WaitingOk(s.id, n, o) { assert WaitingOk(s.id, m, o); }
  }

  // ---- Admission ----

  lemma AdmitKeeps(s: Slice, a: Account, req: OrderRequest, margin: MarginPolicy, nextId: nat)
    requires SliceOk(s, nextId)
    ensures var t := Admit(s, a, req, margin, nextId).slice;
      && SliceOk(t, nextId) && t == s.(positions := t.positions)
      && (Admit(s, a, req, margin, nextId).Admitted? ==> a in t.positions && 0 < req.size)
  {
    var t := Admit(s, a, req, margin, nextId).slice;
    if t != s {
      OpenBalanced(LedgerOf(s), a);
      forall o | InBook(t.book, o) ensures RestingOk(t, nextId, o) { assert RestingOk(s, nextId, o); }
    }
  }

  // ---- Fills ----

  ghost predicate FillOk(s: Slice, f: Fill) {
    f.maker != f.taker && f.maker in s.positions && f.taker in s.positions && 0 < f.size
  }

  lemma SettleKeys(l: Ledger, f: Fill)
    ensures Settle(l, f).positions.Keys == l.positions.Keys
  {
  }

  lemma DropIfFlatKeeps(ts: Triggers.TriggerState, p: Positions, a: Account)
    requires Triggers.TriggersOk(ts)
    ensures Triggers.TriggersOk(DropIfFlat(ts, p, a))
    ensures forall o :: Triggers.Stored(DropIfFlat(ts, p, a), o) <==>
      Triggers.Stored(ts, o) && !(a in p && p[a] == 0 && o.owner == a)
  {
    if a in p && p[a] == 0 { Triggers.CancelForExact(ts, a); }
  }

  /** After a fill neither party that went flat has a trigger left; no other trigger is touched. */
  lemma FlatHasNoTriggers(s: Slice, f: Fill)
    requires s.market.Some? && Triggers.TriggersOk(s.triggers)
    ensures var t := ApplyFill(s, f);
      && Triggers.TriggersOk(t.triggers)
      && (forall o :: Triggers.Stored(t.triggers, o) <==>
            Triggers.Stored(s.triggers, o) &&
            !((o.owner == f.maker || o.owner == f.taker) && o.owner in t.positions && t.positions[o.owner] == 0))
  {
    var p := Settle(LedgerOf(s), f).positions;
    DropIfFlatKeeps(s.triggers, p, f.taker);
    DropIfFlatKeeps(DropIfFlat(s.triggers, p, f.taker), p, f.maker);
  }

  lemma ApplyFillKeeps(s: Slice, f: Fill)
    requires s.market.Some? && Balanced(LedgerOf(s)) && Triggers.TriggersOk(s.triggers) && FillOk(s, f)
    ensures var t := ApplyFill(s, f);
      && Balanced(LedgerOf(t)) && Triggers.TriggersOk(t.triggers) && t.positions.Keys == s.positions.Keys
      && (forall o :: Triggers.Stored(t.triggers, o) ==> Triggers.Stored(s.triggers, o))
  {
    FlatHasNoTriggers(s, f);
    SettleBalancedIff(LedgerOf(s), f);
    SettleKeys(LedgerOf(s), f);
    assert LedgerOf(ApplyFill(s, f)) == Settle(LedgerOf(s), f);
  }

  lemma {:induction false} ApplyFillsKeeps(s: Slice, fills: seq<Fill>)
    requires s.market.Some? && Balanced(LedgerOf(s)) && Triggers.TriggersOk(s.triggers)
    requires forall f :: f in fills ==> FillOk(s, f)
    ensures var t := ApplyFills(s, fills);
      && Balanced(LedgerOf(t)) && Triggers.TriggersOk(t.triggers) && t.positions.Keys == s.positions.Keys
      && (forall o :: Triggers.Stored(t.triggers, o) ==> Triggers.Stored(s.triggers, o))
    decreases fills
  {
    if fills != [] {
      assert fills[0] in fills;
      ApplyFillKeeps(s, fills[0]);
      var t := ApplyFill(s, fills[0]);
      forall f | f in fills[1..] ensures FillOk(t, f) {
        assert f in fills && FillOk(s, f);
      }
      ApplyFillsKeeps(t, fills[1..]);
    }
  }

  // ---- Executing ----

  /** Every fill is between two accounts with a position record, and never with oneself. */
  lemma MatchFillsOk(s: Slice, nextId: nat, o: Order)
    requires SliceOk(s, nextId) && 0 < o.remaining && o.owner in s.positions
    ensures forall f :: f in Matched(s.book, o).fills ==> FillOk(s, f)
  {
    var q := Opposite(s.book, o.side);
    SideFacts(s.book, o.side);
    WalkFills(o, q);
    forall f | f in Matched(s.book, o).fills ensures FillOk(s, f) {
      assert FillsSome(o, f, q);
      var x :| x in q && FillsOrder(o, f, x);
      assert InBook(s.book, x) && RestingOk(s, nextId, x);
    }
  }

  lemma ProcessOwners(s: Slice, nextId: nat, o: Order)
    requires SliceOk(s, nextId) && o.id == nextId && 0 < o.price && 0 < o.remaining && o.owner in s.positions
    ensures forall x :: InBook(Process(s.book, o).book, x) ==> RestingOk(s, nextId + 1, x)
  {
    NewId(s, nextId);
    ProcessKeeps(s.book, o);
    TakerKeeps(s.book, o);
    forall x | InBook(Process(s.book, o).book, x) ensures RestingOk(s, nextId + 1, x) {
      if InBook(AfterMatch(s.book, o), x) {
        var was := AfterMatchOrigin(s.book, o, x);
        RemainsKey(o, x, was);
        assert RestingOk(s, nextId, was);
      }
    }
  }

  lemma NewId(s: Slice, nextId: nat)
    requires SliceOk(s, nextId)
    ensures nextId !in s.book.index && nextId !in s.orders
  {
    forall id | id in s.book.index ensures id < nextId {
      assert HasId(s.book, id);
      var x :| InBook(s.book, x) && x.id == id;
      assert RestingOk(s, nextId, x);
    }
  }

  /** The book that executing an order leaves, and who may have records. */
  lemma ExecuteBook(s: Slice, nextId: nat, o: Order)
    requires SliceOk(s, nextId) && o.id == nextId && 0 < o.price && 0 < o.remaining && o.owner in s.positions
    ensures var t := Execute(s, o).slice;
      && WellFormed(t.book) && Uncrossed(t.book)
      && (forall x :: InBook(t.book, x) ==> RestingOk(s, nextId + 1, x))
      && (forall id :: id in t.orders ==> id < nextId + 1)
  {
    NewId(s, nextId);
    ExecuteParts(s, o);
    ProcessKeeps(s.book, o);
    ProcessUncrossed(s.book, o);
    ProcessOwners(s, nextId, o);
  }

  /** Positions, open interest and triggers after executing an order. */
  lemma ExecuteLedger(s: Slice, nextId: nat, o: Order)
    requires SliceOk(s, nextId) && o.id == nextId && 0 < o.price && 0 < o.remaining && o.owner in s.positions
    ensures var t := Execute(s, o).slice;
      && Balanced(LedgerOf(t)) && Triggers.TriggersOk(t.triggers) && t.positions.Keys == s.positions.Keys
      && (forall x :: Triggers.Stored(t.triggers, x) ==> Triggers.Stored(s.triggers, x))
  {
    var t := Execute(s, o).slice;
    NewId(s, nextId);
    ExecuteShape(s, o);
    if Process(s.book, o).result.Ok? {
      var fills := Matched(s.book, o).fills;
      var u := Sync(s.(book := Process(s.book, o).book), fills);
      MatchFillsOk(s, nextId, o);
      forall f | f in fills ensures FillOk(u, f) { assert FillOk(s, f); }
      assert LedgerOf(u) == LedgerOf(s);
      ApplyFillsKeeps(u, fills);
      assert LedgerOf(t) == LedgerOf(ApplyFills(u, fills));
    } else {
      assert LedgerOf(t) == LedgerOf(s);
    }
  }

  /** Executing any admitted order keeps the market invariant, whether or not it is accepted. */
  lemma ExecuteKeeps(s: Slice, nextId: nat, o: Order)
    requires SliceOk(s, nextId) && o.id == nextId && 0 < o.price && 0 < o.remaining && o.owner in s.positions
    ensures SliceOk(Execute(s, o).slice, nextId + 1) && Execute(s, o).slice.id == s.id
    ensures forall x :: Triggers.Stored(Execute(s, o).slice.triggers, x) ==> Triggers.Stored(s.triggers, x)
  {
    var t := Execute(s, o).slice;
    ExecuteBook(s, nextId, o);
    ExecuteLedger(s, nextId, o);
    ExecuteFrame(s, o);
    forall x | InBook(t.book, x) ensures RestingOk(t, nextId + 1, x) {
      assert RestingOk(s, nextId + 1, x);
    }
    forall x | Triggers.Stored(t.triggers, x) ensures WaitingOk(t.id, nextId + 1, x) {
      assert WaitingOk(s.id, nextId, x);
    }
  }

  // ---- Cascades ----

  ghost predicate Shrinks(s: Slice, t: Slice) {
    forall o :: Triggers.Stored(t.triggers, o) ==> Triggers.Stored(s.triggers, o)
  }

  /** Without fills neither the mark nor the trigger store moves. */
  lemma NoFillsCalm(s: Slice, nextId: nat, o: Order)
    requires SliceOk(s, nextId) && o.id == nextId && 0 < o.price && 0 < o.remaining && o.owner in s.positions
    requires Execute(s, o).result.Ok? ==> Execute(s, o).result.value.1 == []
    ensures var t := Execute(s, o).slice; t.market == s.market && t.triggers == s.triggers
  {
    NewId(s, nextId);
    ExecuteShape(s, o);
    ProcessResult(s.book, o);
  }

  /** Placing any order keeps the market invariant; a plain order adds no trigger, and if no stored
      trigger fires at the mark before, none does afterwards, however far the cascade moved it. */
  lemma {:induction false} PlaceKeeps(c: Core, a: Account, req: OrderRequest, ts: nat, margin: MarginPolicy)
    requires SliceOk(c.slice, c.nextId) && 0 < req.price && req.market == c.slice.id
    ensures var r := Place(c, a, req, ts, margin).core;
      && SliceOk(r.slice, r.nextId) && c.nextId <= r.nextId && r.slice.id == c.slice.id
      && (req.triggerPrice.None? ==> Shrinks(c.slice, r.slice))
      && (req.triggerPrice.None? && Calm(c.slice) ==> Calm(r.slice))
    decreases TriggerCount(c), 2, 0
  {
    AdmitKeeps(c.slice, a, req, margin, c.nextId);
    var adm := Admit(c.slice, a, req, margin, c.nextId);
    if adm.Admitted? {
      SubmitKeeps(Core(adm.slice, c.nextId), NewOrder(c.nextId, a, req, ts), ts, margin);
    }
  }

  ghost predicate Submittable(c: Core, o: Order) {
    && SliceOk(c.slice, c.nextId) && o.id == c.nextId && o.market == c.slice.id
    && 0 < o.price && 0 < o.remaining && o.owner in c.slice.positions
  }

  /** What follows execution: a trigger check at the new mark, or nothing. */
  ghost function Follow(next: Core, moves: bool, ts: nat, margin: MarginPolicy): Core
    requires CoreOk(next) && next.slice.market.Some?
  {
    if moves then Check(next, next.slice.market.value.mark, ts, margin).core else next
  }

  lemma SubmitShape(c: Core, o: Order, ts: nat, margin: MarginPolicy)
    requires CoreOk(c) && c.slice.market.Some? && o.triggerPrice.None?
    ensures var x := Execute(c.slice, o); var next := Core(x.slice, c.nextId + 1);
      && CoreOk(next) && TriggerCount(next) <= TriggerCount(c)
      && Submit(c, o, ts, margin).core == Follow(next, MovesMark(x), ts, margin)
      && Submit(c, o, ts, margin).log == [Event(c.slice, o)] +
           if MovesMark(x) then Check(next, next.slice.market.value.mark, ts, margin).log else []
  {
    ExecuteFrame(c.slice, o);
  }

  lemma {:induction false} FollowKeeps(next: Core, moves: bool, ts: nat, margin: MarginPolicy)
    requires SliceOk(next.slice, next.nextId)
    ensures var r := Follow(next, moves, ts, margin);
      && SliceOk(r.slice, r.nextId) && next.nextId <= r.nextId && r.slice.id == next.slice.id
      && Shrinks(next.slice, r.slice)
      && (moves || Calm(next.slice) ==> Calm(r.slice))
    decreases TriggerCount(next), 0, 1
  {
    if moves { CheckKeeps(next, next.slice.market.value.mark, ts, margin); }
  }

  lemma {:induction false} SubmitKeeps(c: Core, o: Order, ts: nat, margin: MarginPolicy)
    requires Submittable(c, o)
    ensures var r := Submit(c, o, ts, margin).core;
      && SliceOk(r.slice, r.nextId) && c.nextId <= r.nextId && r.slice.id == c.slice.id
      && (o.triggerPrice.None? ==> Shrinks(c.slice, r.slice))
      && (o.triggerPrice.None? && Calm(c.slice) ==> Calm(r.slice))
    decreases TriggerCount(c), 1, 0
  {
    if o.triggerPrice.Some? {
      StoreKeeps(c.slice, c.nextId, o);
    } else {
      var x := Execute(c.slice, o);
      var next := Core(x.slice, c.nextId + 1);
      SubmitShape(c, o, ts, margin);
      ExecuteKeeps(c.slice, c.nextId, o);
      if !MovesMark(x) && Calm(c.slice) { SettledCalm(c, o); }
      FollowKeeps(next, MovesMark(x), ts, margin);
      ShrinksTwice(c.slice, x.slice, Submit(c, o, ts, margin).core.slice);
    }
  }

  lemma ShrinksTwice(s: Slice, t: Slice, u: Slice)
    requires Shrinks(s, t) && Shrinks(t, u)
    ensures Shrinks(s, u)
  {
  }

  /** When no check follows, the market is as calm as it was. */
  lemma SettledCalm(c: Core, o: Order)
    requires Submittable(c, o) && Calm(c.slice) && !MovesMark(Execute(c.slice, o))
    ensures Calm(Execute(c.slice, o).slice)
  {
    var x := Execute(c.slice, o);
    if x.result.Err? || x.result.value.1 == [] {
      NoFillsCalm(c.slice, c.nextId, o);
    }
  }

  lemma StoreKeeps(s: Slice, nextId: nat, o: Order)
    requires SliceOk(s, nextId) && o.id == nextId && o.market == s.id && 0 < o.price && 0 < o.remaining
    ensures var t := s.(triggers := Triggers.Add(s.triggers, o));
      && SliceOk(t, nextId + 1)
      && (forall x :: Triggers.Stored(t.triggers, x) <==>
            Triggers.Stored(s.triggers, x) || (x == o && o.triggerPrice.Some? && o.triggerDirection.Some?))
  {
    var t := s.(triggers := Triggers.Add(s.triggers, o));
    forall id | id in s.triggers.index ensures id < nextId {
      var (d, p) := s.triggers.index[id];
      assert Triggers.HasIdAt(s.triggers, d, p, id);
      var x :| x in Triggers.At(Triggers.Side(s.triggers, d), p) && x.id == id;
      Triggers.StoredAt(s.triggers, d, p, x);
      assert WaitingOk(s.id, nextId, x);
    }
    Triggers.AddKeeps(s.triggers, o);
    LaterIds(s, nextId, nextId + 1);
    assert LedgerOf(t) == LedgerOf(s);
    forall x | InBook(t.book, x) ensures RestingOk(t, nextId + 1, x) { assert RestingOk(s, nextId + 1, x); }
    forall x | Triggers.Stored(t.triggers, x) ensures WaitingOk(t.id, nextId + 1, x) {
      assert x == o || WaitingOk(s.id, nextId + 1, x);
    }
  }

  lemma PopKeepsSlice(c: Core, price: int)
    requires SliceOk(c.slice, c.nextId)
    ensures var t := c.slice.(triggers := Triggers.PopAll(c.slice.triggers, price));
      && SliceOk(t, c.nextId) && Shrinks(c.slice, t) && Triggers.Quiet(t.triggers, price)
    ensures forall o :: o in Triggers.AllFired(c.slice.triggers, price) ==> WaitingOk(c.slice.id, c.nextId, o)
  {
    var t := c.slice.(triggers := Triggers.PopAll(c.slice.triggers, price));
    Triggers.PopAllKeeps(c.slice.triggers, price);
    assert LedgerOf(t) == LedgerOf(c.slice);
    forall x | InBook(t.book, x) ensures RestingOk(t, c.nextId, x) { assert RestingOk(c.slice, c.nextId, x); }
    forall o | o in Triggers.AllFired(c.slice.triggers, price) ensures WaitingOk(c.slice.id, c.nextId, o) {
      assert Triggers.Stored(c.slice.triggers, o);
    }
  }

  /** After a trigger check at `price` no stored trigger fires at `price`, whatever the cascade did;
      checked at the mark, the market is calm at whatever mark the cascade ended on. */
  lemma {:induction false} CheckKeeps(c: Core, price: int, ts: nat, margin: MarginPolicy)
    requires SliceOk(c.slice, c.nextId)
    ensures var r := Check(c, price, ts, margin).core;
      && SliceOk(r.slice, r.nextId) && c.nextId <= r.nextId && r.slice.id == c.slice.id && Shrinks(c.slice, r.slice)
      && Triggers.Quiet(r.slice.triggers, price)
      && (Calm(c.slice) || price == c.slice.market.value.mark ==> Calm(r.slice))
    decreases TriggerCount(c), 0, 0
  {
    Triggers.PopAllCount(c.slice.triggers, price);
    PopKeepsSlice(c, price);
    var fired := Triggers.AllFired(c.slice.triggers, price);
    var popped := Core(c.slice.(triggers := Triggers.PopAll(c.slice.triggers, price)), c.nextId);
    if fired != [] {
      PlaceAllKeeps(popped, fired, ts, margin);
    }
  }

  lemma {:induction false} PlaceAllKeeps(c: Core, orders: seq<Order>, ts: nat, margin: MarginPolicy)
    requires SliceOk(c.slice, c.nextId) && forall o :: o in orders ==> 0 < o.price && o.market == c.slice.id
    ensures var r := PlaceAll(c, orders, ts, margin).core;
      && SliceOk(r.slice, r.nextId) && c.nextId <= r.nextId && r.slice.id == c.slice.id && Shrinks(c.slice, r.slice)
      && (Calm(c.slice) ==> Calm(r.slice))
    decreases TriggerCount(c), 3, |orders|
  {
    if orders != [] {
      assert orders[0] in orders;
      PlaceKeeps(c, orders[0].owner, Reissue(orders[0]), ts, margin);
      var p := Place(c, orders[0].owner, Reissue(orders[0]), ts, margin);
      assert forall o :: o in orders[1..] ==> o in orders;
      PlaceAllKeeps(p.core, orders[1..], ts, margin);
    }
  }

  /** Storing a trigger keeps the market calm exactly when the mark has not already reached it. */
  lemma StoreCalmIff(c: Core, a: Account, req: OrderRequest, ts: nat, margin: MarginPolicy)
    requires SliceOk(c.slice, c.nextId) && 0 < req.price && req.market == c.slice.id && Calm(c.slice)
    requires req.triggerPrice.Some? && Place(c, a, req, ts, margin).result.Ok?
    ensures var mark := c.slice.market.value.mark;
      Calm(Place(c, a, req, ts, margin).core.slice) <==>
      mark == 0 || !Triggers.Armed(NewOrder(c.nextId, a, req, ts), mark)
  {
    AdmitKeeps(c.slice, a, req, margin, c.nextId);
    var s := Admit(c.slice, a, req, margin, c.nextId).slice;
    StoreKeeps(s, c.nextId, NewOrder(c.nextId, a, req, ts));
  }

  // ---- Agreement through cascades ----

  /** The order met none of its owner's resting orders and was not rejected. */
  ghost predicate Clean(e: Event) {
    !SelfMatches(e.slice.book, e.order) && Process(e.slice.book, e.order).result.Ok?
  }

  ghost predicate AllClean(log: seq<Event>) { forall e :: e in log ==> Clean(e) }

  lemma CleanParts(a: seq<Event>, b: seq<Event>)
    ensures AllClean(a + b) <==> AllClean(a) && AllClean(b)
  {
    if AllClean(a + b) {
      forall e | e in a ensures Clean(e) { assert e in a + b; }
      forall e | e in b ensures Clean(e) { assert e in a + b; }
    }
  }

  /** Records, book and account lists agree after a placement, cascade included, whenever every order
      that reached the matching engine met none of its own and was accepted. */
  lemma {:induction false} PlaceAgrees(c: Core, a: Account, req: OrderRequest, ts: nat, margin: MarginPolicy)
    requires SliceOk(c.slice, c.nextId) && Agree(c.slice) && 0 < req.price && req.market == c.slice.id
    requires AllClean(Place(c, a, req, ts, margin).log)
    ensures Agree(Place(c, a, req, ts, margin).core.slice)
    decreases TriggerCount(c), 2, 0
  {
    AdmitKeeps(c.slice, a, req, margin, c.nextId);
    var adm := Admit(c.slice, a, req, margin, c.nextId);
    if adm.Admitted? {
      SubmitAgrees(Core(adm.slice, c.nextId), NewOrder(c.nextId, a, req, ts), ts, margin);
    }
  }

  /** The log of an order is the order itself and what the check after it logs. */
  lemma SubmitClean(c: Core, o: Order, ts: nat, margin: MarginPolicy)
    requires CoreOk(c) && c.slice.market.Some? && o.triggerPrice.None? && AllClean(Submit(c, o, ts, margin).log)
    ensures var x := Execute(c.slice, o); var next := Core(x.slice, c.nextId + 1);
      && Clean(Event(c.slice, o)) && CoreOk(next)
      && (MovesMark(x) ==> AllClean(Check(next, x.slice.market.value.mark, ts, margin).log))
  {
    var x := Execute(c.slice, o);
    var next := Core(x.slice, c.nextId + 1);
    SubmitShape(c, o, ts, margin);
    CleanParts([Event(c.slice, o)], if MovesMark(x) then Check(next, x.slice.market.value.mark, ts, margin).log else []);
    assert Event(c.slice, o) in [Event(c.slice, o)];
  }

  lemma {:induction false} SubmitAgrees(c: Core, o: Order, ts: nat, margin: MarginPolicy)
    requires Submittable(c, o) && Agree(c.slice) && AllClean(Submit(c, o, ts, margin).log)
    ensures Agree(Submit(c, o, ts, margin).core.slice)
    decreases TriggerCount(c), 1, 0
  {
    if o.triggerPrice.None? {
      var x := Execute(c.slice, o);
      SubmitClean(c, o, ts, margin);
      CleanAgrees(c, o);
      SubmitShape(c, o, ts, margin);
      FollowAgrees(Core(x.slice, c.nextId + 1), MovesMark(x), ts, margin);
    }
  }

  lemma {:induction false} FollowAgrees(next: Core, moves: bool, ts: nat, margin: MarginPolicy)
    requires SliceOk(next.slice, next.nextId) && Agree(next.slice)
    requires moves ==> AllClean(Check(next, next.slice.market.value.mark, ts, margin).log)
    ensures Agree(Follow(next, moves, ts, margin).slice)
    decreases TriggerCount(next), 0, 1
  {
    if moves { CheckAgrees(next, next.slice.market.value.mark, ts, margin); }
  }

  lemma CleanAgrees(c: Core, o: Order)
    requires Submittable(c, o) && Agree(c.slice) && Clean(Event(c.slice, o))
    ensures Agree(Execute(c.slice, o).slice) && SliceOk(Execute(c.slice, o).slice, c.nextId + 1)
  {
    NewId(c.slice, c.nextId);
    ExecuteAgrees(c.slice, o);
    ExecuteKeeps(c.slice, c.nextId, o);
  }

  lemma {:induction false} CheckAgrees(c: Core, price: int, ts: nat, margin: MarginPolicy)
    requires SliceOk(c.slice, c.nextId) && Agree(c.slice)
    requires AllClean(Check(c, price, ts, margin).log)
    ensures Agree(Check(c, price, ts, margin).core.slice)
    decreases TriggerCount(c), 0, 0
  {
    Triggers.PopAllCount(c.slice.triggers, price);
    PopKeepsSlice(c, price);
    var fired := Triggers.AllFired(c.slice.triggers, price);
    var popped := Core(c.slice.(triggers := Triggers.PopAll(c.slice.triggers, price)), c.nextId);
    if fired != [] {
      PlaceAllAgrees(popped, fired, ts, margin);
    }
  }

  lemma {:induction false} PlaceAllAgrees(c: Core, orders: seq<Order>, ts: nat, margin: MarginPolicy)
    requires SliceOk(c.slice, c.nextId) && Agree(c.slice) && forall o :: o in orders ==> 0 < o.price && o.market == c.slice.id
    requires AllClean(PlaceAll(c, orders, ts, margin).log)
    ensures Agree(PlaceAll(c, orders, ts, margin).core.slice)
    decreases TriggerCount(c), 3, |orders|
  {
    if orders != [] {
      assert orders[0] in orders;
      var p := Place(c, orders[0].owner, Reissue(orders[0]), ts, margin);
      CleanParts(p.log, PlaceAll(p.core, orders[1..], ts, margin).log);
      PlaceAgrees(c, orders[0].owner, Reissue(orders[0]), ts, margin);
      PlaceKeeps(c, orders[0].owner, Reissue(orders[0]), ts, margin);
      assert forall o :: o in orders[1..] ==> o in orders;
      PlaceAllAgrees(p.core, orders[1..], ts, margin);
    }
  }
}

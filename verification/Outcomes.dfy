/** What the operations of the trading core do, in the fields of orders, fills, requests and positions: prices and
    sides of fills, which way positions move, which triggers a price reaches, who is admitted and who may cancel. */
module Outcomes {
  import opened Options
  import opened Orders
  import opened Books
  import opened Matching
  import opened Accounting
  import opened Trading
  import opened Agreement
  import opened MarketInvariant
  import opened ExchangeRuns
  import MarkPrice
  import Triggers

  // ---- Fills ----

  /** `f` trades `o` against the taker `t`: at the price of `o`, which is no worse than the taker's. */
  predicate Trades(f: Fill, t: Order, o: Order) {
    && f.makerOrderId == o.id && f.maker == o.owner && f.takerOrderId == t.id && f.taker == t.owner
    && f.maker != f.taker && f.market == t.market
    && f.price == o.price && 0 < f.size <= o.remaining
    && (t.side == Buy ==> f.takerBuys && o.price <= t.price)
    && (t.side == Sell ==> !f.takerBuys && o.price >= t.price)
  }

  /** Every fill of the walk is such a trade with an order of the queue. */
  lemma WalkTrades(t: Order, q: seq<Order>)
    requires Positive(q) && OncePerId(q) && 0 <= t.remaining
    ensures forall f :: f in Walk(t, q).fills ==> exists o :: o in q && Trades(f, t, o)
  {
    WalkFills(t, q);
    forall f | f in Walk(t, q).fills ensures exists o :: o in q && Trades(f, t, o) {
      assert FillsSome(t, f, q);
      var o :| o in q && FillsOrder(t, f, o);
      assert Trades(f, t, o);
    }
  }

  /** Every fill of a new order is with the order on the other side of the book that its id names. */
  lemma FillsTrade(b: Book, o: Order, f: Fill)
    requires WellFormed(b) && 0 <= o.remaining && o.id !in b.index && f in Matched(b, o).fills
    ensures Get(b, f.makerOrderId).Some? && f.makerOrderId != f.takerOrderId
    ensures var x := Get(b, f.makerOrderId).value; x in Opposite(b, o.side) && x.side != o.side && Trades(f, o, x)
  {
    SideFacts(b, o.side);
    WalkTrades(o, Opposite(b, o.side));
    var x :| x in Opposite(b, o.side) && Trades(f, o, x);
    assert InBook(b, x);
    GetFinds(b, x.id);
  }

  /** Ahead in priority: a better price, or the same price and earlier, or at the same time under a smaller id. */
  predicate Ahead(x: Order, y: Order) {
    || (if x.side == Buy then x.price > y.price else x.price < y.price)
    || (x.price == y.price && (x.timestamp < y.timestamp || (x.timestamp == y.timestamp && x.id < y.id)))
  }

  /** Both sides are in order of priority. */
  lemma SidesInPriority(b: Book)
    requires WellFormed(b)
    ensures forall i, j :: 0 <= i < j < |b.bids| ==> Ahead(b.bids[i], b.bids[j])
    ensures forall i, j :: 0 <= i < j < |b.asks| ==> Ahead(b.asks[i], b.asks[j])
  {
    forall i, j | 0 <= i < j < |b.bids| ensures Ahead(b.bids[i], b.bids[j]) {
      assert Less(KeyOf(b.bids[i]), KeyOf(b.bids[j])) && b.bids[i] in b.bids && b.bids[j] in b.bids;
    }
    forall i, j | 0 <= i < j < |b.asks| ensures Ahead(b.asks[i], b.asks[j]) {
      assert Less(KeyOf(b.asks[i]), KeyOf(b.asks[j])) && b.asks[i] in b.asks && b.asks[j] in b.asks;
    }
  }

  lemma AheadBefore(b: Book, side: Side, i: nat, j: nat)
    requires WellFormed(b) && i < |Opposite(b, side)| && j < |Opposite(b, side)|
    requires Ahead(Opposite(b, side)[i], Opposite(b, side)[j])
    ensures i < j
  {
    var q := Opposite(b, side);
    SidesInPriority(b);
    assert q[i] in q && q[j] in q;
  }

  lemma {:induction false} OfferedGrows(t: Order, q: seq<Order>, i: nat, j: nat)
    requires Positive(q) && i < j <= |q|
    ensures Offered(t, q[..i]) + (if Own(t, q[i]) then 0 else q[i].remaining) <= Offered(t, q[..j])
    decreases |q|
  {
    if i == 0 {
      assert q[..j][0] == q[0] && q[..j][1..] == q[1..][..j - 1];
      assert forall o :: o in q[1..][..j - 1] ==> o in q;
      OfferedNonNegative(t, q[1..][..j - 1]);
    } else {
      assert forall o :: o in q[1..] ==> o in q;
      OfferedGrows(t, q[1..], i - 1, j - 1);
      assert q[..i][0] == q[0] && q[..i][1..] == q[1..][..i - 1];
      assert q[..j][0] == q[0] && q[..j][1..] == q[1..][..j - 1];
    }
  }

  lemma NoFillUntouched(t: Order, q: seq<Order>, j: nat)
    requires Positive(q) && Sorted(q) && OncePerId(q) && 0 <= t.remaining && j < |q|
    requires HasFill(Walk(t, q).fills, q[j].id)
    ensures Touched(t, q, j)
  {
    WalkFate(t, q, j);
  }

  lemma TouchedAhead(t: Order, q: seq<Order>, i: nat, j: nat)
    requires Positive(q) && 0 <= t.remaining && i < j < |q| && Touched(t, q, j)
    ensures Touched(t, q, i) && (!Own(t, q[i]) ==> Allocation(t, q, i) == q[i].remaining)
  {
    assert q[i] in q;
    OfferedGrows(t, q, i, j);
  }

  /** Price-time priority: when an order trades, every order on its side that is ahead of it is gone from the book,
      traded in full unless it was the taker's own. */
  lemma PriceTimePriority(b: Book, o: Order, x: Order, y: Order)
    requires WellFormed(b) && 0 < o.price && 0 < o.remaining && o.id !in b.index
    requires x in Opposite(b, o.side) && y in Opposite(b, o.side) && Ahead(x, y)
    requires exists f :: f in Matched(b, o).fills && f.makerOrderId == y.id
    ensures Get(Process(b, o).book, x.id) == None
    ensures x.owner != o.owner ==> exists f :: f in Matched(b, o).fills && f.makerOrderId == x.id
  {
    var q := Opposite(b, o.side);
    var i :| 0 <= i < |q| && q[i] == x;
    var j :| 0 <= j < |q| && q[j] == y;
    SideFacts(b, o.side);
    AheadBefore(b, o.side, i, j);
    assert HasFill(Matched(b, o).fills, y.id);
    NoFillUntouched(o, q, j);
    TouchedAhead(o, q, i, j);
    WalkFate(o, q, i);
    GoneAfter(b, o, x);
    if x.owner != o.owner { assert HasFill(Matched(b, o).fills, x.id); }
  }

  lemma GoneAfter(b: Book, o: Order, x: Order)
    requires WellFormed(b) && 0 < o.price && 0 <= o.remaining && o.id !in b.index && x in Opposite(b, o.side)
    requires !HasOrder(Matched(b, o).rest, x.id)
    ensures Get(Process(b, o).book, x.id) == None
  {
    NotAfter(b, o, x);
    ProcessKeeps(b, o);
    TakerKeeps(b, o);
    GetFinds(Process(b, o).book, x.id);
    AfterMatchKeeps(b, o);
    GetFinds(AfterMatch(b, o), x.id);
    assert InBook(b, x);
  }

  // ---- The order itself ----

  lemma {:induction false} WalkStatus(t: Order, q: seq<Order>)
    requires Positive(q) && 0 <= t.remaining
    ensures var w := Walk(t, q);
      w.taker.status == if w.fills == [] then t.status else if w.taker.remaining == 0 then Filled else PartiallyFilled
    decreases q
  {
    if !Stops(t, q) && !Outlasts(t, q[0]) {
      assert q[0] in q;
      assert forall o :: o in q[1..] ==> o in q;
      WalkPops(t, q);
      WalkStatus(After(t, q[0]), q[1..]);
      if Walk(After(t, q[0]), q[1..]).fills == [] { NoFillsNoChange(After(t, q[0]), q[1..]); }
    }
  }

  lemma {:induction false} NoFillsNoChange(t: Order, q: seq<Order>)
    requires Walk(t, q).fills == []
    ensures Walk(t, q).taker == t
    decreases q
  {
    if t.remaining != 0 && q != [] && Crosses(t, q[0]) && Own(t, q[0]) { NoFillsNoChange(t, q[1..]); }
  }

  /** The order after an accepted placement: less by what its fills say, filled, resting under its type, or canceled. */
  predicate Settled(o: Order, t: Order, fills: seq<Fill>) {
    && t == o.(remaining := o.remaining - TotalSize(fills), status := t.status)
    && t.status ==
         if t.remaining == 0 then Filled
         else if o.orderType != Limit(Gtc) && o.orderType != Limit(Alo) then Canceled
         else if fills == [] then o.status
         else PartiallyFilled
  }

  lemma MatchedSettles(b: Book, o: Order)
    requires WellFormed(b) && 0 < o.remaining
    ensures var w := Matched(b, o);
      && w.taker == o.(remaining := o.remaining - TotalSize(w.fills), status := w.taker.status)
      && w.taker.status == (if w.fills == [] then o.status else if w.taker.remaining == 0 then Filled else PartiallyFilled)
      && (w.fills == [] ==> w.taker.remaining == o.remaining)
  {
    var q := Opposite(b, o.side);
    SideFacts(b, o.side);
    WalkStatus(o, q);
    WalkConserves(o, q);
    TakerKeeps(b, o);
  }

  /** What an accepted order reports of itself, and why one is rejected. */
  lemma ReportedOutcome(b: Book, o: Order)
    requires WellFormed(b) && 0 < o.remaining
    ensures Process(b, o).result.Ok? ==>
      var (t, fills) := Process(b, o).result.value;
      fills == Matched(b, o).fills && Settled(o, t, fills)
    ensures Process(b, o).result.Err? ==>
      ((o.orderType == Limit(Alo) && Process(b, o).result.error == PostOnlyWouldCross) ||
       (o.orderType == Limit(Fok) && Process(b, o).result.error == FokNotFilled))
  {
    MatchedSettles(b, o);
  }

  /** Where the order is afterwards. */
  lemma OnBookIff(b: Book, o: Order)
    requires WellFormed(b) && 0 < o.price && 0 < o.remaining && o.id !in b.index
    ensures Get(Process(b, o).book, o.id) == if Resting(o, Matched(b, o)) then Some(Matched(b, o).taker) else None
  {
    TakerKeeps(b, o);
    ProcessKeeps(b, o);
    GetFinds(Process(b, o).book, o.id);
    NotYetThere(b, o);
  }

  /** What becomes of a new order, by its type: only what is left of a good-til-canceled or post-only order is on the
      book; everything else is filled, canceled, or rejected with the error of its type. */
  lemma OrderOutcome(b: Book, o: Order)
    requires WellFormed(b) && 0 < o.price && 0 < o.remaining && o.id !in b.index
    ensures Process(b, o).result.Ok? ==>
      var (t, fills) := Process(b, o).result.value;
      && fills == Matched(b, o).fills && Settled(o, t, fills)
      && Get(Process(b, o).book, o.id) ==
           if t.remaining != 0 && (o.orderType == Limit(Gtc) || o.orderType == Limit(Alo)) then Some(t) else None
    ensures Process(b, o).result.Err? ==>
      && Get(Process(b, o).book, o.id) == None
      && ((o.orderType == Limit(Alo) && Process(b, o).result.error == PostOnlyWouldCross) ||
          (o.orderType == Limit(Fok) && Process(b, o).result.error == FokNotFilled))
  {
    ReportedOutcome(b, o);
    OnBookIff(b, o);
    ProcessResult(b, o);
    if Process(b, o).result.Ok? { ProcessRests(b, o); }
  }

  lemma NotYetThere(b: Book, o: Order)
    requires WellFormed(b) && 0 <= o.remaining && o.id !in b.index
    ensures forall y :: InBook(AfterMatch(b, o), y) ==> y.id != o.id
  {
    forall y | InBook(AfterMatch(b, o), y) ensures y.id != o.id {
      var was := AfterMatchOrigin(b, o, y);
      RemainsKey(o, y, was);
      assert InBook(b, was) && was.id in b.index;
    }
  }

  // ---- Positions ----

  function Bought(f: Fill): int { if f.takerBuys then f.size else -f.size }

  /** A fill raises the position of the party that buys by its size, lowers the other's by as much, opens none, and
      touches nobody else's. */
  lemma SettleMoves(l: Ledger, f: Fill)
    requires f.maker != f.taker
    ensures var p := Settle(l, f).positions;
      && p.Keys == l.positions.Keys
      && (f.taker in p ==> p[f.taker] == l.positions[f.taker] + if f.takerBuys then f.size else -f.size)
      && (f.maker in p ==> p[f.maker] == l.positions[f.maker] - if f.takerBuys then f.size else -f.size)
      && (forall a :: a in p && a != f.maker && a != f.taker ==> p[a] == l.positions[a])
  {
  }

  /** Open interest of one position: its size, on its side. */
  lemma InterestOfOne(p: Positions, a: Account)
    requires a in p
    ensures TotalLong(p) == TotalLong(p - {a}) + (if p[a] > 0 then p[a] else 0)
    ensures TotalShort(p) == TotalShort(p - {a}) + (if p[a] < 0 then -p[a] else 0)
  {
    assert (p - {a})[a := p[a]] == p;
    TotalsUpdate(p - {a}, a, p[a]);
  }

  /** What these fills add to an account's position, as taker and as maker. */
  function Net(fills: seq<Fill>, a: Account): int {
    if fills == [] then 0
    else
      var f := fills[0];
      (if f.taker == a then Bought(f) else if f.maker == a then -Bought(f) else 0) + Net(fills[1..], a)
  }

  lemma {:induction false} ApplyFillsMoves(s: Slice, fills: seq<Fill>, a: Account)
    requires s.market.Some? && (forall f :: f in fills ==> f.maker != f.taker) && a in s.positions
    ensures var p := ApplyFills(s, fills).positions; a in p && p[a] == s.positions[a] + Net(fills, a)
    decreases fills
  {
    if fills != [] {
      assert fills[0] in fills;
      assert forall f :: f in fills[1..] ==> f in fills;
      SettleMoves(LedgerOf(s), fills[0]);
      ApplyFillsMoves(ApplyFill(s, fills[0]), fills[1..], a);
    }
  }

  lemma {:induction false} NetOfTaker(fills: seq<Fill>, a: Account, buys: bool)
    requires forall f :: f in fills ==> f.taker == a && f.takerBuys == buys
    ensures Net(fills, a) == if buys then TotalSize(fills) else -TotalSize(fills)
  {
    if fills != [] {
      assert fills[0] in fills;
      assert forall f :: f in fills[1..] ==> f in fills;
      NetOfTaker(fills[1..], a, buys);
    }
  }

  /** The total that account `a` made in these fills. */
  function MadeBy(fills: seq<Fill>, a: Account): int {
    if fills == [] then 0 else (if fills[0].maker == a then fills[0].size else 0) + MadeBy(fills[1..], a)
  }

  lemma {:induction false} NetOfMaker(fills: seq<Fill>, a: Account, buys: bool)
    requires forall f :: f in fills ==> f.taker != a && f.takerBuys == buys
    ensures Net(fills, a) == if buys then -MadeBy(fills, a) else MadeBy(fills, a)
  {
    if fills != [] {
      assert fills[0] in fills;
      assert forall f :: f in fills[1..] ==> f in fills;
      NetOfMaker(fills[1..], a, buys);
    }
  }

  lemma TakerOfAll(s: Slice, o: Order)
    requires Ready(s, o)
    ensures forall f :: f in Matched(s.book, o).fills ==>
      f.taker == o.owner && f.maker != o.owner && (f.takerBuys <==> o.side == Buy)
  {
    forall f | f in Matched(s.book, o).fills
      ensures f.taker == o.owner && f.maker != o.owner && (f.takerBuys <==> o.side == Buy)
    {
      FillsTrade(s.book, o, f);
    }
  }

  /** An accepted buy raises its owner's position by exactly what was traded and lowers each maker's by what that maker
      gave; a sell does the reverse; a rejected order moves nothing, although it may have taken orders off the book. */
  lemma ExecuteMoves(s: Slice, o: Order, a: Account)
    requires Ready(s, o) && a in s.positions
    ensures a in Execute(s, o).slice.positions
    ensures var x := Execute(s, o);
      var change := x.slice.positions[a] - s.positions[a];
      if x.result.Err? then change == 0
      else
        var fills := x.result.value.1;
        if a == o.owner then change == (if o.side == Buy then TotalSize(fills) else -TotalSize(fills))
        else change == (if o.side == Buy then -MadeBy(fills, a) else MadeBy(fills, a))
  {
    var fills := Matched(s.book, o).fills;
    ExecuteShape(s, o);
    ProcessResult(s.book, o);
    if Process(s.book, o).result.Ok? {
      TakerOfAll(s, o);
      ApplyFillsMoves(Sync(s.(book := Process(s.book, o).book), fills), fills, a);
      if a == o.owner { NetOfTaker(fills, a, o.side == Buy); } else { NetOfMaker(fills, a, o.side == Buy); }
    }
  }

  /** The mark after a trade: the trade price if there was none, and otherwise ten of it are nine of the old and one of
      the trade price, less what the two truncations drop. */
  lemma SmoothIsWeighted(mark: nat, trade: nat)
    ensures MarkPrice.Smooth(0, trade) == trade
    ensures mark != 0 ==>
      10 * MarkPrice.Smooth(mark, trade) == 9 * mark + trade - (9 * mark) % 10 - trade % 10
  {
  }

  // ---- Triggers ----

  /** The order waits for the price to rise to its trigger price, and `price` has. */
  predicate ReachedFromBelow(o: Order, price: int) {
    o.triggerDirection == Some(Above) && o.triggerPrice.Some? && o.triggerPrice.value <= price
  }

  predicate ReachedFromAbove(o: Order, price: int) {
    o.triggerDirection == Some(Below) && o.triggerPrice.Some? && o.triggerPrice.value >= price
  }

  predicate Reached(o: Order, price: int) { ReachedFromBelow(o, price) || ReachedFromAbove(o, price) }

  /** Popping at a price takes out exactly the orders above up to it and the orders below down to it. */
  lemma PopsReached(ts: Triggers.TriggerState, price: int)
    requires Triggers.TriggersOk(ts)
    ensures forall o :: Triggers.Stored(Triggers.PopAll(ts, price), o) <==> Triggers.Stored(ts, o) && !Reached(o, price)
    ensures forall o :: o in Triggers.AllFired(ts, price) <==> Triggers.Stored(ts, o) && Reached(o, price)
    ensures forall o :: Triggers.Stored(Triggers.PopAll(ts, price), o) ==>
      o.triggerPrice.Some? && o.triggerDirection.Some? &&
      (if o.triggerDirection.value == Above then o.triggerPrice.value > price else o.triggerPrice.value < price)
  {
    Triggers.PopAllKeeps(ts, price);
    forall o | Triggers.Stored(ts, o) ensures Triggers.Armed(o, price) <==> Reached(o, price) {
      match o.triggerDirection.value { case Above => case Below => }
    }
  }

  ghost predicate AscendingIds(orders: seq<Order>) {
    forall i, j :: 0 <= i < j < |orders| ==> orders[i].id <= orders[j].id
  }

  lemma {:induction false} InsertAscending(orders: seq<Order>, o: Order)
    requires AscendingIds(orders)
    ensures AscendingIds(Triggers.InsertById(orders, o))
  {
    if orders != [] && o.id > orders[0].id {
      var rest := Triggers.InsertById(orders[1..], o);
      InsertAscending(orders[1..], o);
      forall x | x in rest ensures orders[0].id <= x.id {
        Triggers.InsertByIdMembers(orders[1..], o, x);
        if x in orders[1..] { var k :| 0 <= k < |orders[1..]| && orders[1..][k] == x; assert orders[k + 1] == x; }
      }
      assert Triggers.InsertById(orders, o)[1..] == rest;
      assert forall k :: 0 <= k < |rest| ==> rest[k] in rest;
    }
  }

  lemma {:induction false} SortAscending(orders: seq<Order>)
    ensures AscendingIds(Triggers.SortById(orders))
  {
    if orders != [] {
      SortAscending(orders[1..]);
      InsertAscending(Triggers.SortById(orders[1..]), orders[0]);
    }
  }

  /** A check at a price places again, in order of id, exactly the stored orders that the price has reached, starting
      from a store without them. */
  lemma CheckFires(c: Core, price: int, ts: nat, margin: MarginPolicy) returns (fired: seq<Order>, kept: Triggers.TriggerState)
    requires SliceOk(c.slice, c.nextId)
    ensures AscendingIds(fired) && (forall o :: o in fired <==> Triggers.Stored(c.slice.triggers, o) && Reached(o, price))
    ensures forall o :: Triggers.Stored(kept, o) <==> Triggers.Stored(c.slice.triggers, o) && !Reached(o, price)
    ensures var popped := Core(c.slice.(triggers := kept), c.nextId);
      CoreOk(popped) && Check(c, price, ts, margin).core == PlaceAll(popped, fired, ts, margin).core
      && Check(c, price, ts, margin).results == PlaceAll(popped, fired, ts, margin).results
  {
    fired, kept := Triggers.AllFired(c.slice.triggers, price), Triggers.PopAll(c.slice.triggers, price);
    PopsReached(c.slice.triggers, price);
    SortAscending(Triggers.Fired(Above, c.slice.triggers.above, price) + Triggers.Fired(Below, c.slice.triggers.below, price));
    Triggers.PopAllCount(c.slice.triggers, price);
  }

  /** After a check, whatever its cascade did, every stored order waits for a price beyond the checked one. */
  lemma CheckLeaves(c: Core, price: int, ts: nat, margin: MarginPolicy)
    requires SliceOk(c.slice, c.nextId)
    ensures forall o :: Triggers.Stored(Check(c, price, ts, margin).core.slice.triggers, o) ==>
      o.triggerPrice.Some? && o.triggerDirection.Some? &&
      (if o.triggerDirection.value == Above then o.triggerPrice.value > price else o.triggerPrice.value < price)
  {
    var r := Check(c, price, ts, margin).core.slice.triggers;
    CheckKeeps(c, price, ts, margin);
    forall o | Triggers.Stored(r, o)
      ensures if o.triggerDirection.value == Above then o.triggerPrice.value > price else o.triggerPrice.value < price
    {
      assert !Triggers.Armed(o, price);
      match o.triggerDirection.value { case Above => case Below => }
    }
  }

  // ---- Placing ----

  function PositionOf(s: Slice, a: Account): int { if a in s.positions then s.positions[a] else 0 }

  /** A request is admitted exactly when the market trades, price and size are on the grid and within the limits, and
      either it is reduce-only and faces an open position, of whatever size, or the margin suffices. */
  lemma AdmittedIff(s: Slice, a: Account, req: OrderRequest, margin: MarginPolicy, nextId: nat)
    requires s.market.Some? ==> ConfigOk(s.market.value)
    ensures Admit(s, a, req, margin, nextId).Admitted? <==>
      && s.market.Some? && s.market.value.active
      && (exists k :: req.price == k * s.market.value.tick) && (exists k :: req.size == k * s.market.value.lot)
      && s.market.value.minSize <= req.size <= s.market.value.maxSize
      && (if req.reduceOnly then (if req.side == Buy then PositionOf(s, a) < 0 else PositionOf(s, a) > 0)
          else margin(a, req, s.(positions := s.positions[a := PositionOf(s, a)]), nextId))
  {
    if s.market.Some? {
      MultipleIff(req.price, s.market.value.tick);
      MultipleIff(req.size, s.market.value.lot);
      if a in s.positions { assert s.positions[a := PositionOf(s, a)] == s.positions; }
    }
  }

  lemma MultipleIff(x: int, d: int)
    requires d > 0
    ensures x % d == 0 <==> exists k :: x == k * d
  {
    if x % d == 0 { assert x == (x / d) * d; }
    if k :| x == k * d { MultipleMod(k, d); }
  }

  lemma MultipleMod(k: int, d: int)
    requires d > 0
    ensures (k * d) % d == 0
  {
    var q, r := (k * d) / d, (k * d) % d;
    assert (k - q) * d == r;
    if k > q { AtLeastOnce(k - q, d); }
    if k < q { AtLeastOnce(q - k, d); }
  }

  lemma AtLeastOnce(n: nat, d: nat)
    requires n >= 1
    ensures n * d >= d
  {
  }

  /** The first reason that applies. */
  lemma RefusedFor(s: Slice, a: Account, req: OrderRequest, margin: MarginPolicy, nextId: nat)
    requires (s.market.Some? ==> ConfigOk(s.market.value)) && Admit(s, a, req, margin, nextId).Refused?
    ensures var e := Admit(s, a, req, margin, nextId).error;
      if s.market.None? then e == MarketNotFound
      else
        var m := s.market.value;
        if !m.active then e == MarketPaused
        else if req.price % m.tick != 0 then e == InvalidPrice
        else if req.size % m.lot != 0 || req.size < m.minSize then e == InvalidSize
        else if req.size > m.maxSize then e == SizeTooLarge
        else e == if req.reduceOnly then ReduceOnlyViolation else InsufficientMargin
  {
  }

  /** The order a request becomes. */
  predicate MadeFrom(o: Order, id: OrderId, a: Account, req: OrderRequest, ts: nat) {
    && o.id == id && o.owner == a && o.market == req.market && o.side == req.side && o.price == req.price
    && o.originalSize == req.size && o.remaining == req.size && o.orderType == req.orderType
    && o.reduceOnly == req.reduceOnly && o.timestamp == ts && o.status == Open
    && o.triggerPrice == req.triggerPrice && o.triggerDirection == req.triggerDirection
  }

  /** A refused request uses no id and reaches nothing. An admitted one with a trigger price is stored under the next
      id, if it has a direction, and trades nothing; any other is executed under the next id, and is what the log
      begins with. */
  lemma PlaceMeans(c: Core, a: Account, req: OrderRequest, ts: nat, margin: MarginPolicy)
    requires SliceOk(c.slice, c.nextId) && 0 < req.price && req.market == c.slice.id
    ensures var p, adm := Place(c, a, req, ts, margin), Admit(c.slice, a, req, margin, c.nextId);
      if adm.Refused? then p.result == Err(adm.error) && p.core == Core(adm.slice, c.nextId) && p.log == []
      else if req.triggerPrice.Some? then
        && p.result.Ok? && MadeFrom(p.result.value.0, c.nextId, a, req, ts) && p.result.value.1 == [] && p.log == []
        && p.core == Core(adm.slice.(triggers := p.core.slice.triggers), c.nextId + 1)
        && forall x :: Triggers.Stored(p.core.slice.triggers, x) <==>
             Triggers.Stored(c.slice.triggers, x) || (x == p.result.value.0 && req.triggerDirection.Some?)
      else
        && p.log != [] && p.log[0].slice == adm.slice && MadeFrom(p.log[0].order, c.nextId, a, req, ts)
        && p.result == Process(adm.slice.book, p.log[0].order).result && p.core.nextId > c.nextId
  {
    var adm := Admit(c.slice, a, req, margin, c.nextId);
    AdmitKeeps(c.slice, a, req, margin, c.nextId);
    if adm.Admitted? {
      var o := NewOrder(c.nextId, a, req, ts);
      if req.triggerPrice.Some? {
        StoreKeeps(adm.slice, c.nextId, o);
      } else {
        PlainMeans(Core(adm.slice, c.nextId), o, ts, margin);
      }
    }
  }

  lemma PlainMeans(c: Core, o: Order, ts: nat, margin: MarginPolicy)
    requires Submittable(c, o) && o.triggerPrice.None?
    ensures var p := Submit(c, o, ts, margin);
      && p.log != [] && p.log[0] == Event(c.slice, o) && p.result == Process(c.slice.book, o).result
      && p.core.nextId > c.nextId
  {
    NewId(c.slice, c.nextId);
    ExecuteShape(c.slice, o);
    SubmitShape(c, o, ts, margin);
    ExecuteKeeps(c.slice, c.nextId, o);
    FollowKeeps(Core(Execute(c.slice, o).slice, c.nextId + 1), MovesMark(Execute(c.slice, o)), ts, margin);
  }

  /** An order that trades nothing, or is rejected, checks no trigger: mark and stored triggers stay as they are, even
      those the mark has reached, and nothing else is executed. */
  lemma QuietPlacement(c: Core, o: Order, ts: nat, margin: MarginPolicy)
    requires Submittable(c, o) && o.triggerPrice.None?
    requires Process(c.slice.book, o).result.Err? || Matched(c.slice.book, o).fills == []
    ensures var p := Submit(c, o, ts, margin);
      && p.core.slice.market == c.slice.market && p.core.slice.triggers == c.slice.triggers
      && p.core.nextId == c.nextId + 1 && p.log == [Event(c.slice, o)]
  {
    NewId(c.slice, c.nextId);
    ExecuteShape(c.slice, o);
    ProcessResult(c.slice.book, o);
    NoFillsCalm(c.slice, c.nextId, o);
    SubmitShape(c, o, ts, margin);
  }

  /** A fired trigger that is admitted is executed as an order of the same account, side, price, type and flag, of the
      size that was left of it, without a trigger, now. */
  lemma FiredPlaced(c: Core, orders: seq<Order>, ts: nat, margin: MarginPolicy)
    requires SliceOk(c.slice, c.nextId) && orders != [] && 0 < orders[0].price && orders[0].market == c.slice.id
    requires Admit(c.slice, orders[0].owner, Reissue(orders[0]), margin, c.nextId).Admitted?
    ensures var o := orders[0]; var k := PlaceAll(c, orders, ts, margin);
      k.log != [] && k.log[0].order ==
        Order(c.nextId, o.owner, o.market, o.side, o.price, o.remaining, o.remaining, o.orderType, o.reduceOnly, ts, Open, None, None)
  {
    var p := Place(c, orders[0].owner, Reissue(orders[0]), ts, margin);
    PlaceMeans(c, orders[0].owner, Reissue(orders[0]), ts, margin);
  }

  // ---- Cancelling ----

  /** A cancellation takes out the record and the order with that id if the record is the account's own, and changes
      nothing otherwise. */
  lemma CancelMeans(e: Exchange, a: Account, m: MarketId, id: OrderId)
    requires Configured(e) && m in e.slices && WellFormed(e.slices[m].book)
    ensures m in Step(e, CancelOrder(a, m, id)).slices
    ensures var s, f := e.slices[m], Step(e, CancelOrder(a, m, id));
      var t := f.slices[m];
      && f == e.(slices := e.slices[m := t])
      && (if id in s.orders && s.orders[id].owner == a then
            t.orders == s.orders - {id} && t.book == Remove(s.book, id) && t.positions == s.positions && t.triggers == s.triggers
          else t == s)
      && (id in s.orders && s.orders[id].owner == a ==>
            forall x :: InBook(t.book, x) <==> InBook(s.book, x) && x.id != id)
  {
    RemoveKeeps(e.slices[m].book, id);
    assert e.slices[m := e.slices[m]] == e.slices;
  }
}

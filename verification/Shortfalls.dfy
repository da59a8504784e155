/** Runs from an empty exchange that reach the cases which the exact conditions for agreement and calm shut out, and
    what restoring such a state does to its book. */
module Shortfalls {
  import opened Options
  import opened Orders
  import opened Books
  import opened Matching
  import opened Trading
  import opened Agreement
  import opened MarketInvariant
  import opened ExchangeRuns
  import RunSnapshots
  import S = Snapshots
  import SnapshotObject
  import Triggers

  // ---- Placements in one market ----

  const FREE: MarginPolicy := (_, _, _, _) => true

  /** A market in units of one, at this mark. */
  function Info(mark: int): MarketInfo { MarketInfo(1, 1, 1, 10, true, mark, 0, 0) }

  function Ask(size: int): OrderRequest { OrderRequest(0, Sell, 10, size, Limit(Gtc), false, None, None) }

  function Bid(size: int, tif: TimeInForce): OrderRequest { OrderRequest(0, Buy, 10, size, Limit(tif), false, None, None) }

  function StopAbove(price: int): OrderRequest {
    OrderRequest(0, Sell, 10, 5, Limit(Gtc), false, Some(price), Some(Above))
  }

  /** Such a market is added and these orders are placed. */
  function Placements(placed: seq<(Account, OrderRequest)>): seq<Action> {
    if placed == [] then [] else [PlaceOrder(placed[0].0, placed[0].1, 0, FREE)] + Placements(placed[1..])
  }

  function Acts(mark: int, placed: seq<(Account, OrderRequest)>): seq<Action> {
    [AddMarket(0, Info(mark))] + Placements(placed)
  }

  function Start(mark: int): Core { Core(NewSlice(0, Info(mark)), 1) }

  ghost predicate Live(c: Core) { c.slice.id == 0 && SliceOk(c.slice, c.nextId) }

  ghost predicate Plain(placed: seq<(Account, OrderRequest)>) {
    forall i :: 0 <= i < |placed| ==> placed[i].1.market == 0 && 0 < placed[i].1.price
  }

  lemma PlaceLive(c: Core, a: Account, req: OrderRequest)
    requires Live(c) && req.market == 0 && 0 < req.price
    ensures Live(Place(c, a, req, 0, FREE).core)
  {
    PlaceKeeps(c, a, req, 0, FREE);
  }

  ghost function After(c: Core, placed: seq<(Account, OrderRequest)>): Core
    requires Live(c) && Plain(placed)
    decreases placed
  {
    if placed == [] then c
    else
      PlaceLive(c, placed[0].0, placed[0].1);
      After(Place(c, placed[0].0, placed[0].1, 0, FREE).core, placed[1..])
  }

  function Alone(c: Core): Exchange { Exchange(map[0 := c.slice], c.nextId, {0}) }

  /** An exchange of one market does what that market does. */
  lemma AloneStep(c: Core, act: Action)
    requires CoreOk(c) && !act.AddMarket? && MarketOf(act) == 0
    ensures Configured(Alone(c)) && Step(Alone(c), act) == Alone(Act(c, act))
  {
    var next := Act(c, act);
    assert Alone(c).slices[0] == c.slice && Core(c.slice, c.nextId) == c;
    assert Alone(c).slices[0 := next.slice] == map[0 := next.slice];
  }

  lemma {:induction false} AloneRuns(c: Core, placed: seq<(Account, OrderRequest)>)
    requires Live(c) && Plain(placed)
    ensures Configured(Alone(c)) && AllAllowed(Alone(c), Placements(placed))
    ensures Run(Alone(c), Placements(placed)) == Alone(After(c, placed))
    decreases placed
  {
    if placed != [] {
      AloneStep(c, PlaceOrder(placed[0].0, placed[0].1, 0, FREE));
      PlaceLive(c, placed[0].0, placed[0].1);
      AloneRuns(Place(c, placed[0].0, placed[0].1, 0, FREE).core, placed[1..]);
      assert Placements(placed)[1..] == Placements(placed[1..]);
    }
  }

  lemma StartLive(mark: int)
    ensures Live(Start(mark)) && Agree(Start(mark).slice) && Calm(Start(mark).slice)
  {
    NewSliceOk(0, Info(mark), 1);
  }

  lemma ActsRun(mark: int, placed: seq<(Account, OrderRequest)>)
    requires Plain(placed)
    ensures Live(Start(mark)) && Configured(NEW_EXCHANGE) && AllAllowed(NEW_EXCHANGE, Acts(mark, placed))
    ensures Run(NEW_EXCHANGE, Acts(mark, placed)) == Alone(After(Start(mark), placed))
  {
    StartLive(mark);
    assert map[][0 := NewSlice(0, Info(mark))] == map[0 := NewSlice(0, Info(mark))];
    assert Step(NEW_EXCHANGE, AddMarket(0, Info(mark))) == Alone(Start(mark));
    AloneRuns(Start(mark), placed);
    assert Acts(mark, placed)[1..] == Placements(placed);
  }

  /** The market after such a run. */
  ghost function MarketAfter(mark: int, placed: seq<(Account, OrderRequest)>): Slice
    requires Plain(placed)
  {
    ActsRun(mark, placed);
    Run(NEW_EXCHANGE, Acts(mark, placed)).slices[0]
  }

  // ---- One placement ----

  function Opened(s: Slice, a: Account): Slice {
    if a in s.positions then s else s.(positions := s.positions[a := 0])
  }

  lemma Accepted(c: Core, a: Account, req: OrderRequest)
    requires c.slice.market.Some? && c.slice.market.value == Info(c.slice.market.value.mark)
    requires 1 <= req.size <= 10 && !req.reduceOnly
    ensures CoreOk(c)
    ensures Place(c, a, req, 0, FREE) == Submit(Core(Opened(c.slice, a), c.nextId), NewOrder(c.nextId, a, req, 0), 0, FREE)
  {
  }

  /** An order that trades nothing and rests. */
  lemma Rests(s: Slice, o: Order)
    requires Ready(s, o) && o.ShouldRest()
    requires Matched(s.book, o).fills == [] && Matched(s.book, o).taker == o
    ensures var x := Execute(s, o);
      && !MovesMark(x) && x.slice.book == Insert(AfterMatch(s.book, o), o) && x.slice.orders == s.orders[o.id := o]
      && x.slice.market == s.market
  {
    ExecuteShape(s, o);
    ExecuteParts(s, o);
    assert SyncedOrders(s.orders, Process(s.book, o).book, []) == s.orders;
  }

  lemma TakesAll(b: Book, o: Order)
    requires b.bids == [] && b.bestBid == None && o.side == Buy && Matched(b, o).rest == []
    ensures AfterMatch(b, o) == EMPTY_BOOK
  {
  }

  /** One ask of account 1 stands alone. */
  ghost predicate OneAsk(c: Core, mark: int) {
    && Live(c) && Agree(c.slice) && c.nextId == 2 && c.slice.market == Some(Info(mark))
    && c.slice.orders == map[1 := NewOrder(1, 1, Ask(5), 0)]
    && c.slice.book == Insert(EMPTY_BOOK, NewOrder(1, 1, Ask(5), 0))
  }

  lemma FirstAsk(mark: int)
    ensures Live(Start(mark)) && OneAsk(Place(Start(mark), 1, Ask(5), 0, FREE).core, mark)
  {
    var o := NewOrder(1, 1, Ask(5), 0);
    var s := Opened(Start(mark).slice, 1);
    StartLive(mark);
    Accepted(Start(mark), 1, Ask(5));
    AdmitKeeps(Start(mark).slice, 1, Ask(5), FREE, 1);
    assert WellFormed(EMPTY_BOOK);
    assert AfterMatch(EMPTY_BOOK, o) == EMPTY_BOOK;
    Rests(s, o);
    SubmitShape(Core(s, 1), o, 0, FREE);
    PlaceKeeps(Start(mark), 1, Ask(5), 0, FREE);
    ExecuteAgrees(s, o);
    assert map[][1 := o] == map[1 := o];
  }

  // ---- Self-trade prevention ----

  const SELF_MATCH := [(1, Ask(5)), (1, Bid(5, Gtc))]

  lemma SelfMatchStep(c: Core)
    requires OneAsk(c, 0)
    ensures var t := Place(c, 1, Bid(5, Gtc), 0, FREE).core.slice;
      !Agree(t) && OneDropped(t)
  {
    var o := NewOrder(2, 1, Bid(5, Gtc), 0);
    var s := Opened(c.slice, 1);
    Accepted(c, 1, Bid(5, Gtc));
    NewId(c.slice, 2);
    TakesAll(s.book, o);
    Rests(s, o);
    SubmitShape(Core(s, 2), o, 0, FREE);
    var t := Execute(s, o).slice;
    assert 1 in t.orders && 1 !in t.book.index;
  }

  lemma AfterOne(c: Core, x: (Account, OrderRequest))
    requires Live(c) && x.1.market == 0 && 0 < x.1.price
    ensures Plain([x]) && After(c, [x]) == Place(c, x.0, x.1, 0, FREE).core
  {
    PlaceLive(c, x.0, x.1);
    assert [x][1..] == [];
  }

  lemma AfterTwo(c: Core, x: (Account, OrderRequest), y: (Account, OrderRequest))
    requires Live(c) && x.1.market == 0 && 0 < x.1.price && y.1.market == 0 && 0 < y.1.price
    ensures var d := Place(c, x.0, x.1, 0, FREE).core;
      Live(d) && Plain([x, y]) && After(c, [x, y]) == Place(d, y.0, y.1, 0, FREE).core
  {
    PlaceLive(c, x.0, x.1);
    AfterOne(Place(c, x.0, x.1, 0, FREE).core, y);
    assert [x, y][1..] == [y];
  }

  /** Both orders are on record, and only the bid is on the book. */
  ghost predicate OneDropped(s: Slice) {
    && s.orders == map[1 := NewOrder(1, 1, Ask(5), 0), 2 := NewOrder(2, 1, Bid(5, Gtc), 0)]
    && s.book.asks == [] && s.book.bids == [NewOrder(2, 1, Bid(5, Gtc), 0)]
  }

  /** An account sells and then buys at the same price: two records, but only the second order on the book. */
  lemma SelfMatchRun()
    ensures OneDropped(MarketAfter(0, SELF_MATCH)) && !Agree(MarketAfter(0, SELF_MATCH))
  {
    FirstAsk(0);
    AfterTwo(Start(0), (1, Ask(5)), (1, Bid(5, Gtc)));
    ActsRun(0, SELF_MATCH);
    SelfMatchStep(Place(Start(0), 1, Ask(5), 0, FREE).core);
  }

  /** Wherever a run has left the two records and the one order, any snapshot is restored to a crossed book: the order
      that was dropped comes back from its record. */
  lemma DroppedComesBack(acts: seq<Action>, accounts: map<Account, int>, modes: map<Account, bool>, fund: int, snap: S.Snapshot)
    requires Configured(NEW_EXCHANGE) && AllAllowed(NEW_EXCHANGE, acts)
    requires 0 in Run(NEW_EXCHANGE, acts).slices && OneDropped(Run(NEW_EXCHANGE, acts).slices[0])
    requires SnapshotObject.CapturesAll(RunSnapshots.StateOf(Run(NEW_EXCHANGE, acts), accounts, modes, fund), snap)
    ensures var before, after := Run(NEW_EXCHANGE, acts).slices[0], S.SliceAt(SnapshotObject.Rebuilt(snap).slices, 0);
      Uncrossed(before.book) && !Uncrossed(after.book) && after.book != before.book
  {
    var before, after := Run(NEW_EXCHANGE, acts).slices[0], S.SliceAt(SnapshotObject.Rebuilt(snap).slices, 0);
    RunSnapshots.RunRestoresAt(acts, accounts, modes, fund, snap, 0);
    RunSnapshots.BackUncrossedIff(before, after);
    assert before.orders[2].side == Buy && before.orders[1].side == Sell;
  }

  /** The run of the account that sells and buys does. */
  lemma RestoredCrossed(accounts: map<Account, int>, modes: map<Account, bool>, fund: int, snap: S.Snapshot)
    requires Configured(NEW_EXCHANGE) && AllAllowed(NEW_EXCHANGE, Acts(0, SELF_MATCH))
    requires SnapshotObject.CapturesAll(
      RunSnapshots.StateOf(Run(NEW_EXCHANGE, Acts(0, SELF_MATCH)), accounts, modes, fund), snap)
    ensures var before, after := MarketAfter(0, SELF_MATCH), S.SliceAt(SnapshotObject.Rebuilt(snap).slices, 0);
      Uncrossed(before.book) && !Uncrossed(after.book) && after.book != before.book
  {
    SelfMatchRun();
    ActsRun(0, SELF_MATCH);
    DroppedComesBack(Acts(0, SELF_MATCH), accounts, modes, fund, snap);
  }

  // ---- Rejection after a partial fill ----

  function Rejected(tif: TimeInForce): seq<(Account, OrderRequest)> { [(1, Ask(5)), (2, Bid(8, tif))] }

  lemma PartlyFills(b: Book, o: Order)
    requires b == Insert(EMPTY_BOOK, NewOrder(1, 1, Ask(5), 0)) && o.owner == 2 && o.side == Buy && o.price == 10
    requires o.remaining == 8 && (o.FillOrKill() || o.PostOnly())
    ensures Process(b, o).result.Err? && Process(b, o).book == EMPTY_BOOK
  {
    var r := NewOrder(1, 1, Ask(5), 0);
    assert b.asks == [r] && [r][1..] == [];
    assert Walk(o.Fill(5), []) == WalkResult(o.Fill(5), [], []);
    TakesAll(b, o);
  }

  lemma RejectedAbsorbed(s: Slice, o: Order)
    requires Ready(s, o) && Process(s.book, o).result.Err?
    ensures var x := Execute(s, o); !MovesMark(x) && x.slice == s.(book := Process(s.book, o).book)
  {
    ExecuteShape(s, o);
  }

  lemma RejectedStep(c: Core, tif: TimeInForce)
    requires OneAsk(c, 0) && (tif == Fok || tif == Alo)
    ensures var t := Place(c, 2, Bid(8, tif), 0, FREE).core.slice;
      !Agree(t) && t.orders == map[1 := NewOrder(1, 1, Ask(5), 0)] && t.book == EMPTY_BOOK
  {
    var o := NewOrder(2, 2, Bid(8, tif), 0);
    var s := Opened(c.slice, 2);
    Accepted(c, 2, Bid(8, tif));
    NewId(c.slice, 2);
    PartlyFills(s.book, o);
    RejectedAbsorbed(s, o);
    SubmitShape(Core(s, 2), o, 0, FREE);
    assert 1 in s.orders && 1 !in EMPTY_BOOK.index;
  }

  /** A post-only or fill-or-kill bid takes an ask and is rejected: the record of the ask stays, on an empty book. */
  lemma RejectedRun(tif: TimeInForce)
    requires tif == Fok || tif == Alo
    ensures var s := MarketAfter(0, Rejected(tif));
      !Agree(s) && s.orders == map[1 := NewOrder(1, 1, Ask(5), 0)] && s.book == EMPTY_BOOK
  {
    FirstAsk(0);
    AfterTwo(Start(0), (1, Ask(5)), (2, Bid(8, tif)));
    ActsRun(0, Rejected(tif));
    RejectedStep(Place(Start(0), 1, Ask(5), 0, FREE).core, tif);
  }

  // ---- A trigger the mark has already reached ----

  const ARMED := [(1, StopAbove(3))]

  /** At a mark of 5 a trigger above 3 is stored and stays there, reached. */
  lemma ArmedRun()
    ensures Calm(MarketAfter(5, [])) && !Calm(MarketAfter(5, ARMED))
  {
    StartLive(5);
    ActsRun(5, []);
    ActsRun(5, ARMED);
    var c := Start(5);
    Accepted(c, 1, StopAbove(3));
    StoreCalmIff(c, 1, StopAbove(3), 0, FREE);
    AfterOne(c, (1, StopAbove(3)));
  }
}

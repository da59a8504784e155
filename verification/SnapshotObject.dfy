/** Taking a snapshot of the engine state and restoring it, in place or into a new object. */
module SnapshotObject {
  import opened Options
  import opened Orders
  import opened Books
  import opened Trading
  import opened Snapshots
  import Triggers

  // ---- The round trip ----

  ghost predicate CapturesAll(st: EngineState, snap: Snapshot) {
    && (forall m: MarketId :: Captures(snap, m, SliceAt(st.slices, m)))
    && Enumerates(st.accounts, snap.accounts) && Enumerates(st.modes, snap.modes)
    && snap.fund == st.fund && snap.nextId == st.nextId
  }

  ghost predicate SoundState(st: EngineState) { forall m :: m in st.slices ==> st.slices[m].id == m && Sound(st.slices[m]) }

  function Rebuilt(snap: Snapshot): EngineState {
    EngineState(ApplyAll(map[], LoadsOf(snap)), FromList(snap.accounts), FromList(snap.modes), snap.fund, snap.nextId)
  }

  lemma EmptySound(m: MarketId)
    ensures Sound(EmptySlice(m))
  {
    var s := EmptySlice(m);
    assert WellFormed(EMPTY_BOOK);
    forall d, p ensures Triggers.ListedAt(s.triggers, d, p) {}
  }

  /** Accounts, margin modes, fund and next id come back as they were, and so do the records, positions, leverage and
      triggers of every market; every book holds the records, and is what it was exactly when it agreed with them;
      account lists may be reordered. */
  lemma RestoreBack(st: EngineState, snap: Snapshot)
    requires SoundState(st) && CapturesAll(st, snap)
    ensures var r := Rebuilt(snap);
      && r.accounts == st.accounts && r.modes == st.modes && r.fund == st.fund && r.nextId == st.nextId
      && forall m :: ComesBack(SliceAt(st.slices, m), SliceAt(r.slices, m))
  {
    FromListBack(st.accounts, snap.accounts);
    FromListBack(st.modes, snap.modes);
    forall m ensures ComesBack(SliceAt(st.slices, m), SliceAt(Rebuilt(snap).slices, m)) {
      MarketBack(st.slices, snap, m);
    }
  }

  lemma MarketBack(slices: map<MarketId, Slice>, snap: Snapshot, m: MarketId)
    requires m in slices ==> slices[m].id == m && Sound(slices[m])
    requires Captures(snap, m, SliceAt(slices, m))
    ensures ComesBack(SliceAt(slices, m), SliceAt(ApplyAll(map[], LoadsOf(snap)), m))
  {
    EmptySound(m);
    LoadsProject(map[], LoadsOf(snap), m);
    InPhases(snap, m);
    SliceBack(snap, m, SliceAt(slices, m));
  }

  // ---- Restoring ----

  lemma ApplyAllMore(slices: map<MarketId, Slice>, loads: seq<Load>, l: Load)
    ensures ApplyAll(slices, loads + [l]) ==
      var before := ApplyAll(slices, loads); before[MarketOf(l) := Apply(SliceAt(before, MarketOf(l)), l)]
  {
    assert (loads + [l])[..|loads|] == loads;
  }

  class EngineStateObject {
    var slices: map<MarketId, Slice>
    var accounts: map<Account, int>
    var modes: map<Account, bool>
    var fund: int
    var nextId: nat

    ghost function Now(): EngineState
      reads this
    {
      EngineState(slices, accounts, modes, fund, nextId)
    }

    constructor ()
      ensures Now() == EngineState(map[], map[], map[], 0, 1)
    {
      slices, accounts, modes, fund, nextId := map[], map[], map[], 0, 1;
    }

    constructor FromSnapshot(snap: Snapshot)
      ensures Now() == Rebuilt(snap)
    {
      slices, accounts, modes, fund, nextId := map[], map[], map[], 0, 1;
      new;
      Restore(snap);
    }

    /** Clear everything and load the lists one after the other. */
    method Restore(snap: Snapshot)
      modifies this
      ensures Now() == Rebuilt(snap)
    {
      accounts := LoadMap(snap.accounts);
      slices := map[];
      ghost var done: seq<Load> := [];
      done := RestorePositions(snap.positions, done);
      done := RestoreLeverage(snap.leverage, done);
      done := RestoreMarkets(snap.markets, done);
      done := RestoreOrders(snap.orders, done);
      modes := LoadMap(snap.modes);
      done := RestoreTriggers(snap.triggers, done);
      assert [] + PositionLoads(snap.positions) == PositionLoads(snap.positions);
      assert done == LoadsOf(snap);
      fund := snap.fund;
      nextId := snap.nextId;
    }

    /** Insert one entry; the market is created if it is not there. */
    method LoadOne(l: Load, ghost done: seq<Load>)
      requires slices == ApplyAll(map[], done)
      modifies `slices
      ensures slices == ApplyAll(map[], done + [l])
    {
      ApplyAllMore(map[], done, l);
      slices := slices[MarketOf(l) := Apply(SliceAt(slices, MarketOf(l)), l)];
    }

    method RestorePositions(xs: seq<(MarketId, Account, int)>, ghost done: seq<Load>) returns (ghost all: seq<Load>)
      requires slices == ApplyAll(map[], done)
      modifies `slices
      ensures all == done + PositionLoads(xs) && slices == ApplyAll(map[], all)
    {
      all := done;
      assert done + [] == done;
      for i := 0 to |xs|
        invariant all == done + PositionLoads(xs[..i]) && slices == ApplyAll(map[], all)
      {
        assert xs[..i + 1][..i] == xs[..i];
        var l := LoadPosition(xs[i].0, xs[i].1, xs[i].2);
        LoadOne(l, all);
        all := all + [l];
      }
      assert xs[..|xs|] == xs;
    }

    method RestoreLeverage(xs: seq<(MarketId, Account, nat)>, ghost done: seq<Load>) returns (ghost all: seq<Load>)
      requires slices == ApplyAll(map[], done)
      modifies `slices
      ensures all == done + LeverageLoads(xs) && slices == ApplyAll(map[], all)
    {
      all := done;
      assert done + [] == done;
      for i := 0 to |xs|
        invariant all == done + LeverageLoads(xs[..i]) && slices == ApplyAll(map[], all)
      {
        assert xs[..i + 1][..i] == xs[..i];
        var l := LoadLeverage(xs[i].0, xs[i].1, xs[i].2);
        LoadOne(l, all);
        all := all + [l];
      }
      assert xs[..|xs|] == xs;
    }

    method RestoreMarkets(xs: seq<(MarketId, MarketInfo)>, ghost done: seq<Load>) returns (ghost all: seq<Load>)
      requires slices == ApplyAll(map[], done)
      modifies `slices
      ensures all == done + MarketLoads(xs) && slices == ApplyAll(map[], all)
    {
      all := done;
      assert done + [] == done;
      for i := 0 to |xs|
        invariant all == done + MarketLoads(xs[..i]) && slices == ApplyAll(map[], all)
      {
        assert xs[..i + 1][..i] == xs[..i];
        var l := LoadMarket(xs[i].0, xs[i].1);
        LoadOne(l, all);
        all := all + [l];
      }
      assert xs[..|xs|] == xs;
    }

    method RestoreOrders(xs: seq<Order>, ghost done: seq<Load>) returns (ghost all: seq<Load>)
      requires slices == ApplyAll(map[], done)
      modifies `slices
      ensures all == done + OrderLoads(xs) && slices == ApplyAll(map[], all)
    {
      all := done;
      assert done + [] == done;
      for i := 0 to |xs|
        invariant all == done + OrderLoads(xs[..i]) && slices == ApplyAll(map[], all)
      {
        assert xs[..i + 1][..i] == xs[..i];
        LoadOne(LoadOrder(xs[i]), all);
        all := all + [LoadOrder(xs[i])];
      }
      assert xs[..|xs|] == xs;
    }

    method RestoreTriggers(xs: seq<Order>, ghost done: seq<Load>) returns (ghost all: seq<Load>)
      requires slices == ApplyAll(map[], done)
      modifies `slices
      ensures all == done + TriggerLoads(xs) && slices == ApplyAll(map[], all)
    {
      all := done;
      assert done + [] == done;
      for i := 0 to |xs|
        invariant all == done + TriggerLoads(xs[..i]) && slices == ApplyAll(map[], all)
      {
        assert xs[..i + 1][..i] == xs[..i];
        LoadOne(LoadTrigger(xs[i]), all);
        all := all + [LoadTrigger(xs[i])];
      }
      assert xs[..|xs|] == xs;
    }
  }

  method LoadMap<K(==, !new), V(!new)>(xs: seq<(K, V)>) returns (m: map<K, V>)
    ensures m == FromList(xs)
  {
    m := map[];
    for i := 0 to |xs|
      invariant m == FromList(xs[..i])
    {
      assert xs[..i + 1][..i] == xs[..i];
      m := m[xs[i].0 := xs[i].1];
    }
    assert xs[..|xs|] == xs;
  }

  // ---- Saving ----

  /** List the entries of a map, in some order. */
  method ListMap<K(==, !new), V(==, !new)>(m: map<K, V>) returns (xs: seq<(K, V)>)
    ensures Enumerates(m, xs)
  {
    xs := [];
    var rest := m.Keys;
    while rest != {}
      invariant rest <= m.Keys
      invariant forall k, v :: (k, v) in xs <==> k in m && k !in rest && m[k] == v
      decreases |rest|
    {
      var k :| k in rest;
      xs := xs + [(k, m[k])];
      rest := rest - {k};
    }
  }

  /** List the records of a market, each once. */
  method ListOrders(records: map<OrderId, Order>) returns (orders: seq<Order>)
    requires forall id :: id in records ==> records[id].id == id
    ensures ListsRecords(orders, records)
  {
    orders := [];
    var rest := records.Keys;
    while rest != {}
      invariant rest <= records.Keys
      invariant forall o :: o in orders <==> o.id in records && o.id !in rest && records[o.id] == o
      invariant OncePerId(orders)
      decreases |rest|
    {
      var id :| id in rest;
      assert forall i :: 0 <= i < |orders| ==> orders[i] in orders;
      orders := orders + [records[id]];
      rest := rest - {id};
    }
  }

  /** Records and triggers carry the market they are stored under. */
  ghost predicate AtHome(s: Slice) {
    && (forall id :: id in s.orders ==> s.orders[id].market == s.id)
    && (forall o :: o in Triggers.Flat(s.triggers.above) ==> o.market == s.id)
    && (forall o :: o in Triggers.Flat(s.triggers.below) ==> o.market == s.id)
  }

  function TagPositions(m: MarketId, xs: seq<(Account, int)>): seq<(MarketId, Account, int)> {
    if xs == [] then [] else TagPositions(m, xs[..|xs| - 1]) + [(m, xs[|xs| - 1].0, xs[|xs| - 1].1)]
  }

  function TagLeverage(m: MarketId, xs: seq<(Account, nat)>): seq<(MarketId, Account, nat)> {
    if xs == [] then [] else TagLeverage(m, xs[..|xs| - 1]) + [(m, xs[|xs| - 1].0, xs[|xs| - 1].1)]
  }

  lemma AppendEach<T>(base: seq<T>, front: seq<T>, x: T, here: bool)
    ensures (base + if here then front else []) + (if here then [x] else []) == base + if here then front + [x] else []
  {
  }

  lemma PositionsOfMore(acc: seq<(MarketId, Account, int)>, e: (MarketId, Account, int), k: MarketId)
    ensures PositionsOf(acc + [e], k) == PositionsOf(acc, k) + if e.0 == k then [(e.1, e.2)] else []
  {
    assert (acc + [e])[..|acc|] == acc;
  }

  lemma {:induction false} PositionsTagged(acc: seq<(MarketId, Account, int)>, m: MarketId, xs: seq<(Account, int)>, k: MarketId)
    ensures PositionsOf(acc + TagPositions(m, xs), k) == PositionsOf(acc, k) + if k == m then xs else []
  {
    if xs == [] {
      assert acc + [] == acc;
    } else {
      var front, x := xs[..|xs| - 1], xs[|xs| - 1];
      PositionsTagged(acc, m, front, k);
      PositionsOfMore(acc + TagPositions(m, front), (m, x.0, x.1), k);
      assert acc + TagPositions(m, xs) == acc + TagPositions(m, front) + [(m, x.0, x.1)];
      AppendEach(PositionsOf(acc, k), front, x, k == m);
      assert xs == front + [x];
    }
  }

  lemma LeverageOfMore(acc: seq<(MarketId, Account, nat)>, e: (MarketId, Account, nat), k: MarketId)
    ensures LeverageOf(acc + [e], k) == LeverageOf(acc, k) + if e.0 == k then [(e.1, e.2)] else []
  {
    assert (acc + [e])[..|acc|] == acc;
  }

  lemma {:induction false} LeverageTagged(acc: seq<(MarketId, Account, nat)>, m: MarketId, xs: seq<(Account, nat)>, k: MarketId)
    ensures LeverageOf(acc + TagLeverage(m, xs), k) == LeverageOf(acc, k) + if k == m then xs else []
  {
    if xs == [] {
      assert acc + [] == acc;
    } else {
      var front, x := xs[..|xs| - 1], xs[|xs| - 1];
      LeverageTagged(acc, m, front, k);
      LeverageOfMore(acc + TagLeverage(m, front), (m, x.0, x.1), k);
      assert acc + TagLeverage(m, xs) == acc + TagLeverage(m, front) + [(m, x.0, x.1)];
      AppendEach(LeverageOf(acc, k), front, x, k == m);
      assert xs == front + [x];
    }
  }

  lemma {:induction false} OrdersTagged(acc: seq<Order>, m: MarketId, xs: seq<Order>, k: MarketId)
    requires forall o :: o in xs ==> o.market == m
    ensures OrdersOf(acc + xs, k) == OrdersOf(acc, k) + if k == m then xs else []
  {
    if xs == [] {
      assert acc + [] == acc;
    } else {
      var front, x := xs[..|xs| - 1], xs[|xs| - 1];
      assert x in xs;
      OrdersTagged(acc, m, front, k);
      OrdersOfMore(acc + front, x, k);
      assert acc + xs == acc + front + [x];
      AppendEach(OrdersOf(acc, k), front, x, k == m);
      assert xs == front + [x];
    }
  }

  /** The lists hold the entries of market `m` if it is done, and none otherwise. */
  ghost predicate MarketSaved(st: EngineState, done: seq<MarketId>, snap: Snapshot, m: MarketId) {
    var s := SliceAt(st.slices, m);
    var p, l, o := PositionsOf(snap.positions, m), LeverageOf(snap.leverage, m), OrdersOf(snap.orders, m);
    if m in done then Enumerates(s.positions, p) && Enumerates(s.leverage, l) && ListsRecords(o, s.orders)
    else p == [] && l == [] && o == []
  }

  function SavedWith(snap: Snapshot, m: MarketId, p: seq<(Account, int)>, l: seq<(Account, nat)>, o: seq<Order>): Snapshot {
    snap.(positions := snap.positions + TagPositions(m, p), leverage := snap.leverage + TagLeverage(m, l),
          orders := snap.orders + o)
  }

  lemma SaveMore(st: EngineState, done: seq<MarketId>, snap: Snapshot, m: MarketId,
                 p: seq<(Account, int)>, l: seq<(Account, nat)>, o: seq<Order>, k: MarketId)
    requires MarketSaved(st, done, snap, k) && m !in done
    requires var s := SliceAt(st.slices, m); Enumerates(s.positions, p) && Enumerates(s.leverage, l) && ListsRecords(o, s.orders)
    requires forall x :: x in o ==> x.market == m
    ensures MarketSaved(st, done + [m], SavedWith(snap, m, p, l, o), k)
  {
    PositionsTagged(snap.positions, m, p, k);
    LeverageTagged(snap.leverage, m, l, k);
    OrdersTagged(snap.orders, m, o, k);
    if k == m {
      assert [] + p == p && [] + l == l && [] + o == o;
    } else {
      assert PositionsOf(snap.positions, k) + [] == PositionsOf(snap.positions, k);
      assert LeverageOf(snap.leverage, k) + [] == LeverageOf(snap.leverage, k);
      assert OrdersOf(snap.orders, k) + [] == OrdersOf(snap.orders, k);
    }
  }

  /** All markets, each once, in some order. */
  ghost predicate MarketList(st: EngineState, ms: seq<MarketId>) {
    && (forall i :: 0 <= i < |ms| ==> ms[i] in st.slices && ms[i] !in ms[..i])
    && (forall m :: m in st.slices ==> m in ms)
  }

  const NO_ENTRIES := Snapshot([], [], [], [], [], [], [], 0, 0)

  ghost predicate AllSaved(st: EngineState, done: seq<MarketId>, snap: Snapshot) {
    forall m: MarketId :: MarketSaved(st, done, snap, m)
  }

  lemma SaveStep(st: EngineState, done: seq<MarketId>, snap: Snapshot, m: MarketId,
                 p: seq<(Account, int)>, l: seq<(Account, nat)>, o: seq<Order>)
    requires AllSaved(st, done, snap) && m !in done
    requires var s := SliceAt(st.slices, m); Enumerates(s.positions, p) && Enumerates(s.leverage, l) && ListsRecords(o, s.orders)
    requires forall x :: x in o ==> x.market == m
    ensures AllSaved(st, done + [m], SavedWith(snap, m, p, l, o))
  {
    forall k: MarketId ensures MarketSaved(st, done + [m], SavedWith(snap, m, p, l, o), k) {
      SaveMore(st, done, snap, m, p, l, o, k);
    }
  }

  lemma NextMarket(st: EngineState, ms: seq<MarketId>, i: nat)
    requires MarketList(st, ms) && i < |ms|
    ensures ms[i] in st.slices && ms[i] !in ms[..i] && ms[..i + 1] == ms[..i] + [ms[i]]
  {
  }

  method SaveMarket(s: Slice) returns (p: seq<(Account, int)>, l: seq<(Account, nat)>, o: seq<Order>)
    requires Sound(s) && AtHome(s)
    ensures Enumerates(s.positions, p) && Enumerates(s.leverage, l) && ListsRecords(o, s.orders)
    ensures forall x :: x in o ==> x.market == s.id
  {
    p := ListMap(s.positions);
    l := ListMap(s.leverage);
    o := ListOrders(s.orders);
  }

  /** Positions, leverage and orders of every market. */
  method SaveMarkets(st: EngineState, ms: seq<MarketId>) returns (snap: Snapshot)
    requires SoundState(st) && (forall m :: m in st.slices ==> AtHome(st.slices[m])) && MarketList(st, ms)
    ensures AllSaved(st, ms, snap)
  {
    snap := NO_ENTRIES;
    for i := 0 to |ms|
      invariant AllSaved(st, ms[..i], snap)
    {
      NextMarket(st, ms, i);
      var p, l, o := SaveMarket(st.slices[ms[i]]);
      SaveStep(st, ms[..i], snap, ms[i], p, l, o);
      snap := SavedWith(snap, ms[i], p, l, o);
    }
    assert ms[..|ms|] == ms;
  }

  function TriggersIn(st: EngineState, m: MarketId, d: TriggerDirection): seq<Order> {
    Triggers.Flat(Triggers.Side(SliceAt(st.slices, m).triggers, d))
  }

  ghost predicate TriggersSavedAt(st: EngineState, done: seq<MarketId>, d: TriggerDirection, orders: seq<Order>, m: MarketId) {
    OrdersOf(orders, m) == if m in done then TriggersIn(st, m, d) else []
  }

  ghost predicate TriggersSaved(st: EngineState, done: seq<MarketId>, d: TriggerDirection, orders: seq<Order>) {
    forall m: MarketId :: TriggersSavedAt(st, done, d, orders, m)
  }

  lemma TriggersStepAt(st: EngineState, done: seq<MarketId>, d: TriggerDirection, orders: seq<Order>, m: MarketId,
                       more: seq<Order>, k: MarketId)
    requires TriggersSavedAt(st, done, d, orders, k) && m !in done
    requires more == TriggersIn(st, m, d) && forall o :: o in more ==> o.market == m
    ensures TriggersSavedAt(st, done + [m], d, orders + more, k)
  {
    OrdersTagged(orders, m, more, k);
    if k == m {
      assert [] + more == more;
    } else {
      assert OrdersOf(orders, k) + [] == OrdersOf(orders, k);
    }
  }

  lemma TriggersHome(st: EngineState, m: MarketId, d: TriggerDirection)
    requires m in st.slices && AtHome(st.slices[m]) && st.slices[m].id == m
    ensures forall o :: o in TriggersIn(st, m, d) ==> o.market == m
  {
  }

  lemma TriggersStep(st: EngineState, done: seq<MarketId>, d: TriggerDirection, orders: seq<Order>, m: MarketId)
    requires TriggersSaved(st, done, d, orders) && m !in done && (forall o :: o in TriggersIn(st, m, d) ==> o.market == m)
    ensures TriggersSaved(st, done + [m], d, orders + TriggersIn(st, m, d))
  {
    var more := TriggersIn(st, m, d);
    forall k: MarketId ensures TriggersSavedAt(st, done + [m], d, orders + more, k) {
      TriggersStepAt(st, done, d, orders, m, more, k);
    }
  }

  /** The triggers of one direction, market after market. */
  method SaveTriggers(st: EngineState, ms: seq<MarketId>, d: TriggerDirection) returns (orders: seq<Order>)
    requires SoundState(st) && (forall m :: m in st.slices ==> AtHome(st.slices[m])) && MarketList(st, ms)
    ensures TriggersSaved(st, ms, d, orders)
  {
    orders := [];
    for i := 0 to |ms|
      invariant TriggersSaved(st, ms[..i], d, orders)
    {
      NextMarket(st, ms, i);
      TriggersHome(st, ms[i], d);
      TriggersStep(st, ms[..i], d, orders, ms[i]);
      orders := orders + TriggersIn(st, ms[i], d);
    }
    assert ms[..|ms|] == ms;
  }

  ghost predicate InfosSaved(st: EngineState, done: seq<MarketId>, infos: seq<(MarketId, MarketInfo)>) {
    forall m: MarketId, info :: (m, info) in infos <==> m in done && SliceAt(st.slices, m).market == Some(info)
  }

  method SaveInfos(st: EngineState, ms: seq<MarketId>) returns (infos: seq<(MarketId, MarketInfo)>)
    requires MarketList(st, ms)
    ensures InfosSaved(st, ms, infos)
  {
    infos := [];
    for i := 0 to |ms|
      invariant InfosSaved(st, ms[..i], infos)
    {
      NextMarket(st, ms, i);
      if st.slices[ms[i]].market.Some? {
        infos := infos + [(ms[i], st.slices[ms[i]].market.value)];
      }
    }
    assert ms[..|ms|] == ms;
  }

  lemma {:induction false} OrdersOfSplit(a: seq<Order>, b: seq<Order>, m: MarketId)
    ensures OrdersOf(a + b, m) == OrdersOf(a, m) + OrdersOf(b, m)
  {
    if b == [] {
      assert a + b == a && OrdersOf(a, m) + [] == OrdersOf(a, m);
    } else {
      var front, o := b[..|b| - 1], b[|b| - 1];
      OrdersOfSplit(a, front, m);
      OrdersOfMore(a + front, o, m);
      assert a + b == a + front + [o];
      var last := if o.market == m then [o] else [];
      assert OrdersOf(a, m) + OrdersOf(front, m) + last == OrdersOf(a, m) + (OrdersOf(front, m) + last);
    }
  }

  lemma TriggersCaptured(st: EngineState, up: seq<Order>, above: seq<MarketId>, down: seq<Order>, below: seq<MarketId>,
                         m: MarketId)
    requires MarketList(st, above) && MarketList(st, below)
    requires TriggersSavedAt(st, above, Above, up, m) && TriggersSavedAt(st, below, Below, down, m)
    ensures OrdersOf(up + down, m) == Saved(SliceAt(st.slices, m).triggers)
  {
    OrdersOfSplit(up, down, m);
  }

  /** A market whose entries are all saved is captured; a market nobody knows has no entries. */
  lemma MarketCaptured(st: EngineState, snap: Snapshot, ms: seq<MarketId>, m: MarketId)
    requires MarketList(st, ms) && MarketSaved(st, ms, snap, m) && InfosSaved(st, ms, snap.markets)
    requires OrdersOf(snap.triggers, m) == Saved(SliceAt(st.slices, m).triggers)
    ensures Captures(snap, m, SliceAt(st.slices, m))
  {
  }

  /** Save everything. The three lists are the orders in which markets, upper triggers and lower triggers happen
      to be enumerated. */
  method TakeSnapshot(st: EngineState, ms: seq<MarketId>, above: seq<MarketId>, below: seq<MarketId>) returns (snap: Snapshot)
    requires SoundState(st) && (forall m :: m in st.slices ==> AtHome(st.slices[m]))
    requires MarketList(st, ms) && MarketList(st, above) && MarketList(st, below)
    ensures CapturesAll(st, snap)
  {
    var lists := SaveMarkets(st, ms);
    var accounts := ListMap(st.accounts);
    var modes := ListMap(st.modes);
    var infos := SaveInfos(st, ms);
    var up := SaveTriggers(st, above, Above);
    var down := SaveTriggers(st, below, Below);
    snap := lists.(accounts := accounts, modes := modes, markets := infos, triggers := up + down,
                   fund := st.fund, nextId := st.nextId);
    forall m: MarketId ensures Captures(snap, m, SliceAt(st.slices, m)) {
      assert MarketSaved(st, ms, lists, m);
      assert TriggersSavedAt(st, above, Above, up, m) && TriggersSavedAt(st, below, Below, down, m);
      TriggersCaptured(st, up, above, down, below, m);
      MarketCaptured(st, snap, ms, m);
    }
  }
}

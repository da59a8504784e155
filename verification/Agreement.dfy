/** The order records, the book and the per-account lists describe the same open orders. */
module Agreement {
  import opened Options
  import opened Orders
  import opened Books
  import opened Matching
  import opened Trading

  // ---- What matching does to each resting order, by id ----

  /** Matching drops `x` from the book as the taker's own order. */
  ghost predicate Drops(b: Book, o: Order, x: Order) {
    var q := Opposite(b, o.side);
    exists i :: 0 <= i < |q| && q[i] == x && Touched(o, q, i) && Own(o, x)
  }

  /** The taker meets an order of its own before it is done. */
  ghost predicate SelfMatches(b: Book, o: Order) {
    var q := Opposite(b, o.side);
    exists i :: 0 <= i < |q| && Touched(o, q, i) && Own(o, q[i])
  }

  /** `y` is `x` after a partial fill. */
  predicate PartOf(x: Order, y: Order) {
    y == x.(remaining := y.remaining, status := PartiallyFilled) && y.remaining < x.remaining
  }

  /** Untouched and unfilled, filled in part, filled in full, or dropped. */
  ghost predicate FateById(b: Book, o: Order, x: Order) {
    var fills := Matched(b, o).fills;
    var now := Get(AfterMatch(b, o), x.id);
    if Drops(b, o, x) then now == None && !HasFill(fills, x.id)
    else if HasFill(fills, x.id) then now == None || PartOf(x, now.value)
    else now == Some(x)
  }

  lemma SideFacts(b: Book, side: Side)
    requires WellFormed(b)
    ensures var q := Opposite(b, side); Positive(q) && Sorted(q) && OncePerId(q)
  {
    DistinctIds(b);
  }

  lemma NotAfter(b: Book, o: Order, x: Order)
    requires WellFormed(b) && 0 <= o.remaining && x in Opposite(b, o.side)
    requires !HasOrder(Matched(b, o).rest, x.id)
    ensures Get(AfterMatch(b, o), x.id) == None
  {
    var c := AfterMatch(b, o);
    AfterMatchKeeps(b, o);
    GetFinds(c, x.id);
    if Get(c, x.id).Some? {
      var y := Get(c, x.id).value;
      assert y !in Matched(b, o).rest;
      assert InBook(b, y) && InBook(b, x);
      SameIdSameOrder(b, x, y);
    }
  }

  lemma StillAfter(b: Book, o: Order, y: Order)
    requires WellFormed(b) && 0 <= o.remaining && InBook(AfterMatch(b, o), y)
    ensures Get(AfterMatch(b, o), y.id) == Some(y)
  {
    AfterMatchKeeps(b, o);
    GetFinds(AfterMatch(b, o), y.id);
  }

  lemma UniqueIndex(q: seq<Order>, i: nat, j: nat)
    requires OncePerId(q) && i < |q| && j < |q| && q[i] == q[j]
    ensures i == j
  {
  }

  lemma DropsAt(b: Book, o: Order, i: nat)
    requires WellFormed(b) && i < |Opposite(b, o.side)|
    ensures var q := Opposite(b, o.side); Drops(b, o, q[i]) <==> Touched(o, q, i) && Own(o, q[i])
  {
    var q := Opposite(b, o.side);
    SideFacts(b, o.side);
    if Drops(b, o, q[i]) {
      var j :| 0 <= j < |q| && q[j] == q[i] && Touched(o, q, j) && Own(o, q[i]);
      UniqueIndex(q, i, j);
    }
  }

  lemma OppositeFate(b: Book, o: Order, i: nat)
    requires WellFormed(b) && 0 <= o.remaining && i < |Opposite(b, o.side)|
    ensures FateById(b, o, Opposite(b, o.side)[i])
  {
    var q := Opposite(b, o.side);
    var x := q[i];
    var c := AfterMatch(b, o);
    assert x in q;
    SideFacts(b, o.side);
    WalkFate(o, q, i);
    DropsAt(b, o, i);
    var n := Allocation(o, q, i);
    if !Touched(o, q, i) {
      assert InBook(c, x);
      StillAfter(b, o, x);
    } else if Own(o, x) || n == x.remaining {
      NotAfter(b, o, x);
    } else {
      assert InBook(c, x.Fill(n));
      StillAfter(b, o, x.Fill(n));
    }
  }

  lemma SameSideFate(b: Book, o: Order, x: Order)
    requires WellFormed(b) && 0 <= o.remaining && InBook(b, x) && x !in Opposite(b, o.side)
    ensures FateById(b, o, x)
  {
    var q := Opposite(b, o.side);
    SideFacts(b, o.side);
    DistinctIds(b);
    assert !HasOrder(q, x.id);
    FillIds(o, q, x.id);
    assert InBook(AfterMatch(b, o), x);
    StillAfter(b, o, x);
  }

  /** Every resting order has exactly one of the four fates. */
  lemma MatchFate(b: Book, o: Order, x: Order)
    requires WellFormed(b) && 0 <= o.remaining && InBook(b, x)
    ensures FateById(b, o, x)
  {
    var q := Opposite(b, o.side);
    if x in q {
      var i :| 0 <= i < |q| && q[i] == x;
      OppositeFate(b, o, i);
    } else {
      SameSideFate(b, o, x);
    }
  }

  lemma DropsIffSelfMatches(b: Book, o: Order)
    ensures SelfMatches(b, o) <==> exists x :: InBook(b, x) && Drops(b, o, x)
  {
    var q := Opposite(b, o.side);
    if SelfMatches(b, o) {
      var i :| 0 <= i < |q| && Touched(o, q, i) && Own(o, q[i]);
      assert InBook(b, q[i]) && Drops(b, o, q[i]);
    }
  }

  // ---- Agreement ----

  /** The records are exactly the orders on the book. */
  ghost predicate RecordsAgree(orders: map<OrderId, Order>, b: Book) {
    && (forall id :: id in orders <==> id in b.index)
    && (forall id :: id in orders ==> Get(b, id) == Some(orders[id]))
  }

  ghost predicate NoRepeats(ids: seq<OrderId>) { forall i, j :: 0 <= i < j < |ids| ==> ids[i] != ids[j] }

  /** Each account's list names exactly its own open orders, each once. */
  ghost predicate AccountsAgree(orders: map<OrderId, Order>, index: map<Account, seq<OrderId>>) {
    && (forall a, id :: id in Listed(index, a) <==> id in orders && orders[id].owner == a)
    && (forall a :: NoRepeats(Listed(index, a)))
  }

  ghost predicate Agree(s: Slice) { RecordsAgree(s.orders, s.book) && AccountsAgree(s.orders, s.accountOrders) }

  lemma {:induction false} RetainMembers(ids: seq<OrderId>, drop: set<OrderId>)
    ensures forall id :: id in Retain(ids, drop) <==> id in ids && id !in drop
    ensures NoRepeats(ids) ==> NoRepeats(Retain(ids, drop))
  {
    if ids != [] {
      RetainMembers(ids[1..], drop);
      var r := Retain(ids[1..], drop);
      assert forall j :: 0 <= j < |r| ==> r[j] in r;
      assert NoRepeats(ids) ==> NoRepeats(ids[1..]);
    }
  }

  lemma MakerIdsHasFill(fills: seq<Fill>, id: OrderId)
    ensures id in MakerIds(fills) <==> HasFill(fills, id)
  {
  }

  /** Book `d` is what matching left, plus possibly the taker. */
  ghost predicate Carries(c: Book, d: Book, taker: Order) {
    forall id :: id != taker.id ==> Get(d, id) == Get(c, id)
  }

  lemma ProcessCarries(b: Book, o: Order)
    requires WellFormed(b) && 0 < o.price && 0 <= o.remaining && o.id !in b.index
    ensures Carries(AfterMatch(b, o), Process(b, o).book, o)
    ensures Get(Process(b, o).book, o.id) == if Resting(o, Matched(b, o)) then Some(Matched(b, o).taker) else None
  {
    var c, d := AfterMatch(b, o), Process(b, o).book;
    AfterMatchKeeps(b, o);
    ProcessKeeps(b, o);
    TakerKeeps(b, o);
    forall id | id != o.id ensures Get(d, id) == Get(c, id) {
      GetFinds(c, id);
      GetFinds(d, id);
    }
    GetFinds(c, o.id);
    GetFinds(d, o.id);
  }

  /** One record after synchronisation. */
  lemma SyncedRecord(s: Slice, o: Order, id: OrderId)
    requires WellFormed(s.book) && RecordsAgree(s.orders, s.book)
    requires 0 < o.price && 0 <= o.remaining && o.id !in s.book.index && id in s.orders
    ensures var x := s.orders[id]; var fills := Matched(s.book, o).fills;
      var d := Process(s.book, o).book; var r := SyncedOrders(s.orders, d, fills);
      && InBook(s.book, x) && x.id == id
      && (Drops(s.book, o, x) ==> id in r && Get(d, id) == None)
      && (!Drops(s.book, o, x) ==> (id in r <==> Get(d, id).Some?) && (id in r ==> Get(d, id) == Some(r[id])))
      && (HasFill(fills, id) ==> Get(d, id) != Some(x))
  {
    var x := s.orders[id];
    GetFinds(s.book, id);
    MatchFate(s.book, o, x);
    ProcessCarries(s.book, o);
    MakerIdsHasFill(Matched(s.book, o).fills, id);
  }

  /** Synchronising the records with the book restores agreement exactly when nothing was dropped. */
  lemma SyncedAgree(s: Slice, o: Order)
    requires WellFormed(s.book) && RecordsAgree(s.orders, s.book)
    requires 0 < o.price && 0 <= o.remaining && o.id !in s.book.index
    ensures var fills := Matched(s.book, o).fills; var d := Process(s.book, o).book;
      var r := SyncedOrders(s.orders, d, fills);
      && o.id !in r
      && (SelfMatches(s.book, o) ==> exists id :: id in r && Get(d, id) == None)
      && (!SelfMatches(s.book, o) ==> forall id :: id != o.id ==>
            (id in r <==> Get(d, id).Some?) && (id in r ==> Get(d, id) == Some(r[id])))
  {
    var fills := Matched(s.book, o).fills;
    var d := Process(s.book, o).book;
    var r := SyncedOrders(s.orders, d, fills);
    DropsIffSelfMatches(s.book, o);
    if SelfMatches(s.book, o) {
      var x :| InBook(s.book, x) && Drops(s.book, o, x);
      GetFinds(s.book, x.id);
      SyncedRecord(s, o, x.id);
      assert x.id in r && Get(d, x.id) == None;
    } else {
      forall id | id != o.id
        ensures (id in r <==> Get(d, id).Some?) && (id in r ==> Get(d, id) == Some(r[id]))
      {
        if id in s.orders {
          SyncedRecord(s, o, id);
        } else {
          ProcessCarries(s.book, o);
          NotBefore(s.book, o, id);
        }
      }
    }
  }

  lemma NotBefore(b: Book, o: Order, id: OrderId)
    requires WellFormed(b) && 0 <= o.remaining && id !in b.index
    ensures Get(AfterMatch(b, o), id) == None
  {
    AfterMatchKeeps(b, o);
    GetFinds(AfterMatch(b, o), id);
  }

  /** Account lists after synchronisation follow the records. */
  lemma SyncedAccounts(s: Slice, fills: seq<Fill>)
    requires AccountsAgree(s.orders, s.accountOrders)
    ensures AccountsAgree(Sync(s, fills).orders, Sync(s, fills).accountOrders)
  {
    var t := Sync(s, fills);
    var gone := Spent(s.book, fills);
    forall a
      ensures NoRepeats(Listed(t.accountOrders, a))
      ensures forall id :: id in Listed(t.accountOrders, a) <==> id in t.orders && t.orders[id].owner == a
    {
      RetainMembers(Listed(s.accountOrders, a), OwnedBy(s.orders, gone, a));
      assert NoRepeats(Listed(s.accountOrders, a));
      forall id ensures id in Listed(t.accountOrders, a) <==> id in t.orders && t.orders[id].owner == a {
        assert id in Listed(s.accountOrders, a) <==> id in s.orders && s.orders[id].owner == a;
      }
    }
  }

  lemma AddAccounts(orders: map<OrderId, Order>, index: map<Account, seq<OrderId>>, o: Order)
    requires AccountsAgree(orders, index) && o.id !in orders
    ensures AccountsAgree(orders[o.id := o], index[o.owner := Listed(index, o.owner) + [o.id]])
  {
    var r := orders[o.id := o];
    var j := index[o.owner := Listed(index, o.owner) + [o.id]];
    forall a
      ensures NoRepeats(Listed(j, a))
      ensures forall id :: id in Listed(j, a) <==> id in r && r[id].owner == a
    {
      assert NoRepeats(Listed(index, a));
      assert o.id !in Listed(index, a);
      forall id ensures id in Listed(j, a) <==> id in r && r[id].owner == a {
        assert id in Listed(index, a) <==> id in orders && orders[id].owner == a;
      }
    }
  }

  /** Adding a resting taker keeps agreement; the second insertion into the book is idempotent. */
  lemma AddResting(s: Slice, o: Order)
    requires WellFormed(s.book) && Get(s.book, o.id) == Some(o) && o.id !in s.orders
    requires forall id :: id != o.id ==>
      (id in s.orders <==> Get(s.book, id).Some?) && (id in s.orders ==> Get(s.book, id) == Some(s.orders[id]))
    ensures AddOrder(s, o).book == s.book && RecordsAgree(AddOrder(s, o).orders, s.book)
  {
    GetFinds(s.book, o.id);
    InsertIdempotent(s.book, o);
    forall id ensures Get(s.book, id).Some? <==> id in s.book.index { GetFinds(s.book, id); }
  }

  ghost predicate Ready(s: Slice, o: Order) {
    && s.market.Some? && WellFormed(s.book)
    && 0 < o.price && 0 < o.remaining && o.id !in s.book.index && o.id !in s.orders
  }

  /** The records, book and account lists after the engine absorbed an accepted outcome. */
  lemma AbsorbShape(s: Slice, p: Outcome, fills: seq<Fill>, rests: bool, taker: Order)
    requires s.market.Some? && p.result.Ok? && p.result.value.1 == fills
    requires rests <==> p.result.value.0.remaining != 0 && p.result.value.0.ShouldRest()
    requires rests ==> p.result.value.0 == taker
    ensures var t := Sync(s.(book := p.book), fills); var u := Absorb(s, p).slice;
      var v := if rests then AddOrder(t, taker) else t;
      u.book == v.book && u.orders == v.orders && u.accountOrders == v.accountOrders
    ensures var w := ApplyFills(Sync(s.(book := p.book), fills), fills); var u := Absorb(s, p).slice;
      u.market == w.market && u.positions == w.positions && u.triggers == w.triggers
  {
    ApplyFillsFrame(Sync(s.(book := p.book), fills), fills);
  }

  lemma ExecuteShape(s: Slice, o: Order)
    requires Ready(s, o)
    ensures var p := Process(s.book, o); var x := Execute(s, o); var fills := Matched(s.book, o).fills;
      && x.result == p.result
      && (p.result.Err? ==> x.slice == s.(book := p.book))
      && (p.result.Ok? ==>
            var t := Sync(s.(book := p.book), fills); var u := x.slice;
            var v := if Resting(o, Matched(s.book, o)) then AddOrder(t, Matched(s.book, o).taker) else t;
            var w := ApplyFills(t, fills);
            && u.book == v.book && u.orders == v.orders && u.accountOrders == v.accountOrders
            && u.market == w.market && u.positions == w.positions && u.triggers == w.triggers)
  {
    ProcessResult(s.book, o);
    if Process(s.book, o).result.Ok? {
      ProcessRests(s.book, o);
      AbsorbShape(s, Process(s.book, o), Matched(s.book, o).fills,
                  Resting(o, Matched(s.book, o)), Matched(s.book, o).taker);
    }
  }

  lemma RestsOnBook(b: Book, o: Order)
    requires WellFormed(b) && 0 < o.price && 0 <= o.remaining && o.id !in b.index && Resting(o, Matched(b, o))
    ensures Insert(Process(b, o).book, Matched(b, o).taker) == Process(b, o).book
  {
    ProcessKeeps(b, o);
    InsertIdempotent(Process(b, o).book, Matched(b, o).taker);
  }

  /** The book and the records after executing an order. */
  lemma ExecuteParts(s: Slice, o: Order)
    requires Ready(s, o)
    ensures var p := Process(s.book, o); var u := Execute(s, o).slice; var taker := Matched(s.book, o).taker;
      && u.book == p.book && taker.id == o.id
      && u.orders ==
           if p.result.Err? then s.orders
           else var t := SyncedOrders(s.orders, p.book, Matched(s.book, o).fills);
                if Resting(o, Matched(s.book, o)) then t[o.id := taker] else t
  {
    ExecuteShape(s, o);
    TakerKeeps(s.book, o);
    if Process(s.book, o).result.Ok? && Resting(o, Matched(s.book, o)) {
      RestsOnBook(s.book, o);
    }
  }

  /** An accepted order without self-match keeps records, book and account lists in agreement. */
  lemma ExecuteAgrees(s: Slice, o: Order)
    requires Ready(s, o) && Agree(s) && !SelfMatches(s.book, o) && Process(s.book, o).result.Ok?
    ensures Agree(Execute(s, o).slice)
  {
    var fills := Matched(s.book, o).fills;
    var taker := Matched(s.book, o).taker;
    var d := Process(s.book, o).book;
    var t := Sync(s.(book := d), fills);
    ExecuteShape(s, o);
    SyncedAgree(s, o);
    SyncedAccounts(s.(book := d), fills);
    ProcessKeeps(s.book, o);
    ProcessCarries(s.book, o);
    TakerKeeps(s.book, o);
    if Resting(o, Matched(s.book, o)) {
      AddResting(t, taker);
      AddAccounts(t.orders, t.accountOrders, taker);
    } else {
      forall id ensures Get(d, id).Some? <==> id in d.index { GetFinds(d, id); }
    }
  }

  /** A rejection after fills leaves the records behind the book. */
  lemma RejectedDisagrees(s: Slice, o: Order)
    requires Ready(s, o) && Agree(s) && Process(s.book, o).result.Err?
    ensures !Agree(Execute(s, o).slice)
  {
    var fills := Matched(s.book, o).fills;
    ExecuteShape(s, o);
    ProcessResult(s.book, o);
    var f := fills[0];
    assert f in fills && HasFill(fills, f.makerOrderId);
    SideFacts(s.book, o.side);
    WalkFills(o, Opposite(s.book, o.side));
    assert FillsSome(o, f, Opposite(s.book, o.side));
    var x :| x in Opposite(s.book, o.side) && FillsOrder(o, f, x);
    assert InBook(s.book, x);
    GetFinds(s.book, x.id);
    SyncedRecord(s, o, x.id);
  }

  lemma SelfMatchDisagrees(s: Slice, o: Order)
    requires Ready(s, o) && Agree(s) && SelfMatches(s.book, o) && Process(s.book, o).result.Ok?
    ensures !Agree(Execute(s, o).slice)
  {
    var d := Process(s.book, o).book;
    var r := SyncedOrders(s.orders, d, Matched(s.book, o).fills);
    ExecuteShape(s, o);
    SyncedAgree(s, o);
    var id :| id in r && Get(d, id) == None;
    var t := Execute(s, o).slice;
    assert id in t.orders;
    TakerKeeps(s.book, o);
    ProcessKeeps(s.book, o);
    ProcessCarries(s.book, o);
    if Resting(o, Matched(s.book, o)) {
      GetFinds(d, o.id);
      InsertIdempotent(d, Matched(s.book, o).taker);
    }
    assert t.book == d;
    assert Get(t.book, id) == None;
  }

  /** Executing an order keeps the three structures in agreement exactly when the order meets none
      of its own resting orders and is not rejected after a partial fill. */
  lemma ExecuteAgreesIff(s: Slice, o: Order)
    requires Ready(s, o) && Agree(s)
    ensures Agree(Execute(s, o).slice) <==>
      !SelfMatches(s.book, o) &&
      !((o.PostOnly() || o.FillOrKill()) &&
        0 < Offered(o, Opposite(s.book, o.side)[..Reach(o, Opposite(s.book, o.side))]) < o.remaining)
  {
    TimeInForceOutcomes(s.book, o);
    if Process(s.book, o).result.Err? {
      RejectedDisagrees(s, o);
    } else if SelfMatches(s.book, o) {
      SelfMatchDisagrees(s, o);
    } else {
      ExecuteAgrees(s, o);
    }
  }

  // ---- Cancelling ----

  lemma RemoveRecords(s: Slice, id: OrderId)
    requires WellFormed(s.book) && RecordsAgree(s.orders, s.book)
    ensures WellFormed(Remove(s.book, id)) && RecordsAgree(s.orders - {id}, Remove(s.book, id))
  {
    var b := Remove(s.book, id);
    RemoveKeeps(s.book, id);
    forall i | i in s.orders - {id} ensures Get(b, i) == Some(s.orders[i]) {
      GetFinds(s.book, i);
      GetFinds(b, i);
    }
  }

  lemma RemoveAccounts(orders: map<OrderId, Order>, index: map<Account, seq<OrderId>>, id: OrderId)
    requires AccountsAgree(orders, index) && id in orders && orders[id].owner in index
    ensures var a := orders[id].owner; AccountsAgree(orders - {id}, index[a := Retain(index[a], {id})])
  {
    var a := orders[id].owner;
    var r := orders - {id};
    var j := index[a := Retain(index[a], {id})];
    RetainMembers(index[a], {id});
    assert NoRepeats(Listed(index, a));
    forall x ensures NoRepeats(Listed(j, x)) { assert NoRepeats(Listed(index, x)); }
    forall x, i ensures i in Listed(j, x) <==> i in r && r[i].owner == x {
      assert i in Listed(index, x) <==> i in orders && orders[i].owner == x;
      assert id in Listed(index, x) <==> x == a;
    }
  }

  /** Removing a recorded order keeps agreement and takes out exactly that order. */
  lemma RemoveAgrees(s: Slice, id: OrderId)
    requires WellFormed(s.book) && Agree(s)
    ensures Agree(RemoveOrder(s, id)) && WellFormed(RemoveOrder(s, id).book)
    ensures RemoveOrder(s, id).orders == s.orders - {id}
  {
    if id in s.orders {
      assert id in Listed(s.accountOrders, s.orders[id].owner);
      RemoveRecords(s, id);
      RemoveAccounts(s.orders, s.accountOrders, id);
    } else {
      assert s.orders - {id} == s.orders;
    }
  }

  // ---- What no order can break ----

  /** The order is on record, the same but for size and status, and the record's size is at least its own. */
  ghost predicate OnRecord(orders: map<OrderId, Order>, o: Order) {
    && o.id in orders && o.remaining <= orders[o.id].remaining
    && orders[o.id] == o.(remaining := orders[o.id].remaining, status := orders[o.id].status)
  }

  /** Everything on the book is on record, in a size no larger than the record says. */
  ghost predicate Covered(orders: map<OrderId, Order>, b: Book) { forall o :: InBook(b, o) ==> OnRecord(orders, o) }

  /** Every record is kept under its own id, at a positive price and with something left of it. */
  ghost predicate RecordsKept(orders: map<OrderId, Order>) {
    forall id :: id in orders ==> orders[id].id == id && 0 < orders[id].price && 0 < orders[id].remaining
  }

  lemma AgreeCovers(s: Slice)
    requires WellFormed(s.book) && RecordsAgree(s.orders, s.book)
    ensures Covered(s.orders, s.book)
  {
    forall o | InBook(s.book, o) ensures OnRecord(s.orders, o) { GetFinds(s.book, o.id); }
  }

  /** An order that is still on the book after matching is covered by its record, synchronised or not. */
  lemma StillCovered(s: Slice, o: Order, y: Order)
    requires Ready(s, o) && Covered(s.orders, s.book) && InBook(AfterMatch(s.book, o), y)
    ensures OnRecord(s.orders, y) && y.id in s.book.index
    ensures OnRecord(SyncedOrders(s.orders, Process(s.book, o).book, Matched(s.book, o).fills), y)
  {
    var was := AfterMatchOrigin(s.book, o, y);
    assert OnRecord(s.orders, was);
    ProcessKeeps(s.book, o);
    GetFinds(Process(s.book, o).book, y.id);
  }

  lemma ExecuteAccounts(s: Slice, o: Order)
    requires Ready(s, o) && AccountsAgree(s.orders, s.accountOrders)
    ensures AccountsAgree(Execute(s, o).slice.orders, Execute(s, o).slice.accountOrders)
  {
    ExecuteShape(s, o);
    if Process(s.book, o).result.Ok? {
      var t := Sync(s.(book := Process(s.book, o).book), Matched(s.book, o).fills);
      SyncedAccounts(s.(book := Process(s.book, o).book), Matched(s.book, o).fills);
      TakerKeeps(s.book, o);
      if Resting(o, Matched(s.book, o)) { AddAccounts(t.orders, t.accountOrders, Matched(s.book, o).taker); }
    }
  }

  /** The order itself is on record if it rests, and rests only if it is accepted. */
  lemma ExecuteCovers(s: Slice, o: Order)
    requires Ready(s, o) && Covered(s.orders, s.book)
    ensures Covered(Execute(s, o).slice.orders, Execute(s, o).slice.book)
  {
    ExecuteParts(s, o);
    ProcessKeeps(s.book, o);
    ProcessResult(s.book, o);
    forall y | InBook(Process(s.book, o).book, y) ensures OnRecord(Execute(s, o).slice.orders, y) {
      if InBook(AfterMatch(s.book, o), y) { StillCovered(s, o, y); }
    }
  }

  lemma SyncedKept(orders: map<OrderId, Order>, b: Book, fills: seq<Fill>)
    requires WellFormed(b) && RecordsKept(orders)
    ensures RecordsKept(SyncedOrders(orders, b, fills))
  {
    forall id | Get(b, id).Some? ensures 0 < Get(b, id).value.remaining { GetFinds(b, id); }
  }

  lemma ExecuteRecords(s: Slice, o: Order)
    requires Ready(s, o) && RecordsKept(s.orders)
    ensures RecordsKept(Execute(s, o).slice.orders)
  {
    ExecuteParts(s, o);
    ProcessKeeps(s.book, o);
    TakerKeeps(s.book, o);
    SyncedKept(s.orders, Process(s.book, o).book, Matched(s.book, o).fills);
  }

  /** Through any order, one that meets its own or is rejected included, account lists name exactly the records of
      their accounts, the book stays covered by the records, and records stay under their ids. */
  lemma ExecuteLoose(s: Slice, o: Order)
    requires Ready(s, o) && AccountsAgree(s.orders, s.accountOrders) && Covered(s.orders, s.book) && RecordsKept(s.orders)
    ensures var u := Execute(s, o).slice;
      AccountsAgree(u.orders, u.accountOrders) && Covered(u.orders, u.book) && RecordsKept(u.orders)
  {
    ExecuteAccounts(s, o);
    ExecuteCovers(s, o);
    ExecuteRecords(s, o);
  }

  /** Removing a record takes out exactly that record and that order, whatever the book holds otherwise. */
  lemma RemoveLoose(s: Slice, id: OrderId)
    requires WellFormed(s.book) && AccountsAgree(s.orders, s.accountOrders)
    ensures var t := RemoveOrder(s, id);
      && AccountsAgree(t.orders, t.accountOrders) && t.orders == s.orders - {id} && WellFormed(t.book)
      && (Covered(s.orders, s.book) ==> Covered(t.orders, t.book))
      && (Covered(s.orders, s.book) ==> forall x :: InBook(t.book, x) <==> InBook(s.book, x) && x.id != id)
  {
    RemoveKeeps(s.book, id);
    if id in s.orders {
      assert id in Listed(s.accountOrders, s.orders[id].owner);
      RemoveAccounts(s.orders, s.accountOrders, id);
    } else {
      assert s.orders - {id} == s.orders;
    }
  }
}

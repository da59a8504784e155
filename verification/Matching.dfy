/** The matching loop: an incoming order consumes the opposite side of the book. */
module Matching {
  import opened Options
  import opened Orders
  import opened Books

  // ---- Specification: walk the opposite side in priority order ----

  predicate Crosses(t: Order, r: Order) { if t.side == Buy then r.price <= t.price else r.price >= t.price }

  predicate Own(t: Order, r: Order) { r.owner == t.owner }

  function MakeFill(t: Order, r: Order, size: int): Fill {
    Fill(t.market, r.owner, t.owner, r.id, t.id, r.price, size, t.side == Buy)
  }

  datatype WalkResult = WalkResult(taker: Order, rest: seq<Order>, fills: seq<Fill>)

  function Walk(t: Order, q: seq<Order>): WalkResult
    decreases q
  {
    if t.remaining == 0 || q == [] || !Crosses(t, q[0]) then WalkResult(t, q, [])
    else if Own(t, q[0]) then Walk(t, q[1..])
    else
      var size := Min(t.remaining, q[0].remaining);
      var fill := MakeFill(t, q[0], size);
      if size == q[0].remaining then
        var w := Walk(t.Fill(size), q[1..]);
        w.(fills := [fill] + w.fills)
      else
        WalkResult(t.Fill(size), [q[0].Fill(size)] + q[1..], [fill])
  }

  // ---- Closed form: every allocation computed from the untouched book ----

  /** Size offered to the taker by others. */
  function Offered(t: Order, q: seq<Order>): int {
    if q == [] then 0
    else (if Own(t, q[0]) then 0 else q[0].remaining) + Offered(t, q[1..])
  }

  /** Number of leading orders that the taker's price reaches. */
  function Reach(t: Order, q: seq<Order>): (n: nat)
    ensures n <= |q|
  {
    if q == [] || !Crosses(t, q[0]) then 0 else 1 + Reach(t, q[1..])
  }

  /** The taker comes to order `i`: it is in reach and better orders do not satisfy the demand. */
  predicate Touched(t: Order, q: seq<Order>, i: nat)
    requires i < |q|
  {
    i < Reach(t, q) && Offered(t, q[..i]) < t.remaining
  }

  /** What order `i` gives: what the better offers leave of the demand, at most its own size. */
  function Allocation(t: Order, q: seq<Order>, i: nat): int
    requires i < |q|
  {
    if !Touched(t, q, i) || Own(t, q[i]) then 0
    else Min(t.remaining - Offered(t, q[..i]), q[i].remaining)
  }

  /** What is left of order `i`: untouched, partly filled, or gone. */
  function Leftover(t: Order, q: seq<Order>, i: nat): seq<Order>
    requires i < |q|
  {
    if !Touched(t, q, i) then [q[i]]
    else if Own(t, q[i]) || Allocation(t, q, i) == q[i].remaining then []
    else [q[i].Fill(Allocation(t, q, i))]
  }

  function AllFills(t: Order, q: seq<Order>, i: nat): seq<Fill>
    requires i <= |q|
    decreases |q| - i
  {
    if i == |q| then []
    else (if Allocation(t, q, i) > 0 then [MakeFill(t, q[i], Allocation(t, q, i))] else []) + AllFills(t, q, i + 1)
  }

  function AllLeft(t: Order, q: seq<Order>, i: nat): seq<Order>
    requires i <= |q|
    decreases |q| - i
  {
    if i == |q| then [] else Leftover(t, q, i) + AllLeft(t, q, i + 1)
  }

  ghost predicate Positive(q: seq<Order>) { forall o :: o in q ==> 0 < o.remaining }

  lemma OfferedNonNegative(t: Order, q: seq<Order>)
    requires Positive(q)
    ensures Offered(t, q) >= 0
  {
    if q != [] {
      assert q[0] in q;
      assert forall o :: o in q[1..] ==> o in q;
      OfferedNonNegative(t, q[1..]);
    }
  }

  /** After the taker has dealt with the head of the queue, the remaining queue sees the
      same allocations as before. */
  lemma AllocationShift(t: Order, t': Order, q: seq<Order>, i: nat)
    requires Positive(q) && 0 <= t.remaining && i + 1 < |q| && Crosses(t, q[0])
    requires t' == (if Own(t, q[0]) then t else t.Fill(Min(t.remaining, q[0].remaining)))
    ensures Touched(t, q, i + 1) == Touched(t', q[1..], i)
    ensures Allocation(t, q, i + 1) == Allocation(t', q[1..], i)
    ensures Leftover(t, q, i + 1) == Leftover(t', q[1..], i)
  {
    assert q[0] in q;
    assert q[..i + 1][0] == q[0] && q[..i + 1][1..] == q[1..][..i];
    assert forall o :: o in q[1..][..i] ==> o in q;
    OfferedNonNegative(t, q[1..][..i]);
    ReachIgnoresSize(t, t', q[1..]);
    OfferedIgnoresSize(t, t', q[1..][..i]);
  }

  lemma ReachIgnoresSize(t: Order, t': Order, q: seq<Order>)
    requires t.side == t'.side && t.price == t'.price
    ensures Reach(t, q) == Reach(t', q)
  {
  }

  lemma OfferedIgnoresSize(t: Order, t': Order, q: seq<Order>)
    requires t.owner == t'.owner
    ensures Offered(t, q) == Offered(t', q)
  {
  }

  lemma {:induction false} ShiftAll(t: Order, t': Order, q: seq<Order>, i: nat)
    requires Positive(q) && 0 <= t.remaining && i < |q| && Crosses(t, q[0])
    requires t' == (if Own(t, q[0]) then t else t.Fill(Min(t.remaining, q[0].remaining)))
    ensures AllFills(t, q, i + 1) == AllFills(t', q[1..], i)
    ensures AllLeft(t, q, i + 1) == AllLeft(t', q[1..], i)
    decreases |q| - i
  {
    if i + 1 < |q| {
      AllocationShift(t, t', q, i);
      ShiftAll(t, t', q, i + 1);
    }
  }

  /** With no demand or no crossing head nothing is touched. */
  lemma {:induction false} NothingTouched(t: Order, q: seq<Order>, i: nat)
    requires Positive(q) && 0 <= t.remaining && i <= |q|
    requires t.remaining == 0 || Reach(t, q) == 0
    ensures AllFills(t, q, i) == [] && AllLeft(t, q, i) == q[i..]
    decreases |q| - i
  {
    if i < |q| {
      assert forall o :: o in q[..i] ==> o in q;
      OfferedNonNegative(t, q[..i]);
      NothingTouched(t, q, i + 1);
      assert q[i..] == [q[i]] + q[i + 1..];
    }
  }

  /** The taker after the head of the queue has been dealt with. */
  function After(t: Order, r: Order): Order {
    if Own(t, r) then t else t.Fill(Min(t.remaining, r.remaining))
  }

  predicate Stops(t: Order, q: seq<Order>) { t.remaining == 0 || q == [] || !Crosses(t, q[0]) }

  /** The head outlasts the taker. */
  predicate Outlasts(t: Order, r: Order) { !Own(t, r) && t.remaining < r.remaining }

  function HeadFill(t: Order, r: Order): seq<Fill> {
    if Own(t, r) then [] else [MakeFill(t, r, Min(t.remaining, r.remaining))]
  }

  lemma WalkPops(t: Order, q: seq<Order>)
    requires !Stops(t, q) && !Outlasts(t, q[0])
    ensures var w := Walk(After(t, q[0]), q[1..]);
      Walk(t, q) == WalkResult(w.taker, w.rest, HeadFill(t, q[0]) + w.fills)
  {
  }

  lemma AllocationHead(t: Order, q: seq<Order>)
    requires Positive(q) && 0 <= t.remaining && !Stops(t, q)
    ensures AllFills(t, q, 0) == HeadFill(t, q[0]) + AllFills(After(t, q[0]), q[1..], 0)
    ensures AllLeft(t, q, 0) ==
      (if Outlasts(t, q[0]) then [q[0].Fill(t.remaining)] else []) + AllLeft(After(t, q[0]), q[1..], 0)
  {
    assert q[0] in q && q[..0] == [];
    ShiftAll(t, After(t, q[0]), q, 0);
  }

  lemma ResidualHead(t: Order, q: seq<Order>)
    requires Positive(q) && 0 <= t.remaining && !Stops(t, q)
    ensures var t' := After(t, q[0]); var n := Reach(t, q); var m := Reach(t', q[1..]);
      t.remaining - Min(t.remaining, Offered(t, q[..n])) ==
      t'.remaining - Min(t'.remaining, Offered(t', q[1..][..m]))
  {
    var t' := After(t, q[0]);
    var m := Reach(t, q[1..]);
    assert q[0] in q;
    assert q[..m + 1][0] == q[0] && q[..m + 1][1..] == q[1..][..m];
    ReachIgnoresSize(t, t', q[1..]);
    OfferedIgnoresSize(t, t', q[1..][..m]);
    assert forall o :: o in q[1..][..m] ==> o in q;
    OfferedNonNegative(t, q[1..][..m]);
  }

  /** The sequential walk realises the closed-form allocation: for every queue, each order gives
      exactly what the better offers leave of the demand, at its own price, and nothing else moves. */
  lemma {:induction false} WalkIsAllocation(t: Order, q: seq<Order>)
    requires Positive(q) && 0 <= t.remaining
    ensures Walk(t, q).fills == AllFills(t, q, 0)
    ensures Walk(t, q).rest == AllLeft(t, q, 0)
    ensures Walk(t, q).taker.remaining == t.remaining - Min(t.remaining, Offered(t, q[..Reach(t, q)]))
    decreases q
  {
    if Stops(t, q) {
      assert forall o :: o in q[..Reach(t, q)] ==> o in q;
      OfferedNonNegative(t, q[..Reach(t, q)]);
      NothingTouched(t, q, 0);
    } else {
      var t' := After(t, q[0]);
      assert q[0] in q;
      assert forall o :: o in q[1..] ==> o in q;
      AllocationHead(t, q);
      ResidualHead(t, q);
      if Outlasts(t, q[0]) {
        NothingTouched(t', q[1..], 0);
        assert forall o :: o in q[1..][..Reach(t', q[1..])] ==> o in q;
        OfferedNonNegative(t', q[1..][..Reach(t', q[1..])]);
      } else {
        WalkPops(t, q);
        WalkIsAllocation(t', q[1..]);
      }
    }
  }

  // ---- Conservation, priority and uniqueness ----

  function TotalSize(fills: seq<Fill>): int {
    if fills == [] then 0 else fills[0].size + TotalSize(fills[1..])
  }

  /** What the taker loses, what others lose and what the fills report are one number. */
  lemma {:induction false} WalkConserves(t: Order, q: seq<Order>)
    requires Positive(q) && 0 <= t.remaining
    ensures var w := Walk(t, q);
      && t.remaining - w.taker.remaining == TotalSize(w.fills)
      && Offered(t, q) - Offered(t, w.rest) == TotalSize(w.fills)
      && 0 <= w.taker.remaining
      && w.taker == t.(remaining := w.taker.remaining, status := w.taker.status)
      && (w.fills == [] ==> w.taker == t)
      && (forall i :: 0 <= i < |w.fills| ==> 0 < w.fills[i].size)
    decreases q
  {
    if t.remaining == 0 || q == [] || !Crosses(t, q[0]) {
    } else {
      assert q[0] in q;
      assert forall o :: o in q[1..] ==> o in q;
      var size := Min(t.remaining, q[0].remaining);
      if Own(t, q[0]) {
        WalkConserves(t, q[1..]);
      } else if size == q[0].remaining {
        var t' := t.Fill(size);
        WalkConserves(t', q[1..]);
        var w := Walk(t', q[1..]);
        OfferedIgnoresSize(t, t', q[1..]);
        OfferedIgnoresSize(t, t', w.rest);
        var fills := Walk(t, q).fills;
        assert fills[1..] == w.fills;
      } else {
        var fills := Walk(t, q).fills;
        assert fills[1..] == [];
        var rest := Walk(t, q).rest;
        assert rest[1..] == q[1..];
      }
    }
  }

  /** `r` is `o`, untouched or partly filled by somebody else and still positive. */
  predicate Remains(t: Order, r: Order, o: Order) {
    r == o || (!Own(t, o) && 0 < r.remaining < o.remaining && r == o.Fill(o.remaining - r.remaining))
  }

  /** Every order left over stood in the queue, at the same key, untouched or partly filled. */
  lemma {:induction false} WalkRest(t: Order, q: seq<Order>)
    requires Positive(q) && Sorted(q) && 0 <= t.remaining
    ensures Sorted(Walk(t, q).rest) && Positive(Walk(t, q).rest)
    ensures forall r :: r in Walk(t, q).rest ==> exists o :: o in q && Remains(t, r, o)
    decreases q
  {
    if Stops(t, q) {
      assert forall r :: r in q ==> Remains(t, r, r);
    } else if Outlasts(t, q[0]) {
      assert q[0] in q;
      var head := q[0].Fill(t.remaining);
      assert Walk(t, q).rest == [head] + q[1..];
      assert KeyOf(head) == KeyOf(q[0]);
      assert Remains(t, head, q[0]);
      assert forall r :: r in q[1..] ==> r in q && Remains(t, r, r);
    } else {
      var t' := After(t, q[0]);
      assert q[0] in q;
      assert forall o :: o in q[1..] ==> o in q;
      WalkPops(t, q);
      WalkRest(t', q[1..]);
      forall r | r in Walk(t, q).rest ensures exists o :: o in q && Remains(t, r, o) {
        var o :| o in q[1..] && Remains(t', r, o);
        assert Remains(t, r, o);
      }
    }
  }

  /** The fill is against `o`, at its price, for at most its size, and the taker accepts the price. */
  predicate FillsOrder(t: Order, f: Fill, o: Order) {
    f == MakeFill(t, o, f.size) && 0 < f.size <= o.remaining && Crosses(t, o) && !Own(t, o)
  }

  ghost predicate FillsSome(t: Order, f: Fill, q: seq<Order>) { exists o :: o in q && FillsOrder(t, f, o) }

  lemma FillsTail(t: Order, q: seq<Order>, f: Fill)
    requires q != [] && FillsSome(After(t, q[0]), f, q[1..])
    requires forall i, j :: 0 <= i < j < |q| ==> q[i].id != q[j].id
    ensures FillsSome(t, f, q) && f.makerOrderId != q[0].id
  {
    var o :| o in q[1..] && FillsOrder(After(t, q[0]), f, o);
    assert FillsOrder(t, f, o) && o in q;
    var i :| 0 <= i < |q[1..]| && q[1..][i] == o;
    assert q[i + 1] == o;
  }

  /** Every fill is against some order of the queue that is not the taker's own, and each
      maker order is filled at most once. */
  lemma {:induction false} WalkFills(t: Order, q: seq<Order>)
    requires Positive(q) && 0 <= t.remaining
    requires forall i, j :: 0 <= i < j < |q| ==> q[i].id != q[j].id
    ensures forall f :: f in Walk(t, q).fills ==> FillsSome(t, f, q)
    ensures var fills := Walk(t, q).fills;
      forall i, j :: 0 <= i < j < |fills| ==> fills[i].makerOrderId != fills[j].makerOrderId
    decreases q
  {
    if Stops(t, q) {
    } else {
      assert q[0] in q;
      assert !Own(t, q[0]) ==> FillsOrder(t, HeadFill(t, q[0])[0], q[0]);
      if !Outlasts(t, q[0]) {
        assert forall o :: o in q[1..] ==> o in q;
        WalkPops(t, q);
        WalkFills(After(t, q[0]), q[1..]);
        var fills := Walk(After(t, q[0]), q[1..]).fills;
        forall f | f in fills ensures FillsSome(t, f, q) && f.makerOrderId != q[0].id {
          FillsTail(t, q, f);
        }
        assert forall i :: 0 <= i < |fills| ==> fills[i] in fills;
      }
    }
  }

  /** A taker with size left has nothing crossing in front of it. */
  lemma {:induction false} WalkExhausts(t: Order, q: seq<Order>)
    requires Positive(q) && Sorted(q) && 0 <= t.remaining
    requires forall o :: o in q ==> o.side != t.side
    requires Walk(t, q).taker.remaining != 0
    ensures forall r :: r in Walk(t, q).rest ==> !Crosses(t, r)
    decreases q
  {
    if t.remaining == 0 || q == [] {
    } else if !Crosses(t, q[0]) {
      forall r | r in q ensures !Crosses(t, r) {
        var i :| 0 <= i < |q| && q[i] == r;
        assert q[0] in q;
        if i > 0 { assert Less(KeyOf(q[0]), KeyOf(q[i])); }
      }
    } else {
      var size := Min(t.remaining, q[0].remaining);
      assert q[0] in q;
      assert forall o :: o in q[1..] ==> o in q;
      if Own(t, q[0]) {
        WalkExhausts(t, q[1..]);
      } else if size == q[0].remaining {
        WalkExhausts(t.Fill(size), q[1..]);
        forall r | r in Walk(t, q).rest ensures !Crosses(t, r) {
          assert !Crosses(t.Fill(size), r);
        }
      }
    }
  }

  // ---- The fate of each order ----

  ghost predicate HasFill(fills: seq<Fill>, id: OrderId) { exists f :: f in fills && f.makerOrderId == id }

  ghost predicate HasOrder(q: seq<Order>, id: OrderId) { exists o :: o in q && o.id == id }

  /** Order `o`, when it gives `n`: gone if that is all of it, otherwise on the book with `n` less. */
  ghost predicate Gives(w: WalkResult, o: Order, n: int) {
    && HasFill(w.fills, o.id)
    && (if n == o.remaining then !HasOrder(w.rest, o.id) else o.Fill(n) in w.rest)
  }

  ghost predicate Fate(t: Order, q: seq<Order>, i: nat, w: WalkResult)
    requires i < |q|
  {
    if !Touched(t, q, i) then q[i] in w.rest && !HasFill(w.fills, q[i].id)
    else if Own(t, q[i]) then !HasOrder(w.rest, q[i].id) && !HasFill(w.fills, q[i].id)
    else Gives(w, q[i], Allocation(t, q, i))
  }

  lemma RestIds(t: Order, q: seq<Order>, id: OrderId)
    requires Positive(q) && Sorted(q) && 0 <= t.remaining && !HasOrder(q, id)
    ensures !HasOrder(Walk(t, q).rest, id)
  {
    WalkRest(t, q);
    forall r | r in Walk(t, q).rest ensures r.id != id {
      var o :| o in q && Remains(t, r, o);
      RemainsKey(t, r, o);
    }
  }

  lemma FillIds(t: Order, q: seq<Order>, id: OrderId)
    requires Positive(q) && 0 <= t.remaining && OncePerId(q) && !HasOrder(q, id)
    ensures !HasFill(Walk(t, q).fills, id)
  {
    WalkFills(t, q);
    forall f | f in Walk(t, q).fills ensures f.makerOrderId != id {
      assert FillsSome(t, f, q);
    }
  }

  lemma NoneTouched(t: Order, q: seq<Order>, i: nat)
    requires Positive(q) && 0 <= t.remaining && Stops(t, q) && i < |q|
    ensures !Touched(t, q, i)
  {
    assert forall o :: o in q[..i] ==> o in q;
    OfferedNonNegative(t, q[..i]);
  }

  lemma FateOfHead(t: Order, q: seq<Order>)
    requires Positive(q) && Sorted(q) && OncePerId(q) && 0 <= t.remaining && !Stops(t, q)
    ensures Fate(t, q, 0, Walk(t, q))
  {
    assert q[..0] == [] && q[0] in q;
    assert Touched(t, q, 0);
    var w := Walk(t, q);
    assert forall o :: o in q[1..] ==> o in q;
    if Outlasts(t, q[0]) {
      assert MakeFill(t, q[0], t.remaining) in w.fills;
      assert q[0].Fill(t.remaining) in w.rest;
    } else {
      WalkPops(t, q);
      assert !HasOrder(q[1..], q[0].id);
      RestIds(After(t, q[0]), q[1..], q[0].id);
      FillIds(After(t, q[0]), q[1..], q[0].id);
      if !Own(t, q[0]) { assert HeadFill(t, q[0])[0] in w.fills; }
    }
  }

  /** Behind an order that outlasts the taker nothing moves. */
  lemma FateBehind(t: Order, q: seq<Order>, i: nat)
    requires Positive(q) && OncePerId(q) && 0 <= t.remaining && 0 < i < |q|
    requires !Stops(t, q) && Outlasts(t, q[0])
    ensures Fate(t, q, i, Walk(t, q))
  {
    assert forall o :: o in q[1..] ==> o in q;
    AllocationShift(t, After(t, q[0]), q, i - 1);
    NoneTouched(After(t, q[0]), q[1..], i - 1);
    assert q[1..][i - 1] == q[i];
  }

  lemma FatePops(t: Order, q: seq<Order>, i: nat)
    requires Positive(q) && OncePerId(q) && 0 <= t.remaining && 0 < i < |q|
    requires !Stops(t, q) && !Outlasts(t, q[0])
    requires Fate(After(t, q[0]), q[1..], i - 1, Walk(After(t, q[0]), q[1..]))
    ensures Fate(t, q, i, Walk(t, q))
  {
    AllocationShift(t, After(t, q[0]), q, i - 1);
    WalkPops(t, q);
    FateShift(Walk(t, q), Walk(After(t, q[0]), q[1..]), HeadFill(t, q[0]), q[i], Allocation(t, q, i));
  }

  /** For every order of the queue: untouched, dropped as the taker's own, or filled by exactly its
      allocation. */
  lemma {:induction false} WalkFate(t: Order, q: seq<Order>, i: nat)
    requires Positive(q) && Sorted(q) && OncePerId(q) && 0 <= t.remaining && i < |q|
    ensures Fate(t, q, i, Walk(t, q))
    decreases q
  {
    if Stops(t, q) {
      NoneTouched(t, q, i);
    } else if i == 0 {
      FateOfHead(t, q);
    } else if Outlasts(t, q[0]) {
      FateBehind(t, q, i);
    } else {
      assert q[0] in q;
      assert forall o :: o in q[1..] ==> o in q;
      WalkFate(After(t, q[0]), q[1..], i - 1);
      FatePops(t, q, i);
    }
  }

  lemma FateShift(w: WalkResult, v: WalkResult, head: seq<Fill>, o: Order, n: int)
    requires w.rest == v.rest && w.fills == head + v.fills
    requires forall f :: f in head ==> f.makerOrderId != o.id
    ensures HasFill(w.fills, o.id) == HasFill(v.fills, o.id)
    ensures Gives(w, o, n) == Gives(v, o, n)
  {
    assert forall f :: f in v.fills ==> f in w.fills;
  }

  // ---- The book after matching ----

  function Opposite(b: Book, side: Side): seq<Order> { if side == Buy then b.asks else b.bids }

  /** The book whose side opposite to `side` has become `rest`; ids that are gone leave the index. */
  ghost function Consumed(b: Book, side: Side, rest: seq<Order>): Book {
    var c := if side == Buy then b.(asks := rest, bestAsk := BestPrice(rest))
             else b.(bids := rest, bestBid := BestPrice(rest));
    c.(index := map id | id in b.index && HasId(c, id) :: b.index[id])
  }

  ghost function Matched(b: Book, o: Order): WalkResult { Walk(o, Opposite(b, o.side)) }

  ghost function AfterMatch(b: Book, o: Order): Book { Consumed(b, o.side, Matched(b, o).rest) }

  /** The order on the other side of the book that `r` is what remains of. */
  lemma MatchedOrigin(b: Book, o: Order, r: Order) returns (was: Order)
    requires WellFormed(b) && 0 <= o.remaining && r in Matched(b, o).rest
    ensures was in Opposite(b, o.side) && Remains(o, r, was) && KeyOf(r) == KeyOf(was)
  {
    WalkRest(o, Opposite(b, o.side));
    was :| was in Opposite(b, o.side) && Remains(o, r, was);
    RemainsKey(o, r, was);
  }

  lemma RemainsKey(t: Order, r: Order, o: Order)
    requires Remains(t, r, o)
    ensures KeyOf(r) == KeyOf(o) && r.side == o.side && r.price == o.price && r.owner == o.owner && r.id == o.id
  {
  }

  lemma MatchedSide(b: Book, o: Order)
    requires WellFormed(b) && 0 <= o.remaining
    ensures SideOk(Matched(b, o).rest, if o.side == Buy then Sell else Buy)
    ensures forall r :: r in Matched(b, o).rest ==> r.id in b.index && b.index[r.id] == KeyOf(r)
  {
    WalkRest(o, Opposite(b, o.side));
    forall r | r in Matched(b, o).rest
      ensures r.side != o.side && 0 < r.price
      ensures r.id in b.index && b.index[r.id] == KeyOf(r)
    {
      var was := MatchedOrigin(b, o, r);
      RemainsKey(o, r, was);
      assert InBook(b, was);
    }
  }

  /** Replacing a side by orders that are indexed keeps the book well formed. */
  lemma ConsumedKeeps(b: Book, side: Side, rest: seq<Order>)
    requires WellFormed(b) && SideOk(rest, if side == Buy then Sell else Buy)
    requires forall r :: r in rest ==> r.id in b.index && b.index[r.id] == KeyOf(r)
    ensures WellFormed(Consumed(b, side, rest))
    ensures Consumed(b, side, rest).index.Keys <= b.index.Keys
  {
    var c := Consumed(b, side, rest);
    var uncut := if side == Buy then b.(asks := rest, bestAsk := BestPrice(rest))
                 else b.(bids := rest, bestBid := BestPrice(rest));
    forall id | id in c.index ensures HasId(c, id) {
      assert HasId(uncut, id);
      var x :| InBook(uncut, x) && x.id == id;
      assert InBook(c, x);
    }
    forall x | InBook(c, x) ensures x.id in c.index && c.index[x.id] == KeyOf(x) {
      assert InBook(uncut, x);
      assert HasId(uncut, x.id);
      assert x in rest || InBook(b, x);
    }
  }

  lemma AfterMatchKeeps(b: Book, o: Order)
    requires WellFormed(b) && 0 <= o.remaining
    ensures WellFormed(AfterMatch(b, o))
    ensures AfterMatch(b, o).index.Keys <= b.index.Keys
  {
    MatchedSide(b, o);
    ConsumedKeeps(b, o.side, Matched(b, o).rest);
  }

  /** Every order on the book after matching stood there before. */
  lemma AfterMatchOrigin(b: Book, o: Order, r: Order) returns (was: Order)
    requires WellFormed(b) && 0 <= o.remaining && InBook(AfterMatch(b, o), r)
    ensures InBook(b, was) && Remains(o, r, was)
  {
    if r in Matched(b, o).rest {
      was := MatchedOrigin(b, o, r);
    } else {
      was := r;
    }
  }

  type Placed = Result<(Order, seq<Fill>)>

  datatype Outcome = Outcome(book: Book, result: Placed)

  /** Match, then rest, cancel or reject what is left. A rejection leaves the consumed book behind. */
  ghost function Process(b: Book, o: Order): Outcome {
    var w := Matched(b, o);
    var c := AfterMatch(b, o);
    if w.taker.remaining == 0 then Outcome(c, Ok((w.taker, w.fills)))
    else if o.PostOnly() && w.fills != [] then Outcome(c, Err(PostOnlyWouldCross))
    else if o.FillOrKill() && w.fills != [] then Outcome(c, Err(FokNotFilled))
    else if o.ShouldRest() then Outcome(Insert(c, w.taker), Ok((w.taker, w.fills)))
    else Outcome(c, Ok((w.taker.(status := Canceled), w.fills)))
  }

  /** Best bid below best ask, for every pair. */
  ghost predicate Uncrossed(b: Book) {
    forall x, y :: x in b.bids && y in b.asks ==> x.price < y.price
  }

  ghost predicate Resting(o: Order, w: WalkResult) {
    w.taker.remaining != 0 && o.ShouldRest() && !(o.PostOnly() && w.fills != [])
  }

  lemma ProcessBook(b: Book, o: Order)
    ensures Process(b, o).book ==
      if Resting(o, Matched(b, o)) then Insert(AfterMatch(b, o), Matched(b, o).taker) else AfterMatch(b, o)
  {
  }

  /** What an accepted order reports: the fills of the walk, and a remainder that may rest exactly
      when it was put on the book. */
  lemma ProcessResult(b: Book, o: Order)
    ensures Process(b, o).result.Ok? ==>
      var (t, fills) := Process(b, o).result.value;
      && fills == Matched(b, o).fills
      && (Resting(o, Matched(b, o)) ==> t == Matched(b, o).taker)
    ensures Process(b, o).result.Err? ==> Matched(b, o).fills != [] && !Resting(o, Matched(b, o))
  {
  }

  lemma ProcessRests(b: Book, o: Order)
    requires WellFormed(b) && 0 <= o.remaining && Process(b, o).result.Ok?
    ensures var t := Process(b, o).result.value.0;
      Resting(o, Matched(b, o)) <==> t.remaining != 0 && t.ShouldRest()
  {
    TakerKeeps(b, o);
  }

  /** Matching changes nothing of the taker but its remaining size and status. */
  lemma TakerKeeps(b: Book, o: Order)
    requires WellFormed(b) && 0 <= o.remaining
    ensures var t := Matched(b, o).taker;
      0 <= t.remaining <= o.remaining && t == o.(remaining := t.remaining, status := t.status)
  {
    WalkConserves(o, Opposite(b, o.side));
    WalkIsAllocation(o, Opposite(b, o.side));
    ReachOffers(o, Opposite(b, o.side));
  }

  lemma ReachOffers(t: Order, q: seq<Order>)
    requires Positive(q)
    ensures 0 <= Offered(t, q[..Reach(t, q)])
  {
    assert forall x :: x in q[..Reach(t, q)] ==> x in q;
    OfferedNonNegative(t, q[..Reach(t, q)]);
  }

  /** Processing any new order keeps the book well formed; afterwards the book holds what matching
      left plus, when it may rest, the remainder of the order. */
  lemma ProcessKeeps(b: Book, o: Order)
    requires WellFormed(b) && 0 < o.price && 0 <= o.remaining && o.id !in b.index
    ensures WellFormed(Process(b, o).book)
    ensures forall x :: InBook(Process(b, o).book, x) <==>
      InBook(AfterMatch(b, o), x) || (Resting(o, Matched(b, o)) && x == Matched(b, o).taker)
  {
    ProcessBook(b, o);
    AfterMatchKeeps(b, o);
    TakerKeeps(b, o);
    RestingInsert(AfterMatch(b, o), Matched(b, o).taker, Resting(o, Matched(b, o)));
  }

  lemma RestingInsert(c: Book, t: Order, rests: bool)
    requires WellFormed(c) && t.id !in c.index && (rests ==> 0 < t.price && 0 < t.remaining)
    ensures var d := if rests then Insert(c, t) else c;
      WellFormed(d) && forall x :: InBook(d, x) <==> InBook(c, x) || (rests && x == t)
  {
    if rests {
      InsertKeeps(c, t);
      assert forall x :: InBook(c, x) ==> x.id in c.index;
    }
  }

  /** An uncrossed book stays uncrossed through any order, accepted or rejected: a taker rests
      only once nothing on the other side crosses it. */
  lemma ProcessUncrossed(b: Book, o: Order)
    requires WellFormed(b) && Uncrossed(b) && 0 < o.price && 0 <= o.remaining && o.id !in b.index
    ensures Uncrossed(Process(b, o).book)
  {
    AfterMatchKeeps(b, o);
    MatchUncrossed(b, o);
    ProcessKeeps(b, o);
    TakerKeeps(b, o);
    if Resting(o, Matched(b, o)) {
      NothingCrosses(b, o);
      RestUncrossed(AfterMatch(b, o), Process(b, o).book, Matched(b, o).taker);
    } else {
      ProcessBook(b, o);
    }
  }

  lemma NothingCrosses(b: Book, o: Order)
    requires WellFormed(b) && 0 <= o.remaining && Matched(b, o).taker.remaining != 0
    ensures forall r :: r in Opposite(AfterMatch(b, o), o.side) ==> !Crosses(o, r)
  {
    WalkExhausts(o, Opposite(b, o.side));
  }

  lemma MatchUncrossed(b: Book, o: Order)
    requires WellFormed(b) && 0 <= o.remaining && Uncrossed(b)
    ensures Uncrossed(AfterMatch(b, o))
  {
    var c := AfterMatch(b, o);
    AfterMatchKeeps(b, o);
    forall x, y | x in c.bids && y in c.asks ensures x.price < y.price {
      assert InBook(c, x) && InBook(c, y);
      var x' := AfterMatchOrigin(b, o, x);
      var y' := AfterMatchOrigin(b, o, y);
      RemainsKey(o, x, x');
      RemainsKey(o, y, y');
    }
  }

  ghost predicate Sided(b: Book) {
    (forall o :: o in b.bids ==> o.side == Buy) && (forall o :: o in b.asks ==> o.side == Sell)
  }

  lemma RestUncrossed(c: Book, d: Book, t: Order)
    requires Sided(c) && Sided(d) && Uncrossed(c)
    requires forall x :: InBook(d, x) <==> InBook(c, x) || x == t
    requires forall r :: r in Opposite(c, t.side) ==> !Crosses(t, r)
    ensures Uncrossed(d)
  {
    forall x, y | x in d.bids && y in d.asks ensures x.price < y.price {
      assert InBook(d, x) && InBook(d, y);
      if x == t {
        assert y in Opposite(c, t.side);
      } else if y == t {
        assert x in Opposite(c, t.side);
      }
    }
  }

  /** Removing an order cannot cross the book. */
  lemma RemoveUncrossed(b: Book, id: OrderId)
    requires WellFormed(b) && Uncrossed(b)
    ensures Uncrossed(Remove(b, id))
  {
    RemoveKeeps(b, id);
    forall x, y | x in Remove(b, id).bids && y in Remove(b, id).asks ensures x.price < y.price {
      assert InBook(Remove(b, id), x) && InBook(Remove(b, id), y);
      assert InBook(b, x) && InBook(b, y);
    }
  }

  /** A post-only order takes liquidity without being rejected exactly when it is filled in full;
      a fill-or-kill order is rejected exactly when it is filled in part. */
  lemma TimeInForceOutcomes(b: Book, o: Order)
    requires WellFormed(b) && 0 < o.remaining
    ensures var n := Offered(o, Opposite(b, o.side)[..Reach(o, Opposite(b, o.side))]);
      && (Process(b, o).result == Err(PostOnlyWouldCross) <==> o.PostOnly() && 0 < n < o.remaining)
      && (Process(b, o).result == Err(FokNotFilled) <==> o.FillOrKill() && 0 < n < o.remaining)
      && (Process(b, o).result.Ok? <==> !((o.PostOnly() || o.FillOrKill()) && 0 < n < o.remaining))
      && (Process(b, o).result.Ok? ==> TotalSize(Process(b, o).result.value.1) == Min(n, o.remaining))
  {
    var q := Opposite(b, o.side);
    WalkIsAllocation(o, q);
    ReachOffers(o, q);
    var w := Matched(b, o);
    assert TotalSize(w.fills) == o.remaining - w.taker.remaining
      && (w.fills == [] <==> TotalSize(w.fills) == 0) by {
      WalkConserves(o, q);
      PositiveTotal(w.fills);
    }
  }

  lemma PositiveTotal(fills: seq<Fill>)
    requires forall i :: 0 <= i < |fills| ==> 0 < fills[i].size
    ensures TotalSize(fills) >= 0 && (fills != [] ==> TotalSize(fills) > 0)
  {
    if fills != [] { PositiveTotal(fills[1..]); }
  }

  // ---- The loops over the book object ----

  /** Loop invariant: what is left to do from here completes what was to be done at the start. */
  ghost predicate Progress(start: Book, taker: Order, b: Book, order: Order, fills: seq<Fill>) {
    && WellFormed(b) && order.side == taker.side && 0 <= order.remaining
    && (if taker.side == Buy then b.bids == start.bids else b.asks == start.asks)
    && var w := Matched(b, order);
       Matched(start, taker) == WalkResult(w.taker, w.rest, fills + w.fills)
  }

  /** The loop body runs: there is demand left and the best opposite order crosses. */
  predicate Active(b: Book, order: Order) { !Stops(order, Opposite(b, order.side)) }

  lemma RemoveHead(b: Book, side: Side)
    requires WellFormed(b) && Opposite(b, side) != []
    ensures var q := Opposite(b, side); var c := Remove(b, q[0].id);
      && WellFormed(c) && Opposite(c, side) == q[1..]
      && (if side == Buy then c.bids == b.bids else c.asks == b.asks)
  {
    var q := Opposite(b, side);
    RemoveKeeps(b, q[0].id);
    assert q[0] in q && InBook(b, q[0]);
  }

  lemma FillHead(b: Book, side: Side, size: int)
    requires WellFormed(b) && Opposite(b, side) != [] && 0 < size < Opposite(b, side)[0].remaining
    ensures var q := Opposite(b, side); var o := q[0].Fill(size); var c := Refresh(b, o);
      && Get(b, q[0].id) == Some(q[0]) && (b.index[q[0].id].priceKey < 0 <==> side == Sell)
      && WellFormed(c) && Opposite(c, side) == [o] + q[1..]
      && (if side == Buy then c.bids == b.bids else c.asks == b.asks)
  {
    var q := Opposite(b, side);
    assert q[0] in q && InBook(b, q[0]);
    GetFinds(b, q[0].id);
    RefreshKeeps(b, q[0], q[0].Fill(size));
  }

  lemma PopOwn(start: Book, taker: Order, b: Book, order: Order, fills: seq<Fill>)
    requires Progress(start, taker, b, order, fills) && Active(b, order)
    requires Own(order, Opposite(b, order.side)[0])
    ensures Progress(start, taker, Remove(b, Opposite(b, order.side)[0].id), order, fills)
    ensures Opposite(Remove(b, Opposite(b, order.side)[0].id), order.side) == Opposite(b, order.side)[1..]
  {
    RemoveHead(b, order.side);
  }

  lemma WalkResumes(t: Order, q: seq<Order>, fills: seq<Fill>)
    requires !Stops(t, q) && !Own(t, q[0]) && q[0].remaining <= t.remaining
    ensures var w := Walk(t, q); var v := Walk(t.Fill(q[0].remaining), q[1..]);
      && w.taker == v.taker && w.rest == v.rest
      && fills + w.fills == fills + [MakeFill(t, q[0], q[0].remaining)] + v.fills
  {
    WalkPops(t, q);
  }

  lemma PopFilled(start: Book, taker: Order, b: Book, order: Order, fills: seq<Fill>)
    requires Progress(start, taker, b, order, fills) && Active(b, order)
    requires var r := Opposite(b, order.side)[0]; !Own(order, r) && r.remaining <= order.remaining
    ensures var r := Opposite(b, order.side)[0];
      Progress(start, taker, Remove(b, r.id), order.Fill(r.remaining), fills + [MakeFill(order, r, r.remaining)])
    ensures Opposite(Remove(b, Opposite(b, order.side)[0].id), order.side) == Opposite(b, order.side)[1..]
  {
    RemoveHead(b, order.side);
    WalkResumes(order, Opposite(b, order.side), fills);
  }

  lemma PartFilled(start: Book, taker: Order, b: Book, order: Order, fills: seq<Fill>)
    requires Progress(start, taker, b, order, fills) && Active(b, order)
    requires Outlasts(order, Opposite(b, order.side)[0])
    ensures var r := Opposite(b, order.side)[0]; var n := order.remaining;
      && Get(b, r.id) == Some(r) && (b.index[r.id].priceKey < 0 <==> order.side == Sell)
      && Progress(start, taker, Refresh(b, r.Fill(n)), order.Fill(n), fills + [MakeFill(order, r, n)])
      && |Opposite(Refresh(b, r.Fill(n)), order.side)| == |Opposite(b, order.side)|
  {
    FillHead(b, order.side, order.remaining);
  }

  lemma Finished(start: Book, taker: Order, b: Book, order: Order, fills: seq<Fill>)
    requires WellFormed(start) && 0 <= taker.remaining
    requires Progress(start, taker, b, order, fills) && !Active(b, order)
    ensures order == Matched(start, taker).taker && fills == Matched(start, taker).fills
    ensures b == AfterMatch(start, taker)
  {
    AfterMatchKeeps(start, taker);
    SameSides(b, AfterMatch(start, taker));
  }

  lemma SameSides(a: Book, b: Book)
    requires WellFormed(a) && WellFormed(b) && a.bids == b.bids && a.asks == b.asks
    ensures a == b
  {
    assert forall o :: InBook(a, o) <==> InBook(b, o);
    BookDeterminedBySides(a, b);
  }

  method MatchAgainstAsks(taker: Order, book: OrderBook) returns (order: Order, fills: seq<Fill>)
    requires taker.side == Buy && 0 <= taker.remaining && WellFormed(book.Contents())
    modifies book
    ensures var w := old(Matched(book.Contents(), taker)); order == w.taker && fills == w.fills
    ensures book.Contents() == old(AfterMatch(book.Contents(), taker))
  {
    order, fills := taker, [];
    ghost var start := book.Contents();
    while order.remaining != 0
      invariant Progress(start, taker, book.Contents(), order, fills)
      decreases |book.asks|, order.remaining
    {
      if book.asks == [] { break; }
      var best := book.asks[0];
      if best.price > order.price { break; }
      ghost var b := book.Contents();
      if best.owner == order.owner {
        PopOwn(start, taker, b, order, fills);
        var _ := book.RemoveOrder(best.id);
      } else {
        var size := Min(order.remaining, best.remaining);
        var was, filled := order, fills;
        fills := fills + [MakeFill(order, best, size)];
        order := order.Fill(size);
        if best.remaining - size == 0 {
          PopFilled(start, taker, b, was, filled);
          var _ := book.RemoveOrder(best.id);
        } else {
          PartFilled(start, taker, b, was, filled);
          book.FillResting(best.id, size);
        }
      }
    }
    Finished(start, taker, book.Contents(), order, fills);
  }

  method MatchAgainstBids(taker: Order, book: OrderBook) returns (order: Order, fills: seq<Fill>)
    requires taker.side == Sell && 0 <= taker.remaining && WellFormed(book.Contents())
    modifies book
    ensures var w := old(Matched(book.Contents(), taker)); order == w.taker && fills == w.fills
    ensures book.Contents() == old(AfterMatch(book.Contents(), taker))
  {
    order, fills := taker, [];
    ghost var start := book.Contents();
    while order.remaining != 0
      invariant Progress(start, taker, book.Contents(), order, fills)
      decreases |book.bids|, order.remaining
    {
      if book.bids == [] { break; }
      var best := book.bids[0];
      if best.price < order.price { break; }
      ghost var b := book.Contents();
      if best.owner == order.owner {
        PopOwn(start, taker, b, order, fills);
        var _ := book.RemoveOrder(best.id);
      } else {
        var size := Min(order.remaining, best.remaining);
        var was, filled := order, fills;
        fills := fills + [MakeFill(order, best, size)];
        order := order.Fill(size);
        if best.remaining - size == 0 {
          PopFilled(start, taker, b, was, filled);
          var _ := book.RemoveOrder(best.id);
        } else {
          PartFilled(start, taker, b, was, filled);
          book.FillResting(best.id, size);
        }
      }
    }
    Finished(start, taker, book.Contents(), order, fills);
  }

  /** Process an incoming order on the book object. */
  method ProcessOrder(order: Order, book: OrderBook) returns (result: Placed)
    requires 0 <= order.remaining && WellFormed(book.Contents())
    modifies book
    ensures Outcome(book.Contents(), result) == old(Process(book.Contents(), order))
  {
    var taker, fills;
    if order.side == Buy {
      taker, fills := MatchAgainstAsks(order, book);
    } else {
      taker, fills := MatchAgainstBids(order, book);
    }
    if taker.remaining == 0 {
      return Ok((taker, fills));
    }
    if order.PostOnly() && fills != [] {
      return Err(PostOnlyWouldCross);
    }
    if order.FillOrKill() && fills != [] {
      return Err(FokNotFilled);
    }
    if order.ShouldRest() {
      book.InsertOrder(taker);
    } else {
      taker := taker.(status := Canceled);
    }
    return Ok((taker, fills));
  }
}

/** The aggregated (L2) view of one side of the book. */
module Depth {
  import opened Options
  import opened Orders
  import opened Books

  datatype PriceLevel = PriceLevel(price: int, size: int, orderCount: nat)

  /** Prices that occur, in order of first occurrence. */
  function DistinctPrices(q: seq<Order>): seq<int> {
    if q == [] then []
    else
      var d := DistinctPrices(q[..|q| - 1]);
      if q[|q| - 1].price in d then d else d + [q[|q| - 1].price]
  }

  function TotalAt(q: seq<Order>, price: int): int {
    if q == [] then 0
    else TotalAt(q[..|q| - 1], price) + if q[|q| - 1].price == price then q[|q| - 1].remaining else 0
  }

  function CountAt(q: seq<Order>, price: int): nat {
    if q == [] then 0
    else CountAt(q[..|q| - 1], price) + if q[|q| - 1].price == price then 1 else 0
  }

  function LevelAt(q: seq<Order>, price: int): PriceLevel {
    PriceLevel(price, TotalAt(q, price), CountAt(q, price))
  }

  /** A level counts each order at its price once, with what is left of it: taking out any one order takes out just that. */
  lemma {:induction false} LevelWithout(q: seq<Order>, i: nat, price: int)
    requires i < |q|
    ensures var rest := q[..i] + q[i + 1..];
      && TotalAt(q, price) == TotalAt(rest, price) + (if q[i].price == price then q[i].remaining else 0)
      && CountAt(q, price) == CountAt(rest, price) + (if q[i].price == price then 1 else 0)
    ensures TotalAt([], price) == 0 && CountAt([], price) == 0
  {
    var n, rest := |q| - 1, q[..i] + q[i + 1..];
    if i < n {
      LevelWithout(q[..n], i, price);
      assert q[..n][..i] + q[..n][i + 1..] == rest[..|rest| - 1];
      assert rest[|rest| - 1] == q[n];
    } else {
      assert rest == q[..n];
    }
  }

  /** The first `depth` distinct prices, each with its exact total size and order count. */
  function L2(q: seq<Order>, depth: nat): seq<PriceLevel> {
    var d := DistinctPrices(q);
    seq(if depth < |d| then depth else |d|, i requires 0 <= i < |d| => LevelAt(q, d[i]))
  }

  /** `a` has strictly better price than `b` for a resting order on `side`. */
  predicate Better(side: Side, a: int, b: int) { if side == Buy then a > b else a < b }

  ghost predicate OneSide(q: seq<Order>, side: Side) {
    Sorted(q) && forall o :: o in q ==> o.side == side
  }

  /** Prices on a side never improve from one order to the next. */
  lemma PricesWorsen(q: seq<Order>, side: Side, i: int, j: int)
    requires OneSide(q, side) && 0 <= i <= j < |q|
    ensures q[i].price == q[j].price || Better(side, q[i].price, q[j].price)
  {
    assert q[i] in q && q[j] in q;
    if i < j { assert Less(KeyOf(q[i]), KeyOf(q[j])); }
  }

  ghost predicate Occurs(q: seq<Order>, price: int) { exists i :: 0 <= i < |q| && q[i].price == price }

  lemma {:induction false} DistinctPricesOccur(q: seq<Order>)
    ensures forall p :: p in DistinctPrices(q) <==> Occurs(q, p)
  {
    if q != [] {
      var n := |q| - 1;
      var r := q[..n];
      DistinctPricesOccur(r);
      forall p ensures p in DistinctPrices(q) <==> Occurs(q, p) {
        if Occurs(r, p) {
          var i :| 0 <= i < |r| && r[i].price == p;
          assert q[i].price == p;
        }
        assert q[n].price == p ==> Occurs(q, p);
        if Occurs(q, p) {
          var i :| 0 <= i < |q| && q[i].price == p;
          assert i < n ==> r[i].price == p;
        }
      }
    }
  }

  /** The distinct prices are exactly the prices that occur, in strict priority order,
      and the last of them is the price of the last order. */
  lemma {:induction false} DistinctPricesOrdered(q: seq<Order>, side: Side)
    requires OneSide(q, side)
    ensures forall p :: p in DistinctPrices(q) <==> Occurs(q, p)
    ensures var d := DistinctPrices(q);
      forall i, j :: 0 <= i < j < |d| ==> Better(side, d[i], d[j])
    ensures q != [] ==>
      DistinctPrices(q) != [] && DistinctPrices(q)[|DistinctPrices(q)| - 1] == q[|q| - 1].price
  {
    DistinctPricesOccur(q);
    if q != [] {
      var n := |q| - 1;
      var r := q[..n];
      var d := DistinctPrices(r);
      DistinctPricesOrdered(r, side);
      forall p | p in d ensures p == q[n].price || Better(side, p, q[n].price) {
        assert Occurs(r, p);
        var i :| 0 <= i < |r| && r[i].price == p;
        PricesWorsen(q, side, i, n);
      }
      assert d != [] ==> d[|d| - 1] in d;
    }
  }

  /** Orders at a price never seen contribute nothing to it. */
  lemma {:induction false} AbsentPrice(q: seq<Order>, price: int)
    requires forall o :: o in q ==> o.price != price
    ensures TotalAt(q, price) == 0 && CountAt(q, price) == 0
  {
    if q != [] {
      assert q[|q| - 1] in q;
      AbsentPrice(q[..|q| - 1], price);
    }
  }

  /** Appending orders priced strictly worse than everything in `q` leaves the levels of `q` alone. */
  lemma {:induction false} WorseSuffix(q: seq<Order>, n: nat, side: Side)
    requires OneSide(q, side) && n < |q| && n > 0
    requires q[n].price != q[n - 1].price
    ensures DistinctPrices(q[..n]) <= DistinctPrices(q)
    ensures forall p :: p in DistinctPrices(q[..n]) ==> LevelAt(q, p) == LevelAt(q[..n], p)
  {
    WorseSuffixTo(q, n, |q|, side);
    assert q[..|q|] == q;
  }

  lemma WorseLater(q: seq<Order>, n: nat, k: nat, side: Side, p: int)
    requires OneSide(q, side) && 0 < n <= k < |q| && q[n].price != q[n - 1].price && Occurs(q[..n], p)
    ensures p != q[k].price
  {
    var i :| 0 <= i < n && q[..n][i].price == p;
    PricesWorsen(q, side, i, n - 1);
    PricesWorsen(q, side, n - 1, n);
    PricesWorsen(q, side, n, k);
  }

  lemma {:induction false} WorseSuffixTo(q: seq<Order>, n: nat, m: nat, side: Side)
    requires OneSide(q, side) && 0 < n <= m <= |q| && n < |q|
    requires q[n].price != q[n - 1].price
    ensures DistinctPrices(q[..n]) <= DistinctPrices(q[..m])
    ensures forall p :: p in DistinctPrices(q[..n]) ==> LevelAt(q[..m], p) == LevelAt(q[..n], p)
  {
    if n < m {
      WorseSuffixTo(q, n, m - 1, side);
      assert q[..m][..m - 1] == q[..m - 1];
      DistinctPricesOrdered(q[..n], side);
      forall p | p in DistinctPrices(q[..n]) ensures p != q[m - 1].price {
        WorseLater(q, n, m - 1, side, p);
      }
    }
  }

  /** One more order at the current price adds to the last level. */
  lemma L2SamePrice(q: seq<Order>, depth: nat, side: Side)
    requires OneSide(q, side) && 1 < |q| && q[|q| - 1].price == q[|q| - 2].price
    requires |DistinctPrices(q[..|q| - 1])| <= depth
    ensures DistinctPrices(q) == DistinctPrices(q[..|q| - 1])
    ensures var was := L2(q[..|q| - 1], depth); var k := |was| - 1;
      0 <= k && L2(q, depth) ==
        was[k := PriceLevel(was[k].price, was[k].size + q[|q| - 1].remaining, was[k].orderCount + 1)]
  {
    DistinctPricesOrdered(q[..|q| - 1], side);
    var d := DistinctPrices(q[..|q| - 1]);
    assert d[|d| - 1] in d;
    assert forall i :: 0 <= i < |d| - 1 ==> Better(side, d[i], d[|d| - 1]);
  }

  /** An order at a new price opens a level of its own. */
  lemma L2NewPrice(q: seq<Order>, depth: nat, side: Side)
    requires OneSide(q, side) && q != [] && (|q| == 1 || q[|q| - 1].price != q[|q| - 2].price)
    requires |DistinctPrices(q[..|q| - 1])| < depth
    ensures DistinctPrices(q) == DistinctPrices(q[..|q| - 1]) + [q[|q| - 1].price]
    ensures L2(q, depth) == L2(q[..|q| - 1], depth) + [PriceLevel(q[|q| - 1].price, q[|q| - 1].remaining, 1)]
  {
    var n := |q| - 1;
    var r := q[..n];
    DistinctPricesOrdered(r, side);
    forall o | o in r ensures o.price != q[n].price {
      var k :| 0 <= k < n && r[k] == o;
      PricesWorsen(q, side, k, n - 1);
      PricesWorsen(q, side, n - 1, n);
    }
    AbsentPrice(r, q[n].price);
    assert forall p :: p in DistinctPrices(r) ==> p != q[n].price;
  }

  /** Once `depth` levels are full, a new price ends the view. */
  lemma L2Full(q: seq<Order>, n: nat, depth: nat, side: Side)
    requires OneSide(q, side) && n < |q| && |DistinctPrices(q[..n])| == depth
    requires n == 0 || q[n].price != q[n - 1].price
    ensures L2(q, depth) == L2(q[..n], depth)
  {
    if n > 0 {
      WorseSuffix(q, n, side);
      var d := DistinctPrices(q[..n]);
      assert forall i :: 0 <= i < |d| ==> d[i] in d && DistinctPrices(q)[i] == d[i];
    }
  }

  lemma OneSideTo(q: seq<Order>, n: nat, side: Side)
    requires OneSide(q, side) && 0 < n <= |q|
    ensures OneSide(q[..n], side) && q[..n][..n - 1] == q[..n - 1]
  {
  }

  /** One more order: added to the last level at the same price, or a level of its own. */
  function Grown(levels: seq<PriceLevel>, o: Order, same: bool): seq<PriceLevel>
    requires same ==> levels != []
  {
    if same then
      var k := |levels| - 1;
      levels[k := PriceLevel(levels[k].price, levels[k].size + o.remaining, levels[k].orderCount + 1)]
    else levels + [PriceLevel(o.price, o.remaining, 1)]
  }

  lemma L2Grows(q: seq<Order>, n: nat, depth: nat, side: Side, same: bool)
    requires OneSide(q, side) && n < |q| && same == (n > 0 && q[n].price == q[n - 1].price)
    requires var d := |DistinctPrices(q[..n])|; if same then d <= depth else d < depth
    ensures same ==> L2(q[..n], depth) != []
    ensures L2(q[..n + 1], depth) == Grown(L2(q[..n], depth), q[n], same)
    ensures |DistinctPrices(q[..n + 1])| <= depth
  {
    OneSideTo(q, n + 1, side);
    if same {
      L2SamePrice(q[..n + 1], depth, side);
    } else {
      L2NewPrice(q[..n + 1], depth, side);
    }
  }

  lemma L2Length(q: seq<Order>, depth: nat)
    requires |DistinctPrices(q)| <= depth
    ensures |L2(q, depth)| == |DistinctPrices(q)|
  {
  }

  /** The accumulating loop over a side computes exactly the L2 view. */
  method AggregateLevels(orders: seq<Order>, depth: nat, ghost side: Side) returns (levels: seq<PriceLevel>)
    requires OneSide(orders, side)
    ensures levels == L2(orders, depth)
  {
    levels := [];
    var current: Option<int> := None;
    var i := 0;
    while i < |orders|
      invariant 0 <= i <= |orders|
      invariant |DistinctPrices(orders[..i])| <= depth
      invariant levels == L2(orders[..i], depth)
      invariant current == if i == 0 then None else Some(orders[i - 1].price)
    {
      var o := orders[i];
      L2Length(orders[..i], depth);
      if |levels| >= depth && current != Some(o.price) {
        L2Full(orders, i, depth, side);
        return;
      }
      L2Grows(orders, i, depth, side, current == Some(o.price));
      if current == Some(o.price) {
        var last := levels[|levels| - 1];
        levels := levels[|levels| - 1 := PriceLevel(last.price, last.size + o.remaining, last.orderCount + 1)];
      } else {
        levels := levels + [PriceLevel(o.price, o.remaining, 1)];
        current := Some(o.price);
      }
      i := i + 1;
    }
    assert orders[..|orders|] == orders;
  }
}

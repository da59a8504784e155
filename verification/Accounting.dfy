/** Sums over finite maps. */
module MapSum {

  ghost function Sum<K(!new)>(m: map<K, int>): int {
    if m == map[] then 0 else var k :| k in m; m[k] + Sum(m - {k})
  }

  /** Any key may be split off. */
  lemma {:induction false} SumSplit<K(!new)>(m: map<K, int>, k: K)
    requires k in m
    ensures Sum(m) == m[k] + Sum(m - {k})
    decreases |m|
  {
    assert m != map[];
    var j :| j in m && Sum(m) == m[j] + Sum(m - {j});
    if j != k {
      var n := m - {j};
      assert |n| < |m| by { assert n.Keys == m.Keys - {j}; }
      SumSplit(n, k);
      assert n - {k} == m - {k} - {j};
      assert |m - {k}| < |m| by { assert (m - {k}).Keys == m.Keys - {k}; }
      SumSplit(m - {k}, j);
    }
  }

  lemma SumUpdate<K(!new)>(m: map<K, int>, k: K, v: int)
    ensures Sum(m[k := v]) == Sum(m) + v - (if k in m then m[k] else 0)
  {
    SumSplit(m[k := v], k);
    if k in m {
      SumSplit(m, k);
      assert m[k := v] - {k} == m - {k};
    } else {
      assert m[k := v] - {k} == m;
    }
  }
}

/** Positions and open interest of one market under fills. */
module Accounting {
  import opened Orders
  import opened MapSum

  type Positions = map<Account, int>

  function Long(x: int): int { if x > 0 then x else 0 }

  function Short(x: int): int { if x < 0 then -x else 0 }

  function Longs(p: Positions): Positions { map a | a in p :: Long(p[a]) }

  function Shorts(p: Positions): Positions { map a | a in p :: Short(p[a]) }

  ghost function TotalLong(p: Positions): int { Sum(Longs(p)) }

  ghost function TotalShort(p: Positions): int { Sum(Shorts(p)) }

  datatype Ledger = Ledger(positions: Positions, oiLong: int, oiShort: int)

  function SizeOf(p: Positions, a: Account): int { if a in p then p[a] else 0 }

  /** A position that does not exist is not created by a fill. */
  function Shift(p: Positions, a: Account, delta: int): Positions {
    if a in p then p[a := p[a] + delta] else p
  }

  function Signed(size: int, buys: bool): int { if buys then size else -size }

  /** Maker first, then taker; open interest moves by the change of each one's size. */
  function Settle(l: Ledger, f: Fill): Ledger {
    var after := Shift(Shift(l.positions, f.maker, Signed(f.size, !f.takerBuys)), f.taker, Signed(f.size, f.takerBuys));
    var m0, m1 := SizeOf(l.positions, f.maker), SizeOf(after, f.maker);
    var t0, t1 := SizeOf(l.positions, f.taker), SizeOf(after, f.taker);
    Ledger(after,
           l.oiLong + (Long(m1) - Long(m0)) + (Long(t1) - Long(t0)),
           l.oiShort + (Short(m1) - Short(m0)) + (Short(t1) - Short(t0)))
  }

  /** Positions cancel out, and each open-interest counter is the sum of its side. */
  ghost predicate Balanced(l: Ledger) {
    && Sum(l.positions) == 0
    && l.oiLong == TotalLong(l.positions)
    && l.oiShort == TotalShort(l.positions)
  }

  lemma TotalsUpdate(p: Positions, a: Account, v: int)
    ensures Sum(p[a := v]) == Sum(p) + v - SizeOf(p, a)
    ensures TotalLong(p[a := v]) == TotalLong(p) + Long(v) - Long(SizeOf(p, a))
    ensures TotalShort(p[a := v]) == TotalShort(p) + Short(v) - Short(SizeOf(p, a))
  {
    SumUpdate(p, a, v);
    LongsUpdate(p, a, v);
    ShortsUpdate(p, a, v);
  }

  lemma LongsUpdate(p: Positions, a: Account, v: int)
    ensures TotalLong(p[a := v]) == TotalLong(p) + Long(v) - Long(SizeOf(p, a))
  {
    assert Longs(p[a := v]) == Longs(p)[a := Long(v)];
    SumUpdate(Longs(p), a, Long(v));
  }

  lemma ShortsUpdate(p: Positions, a: Account, v: int)
    ensures TotalShort(p[a := v]) == TotalShort(p) + Short(v) - Short(SizeOf(p, a))
  {
    assert Shorts(p[a := v]) == Shorts(p)[a := Short(v)];
    SumUpdate(Shorts(p), a, Short(v));
  }

  lemma ShiftTotals(p: Positions, a: Account, delta: int)
    ensures var q := Shift(p, a, delta); var v := SizeOf(q, a);
      && Sum(q) == Sum(p) + (if a in p then delta else 0)
      && TotalLong(q) == TotalLong(p) + Long(v) - Long(SizeOf(p, a))
      && TotalShort(q) == TotalShort(p) + Short(v) - Short(SizeOf(p, a))
  {
    if a in p { TotalsUpdate(p, a, p[a] + delta); }
  }

  /** Opening an empty position changes no total. */
  lemma OpenBalanced(l: Ledger, a: Account)
    requires Balanced(l) && a !in l.positions
    ensures Balanced(l.(positions := l.positions[a := 0]))
  {
    TotalsUpdate(l.positions, a, 0);
  }

  /** A fill keeps the market balanced exactly when both parties have a position record or
      neither has: the sum of sizes and both open-interest counters then stay right. */
  lemma SettleBalancedIff(l: Ledger, f: Fill)
    requires Balanced(l) && f.size != 0 && f.maker != f.taker
    ensures Balanced(Settle(l, f)) <==> (f.maker in l.positions <==> f.taker in l.positions)
  {
    var p := Shift(l.positions, f.maker, Signed(f.size, !f.takerBuys));
    ShiftTotals(l.positions, f.maker, Signed(f.size, !f.takerBuys));
    ShiftTotals(p, f.taker, Signed(f.size, f.takerBuys));
    assert SizeOf(p, f.taker) == SizeOf(l.positions, f.taker);
    var q := Shift(p, f.taker, Signed(f.size, f.takerBuys));
    assert SizeOf(q, f.maker) == SizeOf(p, f.maker);
  }

  lemma {:induction false} LongMinusShort(p: Positions)
    ensures TotalLong(p) - TotalShort(p) == Sum(p)
    decreases |p|
  {
    if p == map[] {
      assert Longs(p) == map[] && Shorts(p) == map[];
    } else {
      var a :| a in p;
      var q := p - {a};
      assert |q| < |p| by { assert q.Keys == p.Keys - {a}; }
      LongMinusShort(q);
      assert q[a := p[a]] == p;
      TotalsUpdate(q, a, p[a]);
    }
  }

  /** In a balanced market long and short open interest are equal. */
  lemma OpenInterestMatches(l: Ledger)
    requires Balanced(l)
    ensures l.oiLong == l.oiShort
  {
    LongMinusShort(l.positions);
  }
}

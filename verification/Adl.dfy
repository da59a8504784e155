/** Auto-deleveraging: profitable positions are closed at the bankruptcy price, best score first, until the
    deficit is covered. Sizes and prices have eight decimals, money has six; every product and quotient is
    truncated toward zero. */
module Adl {
  import opened Orders
  import opened MarkPrice

  const UNIT := 100_000_000
  const MICRO := 1_000_000

  function Abs(x: int): nat { if x < 0 then -x else x }

  /** Truncating division by a divisor of either sign. */
  function Quotient(a: int, b: int): int
    requires b != 0
  {
    if b > 0 then TruncDiv(a, b) else -TruncDiv(a, -b)
  }

  /** The value of a position in money. */
  function Notional(size: int, price: int): int { TruncDiv(TruncDiv(Abs(size) * price, UNIT), 100) }

  /** How much of a position to close for `amount` of its `value`: the ratio has six decimals. */
  function CloseSize(size: int, amount: int, value: int): int
    requires value != 0
  {
    TruncDiv(Abs(size) * (Quotient(amount * MICRO, value) * 100), UNIT)
  }

  function Reduced(size: int, part: int): int { if size < 0 then size + part else size - part }

  // ---- Rounding ----

  lemma MulLe(a: nat, x: int, y: int)
    requires x <= y
    ensures a * x <= a * y
  {
  }

  lemma MulLt(a: nat, x: int, y: int)
    requires a * x < a * y
    ensures x < y
  {
    if y <= x { MulLe(a, y, x); }
  }

  lemma RatioBounded(amount: nat, value: nat)
    requires amount <= value && value > 0
    ensures 0 <= amount * MICRO / value <= MICRO && (amount == value ==> amount * MICRO / value == MICRO)
    ensures value * (amount * MICRO / value) <= amount * MICRO
  {
    var q := amount * MICRO / value;
    assert value * q <= amount * MICRO <= value * MICRO;
    MulLe(MICRO, amount, value);
    if q > MICRO { MulLe(value, MICRO + 1, q); }
    if amount == value { RatioOne(value); }
  }

  lemma RatioOne(value: nat)
    requires value > 0
    ensures value * MICRO / value == MICRO
  {
    var q := value * MICRO / value;
    var r := value * MICRO % value;
    assert value * MICRO == value * q + r;
    assert value * (MICRO - q) == r;
    if MICRO - q >= 1 { MulLe(value, 1, MICRO - q); }
    if MICRO - q <= -1 { MulLe(value, MICRO - q, -1); }
  }

  /** A position is never closed for more than its size, and entirely when its whole value is taken. */
  lemma CloseSizeBounded(size: int, amount: nat, value: nat)
    requires amount <= value && value > 0
    ensures 0 <= CloseSize(size, amount, value) <= Abs(size)
    ensures amount == value ==> CloseSize(size, amount, value) == Abs(size)
  {
    var q := amount * MICRO / value;
    RatioBounded(amount, value);
    MulLe(Abs(size), 0, q * 100);
    MulLe(Abs(size), q * 100, UNIT);
  }

  lemma NotionalFloor(size: int, price: nat)
    ensures var n := Notional(size, price); n >= 0 && Abs(size) * price < (n + 1) * 10_000_000_000
  {
    var x := Abs(size) * price;
    MulLe(Abs(size), 0, price);
    assert 0 <= x;
    var n := x / UNIT / 100;
    assert n * 100 <= x / UNIT < n * 100 + 100;
    assert (x / UNIT) * UNIT <= x < (x / UNIT) * UNIT + UNIT;
  }

  lemma NotionalAtMost(size: int, price: nat, m: nat)
    requires Abs(size) * price < (m + 1) * 10_000_000_000
    ensures Notional(size, price) <= m
  {
    var x := Abs(size) * price;
    MulLe(Abs(size), 0, price);
    var n := x / UNIT / 100;
    assert n * 100 <= x / UNIT;
    assert (x / UNIT) * UNIT <= x;
  }

  lemma SwapFactors(a: int, b: int, c: int)
    ensures a * (b * c) == c * (b * a)
  {
  }

  lemma ScaledUp(size: nat, c: nat, amount: nat, value: nat, price: nat)
    requires c * value <= size * amount
    ensures value * (c * price) <= amount * (size * price)
  {
    MulLe(price, c * value, size * amount);
    SwapFactors(price, c, value);
    SwapFactors(price, size, amount);
  }

  lemma ScaledDown(x: nat, amount: nat, value: nat, k: nat)
    requires 0 < amount <= value && x < (value + 1) * k
    ensures amount * x < value * ((amount + 1) * k)
  {
    MulLe(amount, x + 1, (value + 1) * k);
    assert amount * (x + 1) == amount * x + amount;
    assert amount * ((value + 1) * k) == (amount * value) * k + amount * k;
    assert value * ((amount + 1) * k) == (amount * value) * k + value * k;
    MulLe(k, amount, value);
  }

  lemma Scaled(size: nat, c: nat, amount: nat, value: nat, price: nat)
    requires value > 0 && 0 < amount <= value
    requires c * value <= size * amount && size * price < (value + 1) * 10_000_000_000
    ensures c * price < (amount + 1) * 10_000_000_000
  {
    ScaledUp(size, c, amount, value, price);
    ScaledDown(size * price, amount, value, 10_000_000_000);
    MulLt(value, c * price, (amount + 1) * 10_000_000_000);
  }

  lemma FloorTwice(s: nat, q: nat, c: nat)
    requires c == s * (q * 100) / UNIT
    ensures c * MICRO <= s * q < (c + 1) * MICRO
  {
    assert s * (q * 100) == 100 * (s * q);
    assert c * UNIT <= s * (q * 100) < c * UNIT + UNIT;
  }

  /** A partial close takes the proportional share of the position but for the two truncations: the ratio falls short
      by less than one part in a million, and the size by less than one unit. */
  lemma CloseSizeAtLeast(size: int, amount: nat, value: nat)
    requires 0 < amount <= value
    ensures Abs(size) * (amount * MICRO - value) <= (CloseSize(size, amount, value) + 1) * value * MICRO
    ensures CloseSize(size, amount, value) * value <= Abs(size) * amount
  {
    var s, q := Abs(size), amount * MICRO / value;
    var c := CloseSize(size, amount, value);
    CloseShare(size, amount, value);
    RatioBounded(amount, value);
    CloseSizeBounded(size, amount, value);
    MulLe(s, 0, q * 100);
    FloorTwice(s, q, c);
    assert amount * MICRO == value * q + amount * MICRO % value;
    MulLe(s, amount * MICRO - value, value * q);
    assert s * (value * q) == value * (s * q);
    MulLe(value, s * q, (c + 1) * MICRO);
    assert value * ((c + 1) * MICRO) == (c + 1) * value * MICRO;
  }

  /** Nothing at all is closed exactly when the size times the truncated ratio is less than one. */
  lemma ClosesNothingIff(size: int, amount: nat, value: nat)
    requires 0 < amount <= value
    ensures CloseSize(size, amount, value) == 0 <==> Abs(size) * (amount * MICRO / value) < MICRO
  {
    var s, q := Abs(size), amount * MICRO / value;
    RatioBounded(amount, value);
    CloseSizeBounded(size, amount, value);
    MulLe(s, 0, q * 100);
    FloorTwice(s, q, CloseSize(size, amount, value));
  }

  /** The value of a position in money is its size times the price, rounded down. */
  lemma NotionalExact(size: int, price: nat)
    ensures var x := (if size < 0 then -size else size) * price; var n := Notional(size, price);
      n * 10_000_000_000 <= x < (n + 1) * 10_000_000_000
  {
    NotionalFloor(size, price);
    var x := Abs(size) * price;
    MulLe(Abs(size), 0, price);
    var n := x / UNIT / 100;
    assert n * 100 <= x / UNIT;
    assert (x / UNIT) * UNIT <= x;
  }

  lemma CloseShare(size: int, amount: nat, value: nat)
    requires 0 < amount <= value
    ensures CloseSize(size, amount, value) * value <= Abs(size) * amount
  {
    var s, q := Abs(size), amount * MICRO / value;
    RatioBounded(amount, value);
    CloseSizeBounded(size, amount, value);
    var c := CloseSize(size, amount, value);
    MulLe(s, 0, q * 100);
    assert c == s * (q * 100) / UNIT;
    assert c * UNIT <= s * (q * 100);
    assert s * (q * 100) == 100 * (s * q);
    assert c * MICRO <= s * q;
    MulLe(value, c * MICRO, s * q);
    MulLe(s, value * q, amount * MICRO);
    assert value * (s * q) == s * (value * q);
    assert s * (amount * MICRO) == MICRO * (s * amount);
    assert value * (c * MICRO) == MICRO * (c * value);
  }

  /** What is closed is worth no more than what is credited for it. */
  lemma ClosedWorthAtMost(size: int, price: nat, amount: nat)
    requires 0 < amount <= Notional(size, price)
    ensures Notional(CloseSize(size, amount, Notional(size, price)), price) <= amount
  {
    var value := Notional(size, price);
    var c := CloseSize(size, amount, value);
    CloseSizeBounded(size, amount, value);
    CloseShare(size, amount, value);
    NotionalFloor(size, price);
    Scaled(Abs(size), c, amount, value, price);
    NotionalAtMost(c, price, amount);
  }

  // ---- The loop over candidates ----

  datatype Taken = Taken(account: Account, amount: int, size: int)

  datatype State = State(positions: map<Account, int>, remaining: int, taken: seq<Taken>)

  function SizeOf(s: State, a: Account): int { if a in s.positions then s.positions[a] else 0 }

  function Value(s: State, a: Account, price: int): int { Notional(SizeOf(s, a), price) }

  function Amount(s: State, a: Account, price: int): int { Min(s.remaining, Value(s, a, price)) }

  /** One candidate: skipped if it has no position, no value, or too little to close. */
  function Deleverage1(s: State, a: Account, price: int): State {
    var size, value := SizeOf(s, a), Value(s, a, price);
    if size == 0 || value == 0 then s
    else
      var amount := Amount(s, a, price);
      var part := CloseSize(size, amount, value);
      if part == 0 then s
      else State(s.positions[a := Reduced(size, part)], s.remaining - amount, s.taken + [Taken(a, amount, part)])
  }

  /** The candidates in order, until nothing remains. */
  function Deleverage(s: State, candidates: seq<Account>, price: int): State {
    if candidates == [] then s
    else
      var n := |candidates| - 1;
      var before := Deleverage(s, candidates[..n], price);
      if before.remaining <= 0 then before else Deleverage1(before, candidates[n], price)
  }

  function TotalTaken(taken: seq<Taken>): int {
    if taken == [] then 0 else TotalTaken(taken[..|taken| - 1]) + taken[|taken| - 1].amount
  }

  /** Between zero and what it was. */
  predicate Shrunk(now: int, was: int) { (0 <= now <= was) || (was <= now <= 0) }

  /** `sub` is `all` with some elements left out. */
  predicate Within(sub: seq<Account>, all: seq<Account>) {
    if sub == [] then true
    else if all == [] then false
    else if sub[|sub| - 1] == all[|all| - 1] then Within(sub[..|sub| - 1], all[..|all| - 1])
    else Within(sub, all[..|all| - 1])
  }

  function Accounts(taken: seq<Taken>): (r: seq<Account>)
    ensures |r| == |taken|
  {
    seq(|taken|, i requires 0 <= i < |taken| => taken[i].account)
  }

  ghost predicate Conserves(s0: State, s: State) {
    && s.remaining + TotalTaken(s.taken) == s0.remaining + TotalTaken(s0.taken)
    && (0 <= s0.remaining ==> 0 <= s.remaining <= s0.remaining)
  }

  /** No position grows or changes side, and none is opened. */
  ghost predicate OnlyShrinks(s0: State, s: State) {
    s.positions.Keys == s0.positions.Keys && forall a :: Shrunk(SizeOf(s, a), SizeOf(s0, a))
  }

  lemma ShrinksOn(s: State, t: State, u: State)
    requires OnlyShrinks(s, t) && OnlyShrinks(t, u)
    ensures OnlyShrinks(s, u)
  {
    forall a ensures Shrunk(SizeOf(u, a), SizeOf(s, a)) {
      assert Shrunk(SizeOf(u, a), SizeOf(t, a)) && Shrunk(SizeOf(t, a), SizeOf(s, a));
    }
  }

  lemma StepFair(s: State, a: Account, price: nat)
    requires s.remaining > 0
    ensures Conserves(s, Deleverage1(s, a, price)) && OnlyShrinks(s, Deleverage1(s, a, price))
    ensures var t := Deleverage1(s, a, price);
      t.taken != s.taken ==>
        && SizeOf(s, a) != 0 && 0 < Amount(s, a, price) <= Value(s, a, price)
        && t.remaining == s.remaining - Amount(s, a, price) && (t.remaining > 0 ==> SizeOf(t, a) == 0)
  {
    var size, value, t := SizeOf(s, a), Value(s, a, price), Deleverage1(s, a, price);
    NotionalFloor(size, price);
    if size != 0 && value != 0 {
      CloseSizeBounded(size, Amount(s, a, price), value);
      assert t.taken != s.taken ==> t.taken[..|t.taken| - 1] == s.taken;
    }
  }

  /** The ratio closes nothing of the position. */
  predicate TooSmall(size: int, amount: nat, value: nat)
    requires value > 0
  {
    Abs(size) * (amount * MICRO / value) < MICRO
  }

  /** What happens to a candidate that has value, while a deficit remains: it is credited the deficit or its whole value,
      whichever is less; its position loses the proportional share, but for the truncations, and all of it for its
      whole value; nobody else's changes. Only if that share rounds to nothing is it passed over. */
  lemma CandidateTaken(s: State, a: Account, price: nat)
    requires s.remaining > 0 && SizeOf(s, a) != 0 && Notional(SizeOf(s, a), price) > 0
    ensures var size, value, t := SizeOf(s, a), Notional(SizeOf(s, a), price), Deleverage1(s, a, price);
      var amount := if s.remaining <= value then s.remaining else value;
      var part := Abs(size) - Abs(SizeOf(t, a));
      if TooSmall(size, amount, value) then t == s
      else
        && t.remaining == s.remaining - amount && t.taken == s.taken + [Taken(a, amount, part)]
        && t.positions == s.positions[a := SizeOf(t, a)] && Shrunk(SizeOf(t, a), size) && part > 0
        && Abs(size) * (amount * MICRO - value) <= (part + 1) * value * MICRO && part * value <= Abs(size) * amount
        && (amount == value ==> SizeOf(t, a) == 0)
  {
    var size, value := SizeOf(s, a), Notional(SizeOf(s, a), price);
    var amount := if s.remaining <= value then s.remaining else value;
    CloseSizeBounded(size, amount, value);
    ClosesNothingIff(size, amount, value);
    CloseSizeAtLeast(size, amount, value);
  }

  /** Money is conserved, the deficit never turns into a surplus, and no position grows or changes side. */
  lemma {:induction false} NeverOverCollects(s: State, candidates: seq<Account>, price: nat)
    ensures Conserves(s, Deleverage(s, candidates, price)) && OnlyShrinks(s, Deleverage(s, candidates, price))
  {
    if candidates != [] {
      var n := |candidates| - 1;
      NeverOverCollects(s, candidates[..n], price);
      var before := Deleverage(s, candidates[..n], price);
      if before.remaining > 0 {
        StepFair(before, candidates[n], price);
        ShrinksOn(s, before, Deleverage1(before, candidates[n], price));
      }
    }
  }

  /** Accounts are taken in the order of the candidates, each at most as often as it is listed. */
  lemma {:induction false} TakenInOrder(s: State, candidates: seq<Account>, price: int)
    requires s.taken == []
    ensures Within(Accounts(Deleverage(s, candidates, price).taken), candidates)
  {
    if candidates == [] {
      assert Accounts(s.taken) == [];
    } else {
      var n := |candidates| - 1;
      var before, after := Deleverage(s, candidates[..n], price), Deleverage(s, candidates, price);
      TakenInOrder(s, candidates[..n], price);
      if after.taken == before.taken {
        WithinMore(Accounts(before.taken), candidates);
      } else {
        assert Accounts(after.taken) == Accounts(before.taken) + [candidates[n]];
        assert Accounts(after.taken)[..|before.taken|] == Accounts(before.taken);
      }
    }
  }

  lemma {:induction false} WithinMore(sub: seq<Account>, all: seq<Account>)
    requires all != [] && Within(sub, all[..|all| - 1])
    ensures Within(sub, all)
    decreases |all|, 0
  {
    if sub != [] && sub[|sub| - 1] == all[|all| - 1] {
      var all' := all[..|all| - 1];
      WithinLess(sub, all');
    }
  }

  lemma {:induction false} WithinLess(sub: seq<Account>, all: seq<Account>)
    requires sub != [] && Within(sub, all)
    ensures Within(sub[..|sub| - 1], all)
    decreases |all|, 1
  {
    if sub[|sub| - 1] == all[|all| - 1] {
      WithinMore(sub[..|sub| - 1], all);
    } else {
      WithinLess(sub, all[..|all| - 1]);
      WithinMore(sub[..|sub| - 1], all);
    }
  }

  lemma DivMonotone(x: nat, y: nat, d: nat)
    requires x <= y && d > 0
    ensures x / d <= y / d
  {
    var p, q := x / d, y / d;
    assert d * p <= x && y < d * q + d;
    assert d * (q + 1) == d * q + d;
    MulLt(d, p, q + 1);
  }

  /** The position is closed, or untouched because the deficit is too small a part of its value to close any of
      it at the precision of the ratio. */
  ghost predicate ClosedOrTooSmall(s: State, a: Account, price: nat, size: int) {
    SizeOf(s, a) == 0 ||
    (SizeOf(s, a) == size && 0 < s.remaining < Notional(size, price) &&
     Abs(size) * (s.remaining * MICRO / Notional(size, price)) < MICRO)
  }

  /** If some deficit remains, every candidate that had value is closed entirely, or the deficit that remains is
      too small to close any of it. */
  lemma {:induction false} DeficitLeftMeans(s: State, candidates: seq<Account>, price: nat, i: nat)
    requires s.remaining > 0 && i < |candidates| && Deleverage(s, candidates, price).remaining > 0
    requires Notional(SizeOf(s, candidates[i]), price) > 0
    ensures ClosedOrTooSmall(Deleverage(s, candidates, price), candidates[i], price, SizeOf(s, candidates[i]))
  {
    var n, a := |candidates| - 1, candidates[i];
    var before, after := Deleverage(s, candidates[..n], price), Deleverage(s, candidates, price);
    StepFair(before, candidates[n], price);
    if i < n {
      DeficitLeftMeans(s, candidates[..n], price, i);
      StaysTooSmall(before, candidates[n], a, price, SizeOf(s, a));
    } else {
      UntouchedOrClosed(s, candidates[..n], price, a);
      ClosedWhenLeft(before, a, price);
    }
  }

  lemma StaysTooSmall(s: State, b: Account, a: Account, price: nat, size: int)
    requires s.remaining > 0 && Deleverage1(s, b, price).remaining > 0 && ClosedOrTooSmall(s, a, price, size)
    requires Notional(size, price) > 0
    ensures ClosedOrTooSmall(Deleverage1(s, b, price), a, price, size)
  {
    var t := Deleverage1(s, b, price);
    StepFair(s, b, price);
    assert Shrunk(SizeOf(t, a), SizeOf(s, a));
    if SizeOf(s, a) != 0 {
      DivMonotone(t.remaining * MICRO, s.remaining * MICRO, Notional(size, price));
      MulLe(Abs(size), t.remaining * MICRO / Notional(size, price), s.remaining * MICRO / Notional(size, price));
    }
  }

  lemma ClosedWhenLeft(s: State, a: Account, price: nat)
    requires s.remaining > 0 && Deleverage1(s, a, price).remaining > 0
    requires SizeOf(s, a) != 0 ==> Value(s, a, price) > 0
    ensures ClosedOrTooSmall(Deleverage1(s, a, price), a, price, SizeOf(s, a))
  {
    if SizeOf(s, a) != 0 {
      CloseSizeBounded(SizeOf(s, a), Amount(s, a, price), Value(s, a, price));
      ClosesNothingIff(SizeOf(s, a), Amount(s, a, price), Value(s, a, price));
      StepFair(s, a, price);
    }
  }

  /** While deficit remains, a position is either as it was or closed. */
  lemma {:induction false} UntouchedOrClosed(s: State, candidates: seq<Account>, price: nat, a: Account)
    requires Deleverage(s, candidates, price).remaining > 0
    ensures var t := Deleverage(s, candidates, price); SizeOf(t, a) == SizeOf(s, a) || SizeOf(t, a) == 0
  {
    if candidates != [] {
      var n := |candidates| - 1;
      var before := Deleverage(s, candidates[..n], price);
      if before.remaining > 0 {
        StepFair(before, candidates[n], price);
        UntouchedOrClosed(s, candidates[..n], price, a);
      }
    }
  }

  /** Each counterparty is credited something, and what it loses is worth no more than that. */
  lemma {:induction false} TakenAtWorth(s: State, candidates: seq<Account>, price: nat)
    requires s.taken == []
    ensures forall i :: 0 <= i < |Deleverage(s, candidates, price).taken| ==>
      var t := Deleverage(s, candidates, price).taken[i]; 0 < t.amount && 0 < t.size && Notional(t.size, price) <= t.amount
  {
    if candidates != [] {
      var n := |candidates| - 1;
      TakenAtWorth(s, candidates[..n], price);
      var before, after := Deleverage(s, candidates[..n], price), Deleverage(s, candidates, price);
      if after.taken != before.taken {
        var a := candidates[n];
        StepFair(before, a, price);
        CloseSizeBounded(SizeOf(before, a), Amount(before, a, price), Value(before, a, price));
        ClosedWorthAtMost(SizeOf(before, a), price, Amount(before, a, price));
      }
    }
  }

  lemma FullRatio(v: int)
    requires v < 0
    ensures Quotient(v * MICRO, v) == MICRO
  {
    assert -(v * MICRO) == (-v) * MICRO;
    RatioOne(-v);
  }

  /** At a negative price a position has negative value, and taking it makes the deficit larger: the deficit
      shrinks or stays exactly when the value is not negative. */
  lemma DeficitShrinksIff(s: State, a: Account, price: int)
    requires s.remaining > 0 && SizeOf(s, a) != 0
    ensures Deleverage1(s, a, price).remaining <= s.remaining <==> Value(s, a, price) >= 0
  {
    var value := Value(s, a, price);
    if value < 0 {
      FullRatio(value);
      assert CloseSize(SizeOf(s, a), value, value) == Abs(SizeOf(s, a));
    }
  }

  // ---- Ranking the candidates ----

  /** No account twice, and scores never increase. */
  ghost predicate Ranked(score: Account -> int, all: seq<Account>) {
    all != [] ==>
      var n := |all| - 1;
      Ranked(score, all[..n]) && forall x :: x in all[..n] ==> score(x) >= score(all[n]) && x != all[n]
  }

  ghost predicate RankedFromFront(score: Account -> int, all: seq<Account>) {
    all != [] ==>
      RankedFromFront(score, all[1..]) && forall x :: x in all[1..] ==> score(all[0]) >= score(x) && x != all[0]
  }

  lemma {:induction false} FrontToBack(score: Account -> int, all: seq<Account>)
    requires RankedFromFront(score, all)
    ensures Ranked(score, all)
    decreases |all|
  {
    if all != [] {
      var n := |all| - 1;
      FrontButLast(score, all);
      FrontToBack(score, all[..n]);
    }
  }

  lemma {:induction false} FrontButLast(score: Account -> int, all: seq<Account>)
    requires RankedFromFront(score, all) && all != []
    ensures var n := |all| - 1;
      RankedFromFront(score, all[..n]) && forall x :: x in all[..n] ==> score(x) >= score(all[n]) && x != all[n]
  {
    var n := |all| - 1;
    if n > 0 {
      FrontButLast(score, all[1..]);
      var front := all[..n];
      assert front[1..] == all[1..][..n - 1];
      assert front == [all[0]] + front[1..];
      assert all[1..][n - 1] == all[n];
      assert all[n] in all[1..];
    }
  }

  function PlaceByScore(score: Account -> int, a: Account, rest: seq<Account>): seq<Account> {
    if rest == [] || score(a) >= score(rest[0]) then [a] + rest else [rest[0]] + PlaceByScore(score, a, rest[1..])
  }

  /** Sort by score, highest first; equal scores keep their order. */
  function SortByScore(score: Account -> int, accounts: seq<Account>): seq<Account> {
    if accounts == [] then [] else PlaceByScore(score, accounts[0], SortByScore(score, accounts[1..]))
  }

  lemma {:induction false} PlaceRanks(score: Account -> int, a: Account, rest: seq<Account>)
    requires RankedFromFront(score, rest) && a !in rest
    ensures RankedFromFront(score, PlaceByScore(score, a, rest))
    ensures forall x :: x in PlaceByScore(score, a, rest) <==> x == a || x in rest
  {
    var r := PlaceByScore(score, a, rest);
    if rest == [] || score(a) >= score(rest[0]) {
      assert r[1..] == rest;
      if rest != [] { assert rest == [rest[0]] + rest[1..]; }
    } else {
      PlaceRanks(score, a, rest[1..]);
      assert r[1..] == PlaceByScore(score, a, rest[1..]);
      assert rest == [rest[0]] + rest[1..];
      assert r == [rest[0]] + r[1..];
    }
  }

  ghost predicate NoRepeats(accounts: seq<Account>) {
    accounts != [] ==> accounts[0] !in accounts[1..] && NoRepeats(accounts[1..])
  }

  lemma {:induction false} SortRanks(score: Account -> int, accounts: seq<Account>)
    requires NoRepeats(accounts)
    ensures RankedFromFront(score, SortByScore(score, accounts))
    ensures forall x :: x in SortByScore(score, accounts) <==> x in accounts
  {
    if accounts != [] {
      SortRanks(score, accounts[1..]);
      assert accounts == [accounts[0]] + accounts[1..];
      PlaceRanks(score, accounts[0], SortByScore(score, accounts[1..]));
    }
  }

  lemma {:induction false} WithinIn(sub: seq<Account>, all: seq<Account>, x: Account)
    requires Within(sub, all) && x in sub
    ensures x in all
    decreases |all|
  {
    var m := |sub| - 1;
    if sub[m] == all[|all| - 1] {
      if x != sub[m] { WithinIn(sub[..m], all[..|all| - 1], x); }
    } else {
      WithinIn(sub, all[..|all| - 1], x);
    }
  }

  lemma {:induction false} WithinRanked(score: Account -> int, sub: seq<Account>, all: seq<Account>)
    requires Within(sub, all) && Ranked(score, all)
    ensures Ranked(score, sub)
    decreases |all|
  {
    if sub != [] {
      var m, n := |sub| - 1, |all| - 1;
      if sub[m] == all[n] {
        WithinRanked(score, sub[..m], all[..n]);
        forall x | x in sub[..m] ensures score(x) >= score(sub[m]) && x != sub[m] { WithinIn(sub[..m], all[..n], x); }
      } else {
        WithinRanked(score, sub, all[..n]);
      }
    }
  }

  /** The profitable accounts among those enumerated. */
  function Candidates(score: Account -> int, positions: map<Account, int>, order: seq<Account>): seq<Account> {
    if order == [] then []
    else
      var n := |order| - 1;
      Candidates(score, positions, order[..n]) +
      if order[n] in positions && positions[order[n]] != 0 && score(order[n]) > 0 then [order[n]] else []
  }

  lemma {:induction false} CandidatesIn(score: Account -> int, positions: map<Account, int>, order: seq<Account>)
    ensures forall x :: x in Candidates(score, positions, order) <==>
      x in order && x in positions && positions[x] != 0 && score(x) > 0
  {
    if order != [] {
      CandidatesIn(score, positions, order[..|order| - 1]);
      assert order == order[..|order| - 1] + [order[|order| - 1]];
    }
  }

  lemma {:induction false} NoRepeatsMore(accounts: seq<Account>, a: Account)
    requires NoRepeats(accounts) && a !in accounts
    ensures NoRepeats(accounts + [a])
  {
    if accounts != [] {
      NoRepeatsMore(accounts[1..], a);
      assert (accounts + [a])[1..] == accounts[1..] + [a];
    } else {
      assert (accounts + [a])[1..] == [];
    }
  }

  /** No account is enumerated twice. */
  ghost predicate EnumeratedOnce(order: seq<Account>) {
    order != [] ==>
      var n := |order| - 1;
      order[n] !in order[..n] && EnumeratedOnce(order[..n])
  }

  lemma {:induction false} CandidatesOnce(score: Account -> int, positions: map<Account, int>, order: seq<Account>)
    requires EnumeratedOnce(order)
    ensures NoRepeats(Candidates(score, positions, order))
  {
    if order != [] {
      var n := |order| - 1;
      CandidatesOnce(score, positions, order[..n]);
      CandidatesIn(score, positions, order[..n]);
      var front := Candidates(score, positions, order[..n]);
      NoRepeatsMore(front, order[n]);
      assert front + [] == front;
    }
  }

  /** Accounts are taken in the order of their scores, each at most once, and only profitable ones. */
  lemma TakenByScore(score: Account -> int, positions: map<Account, int>, order: seq<Account>, deficit: int, price: int)
    requires EnumeratedOnce(order)
    ensures var ranked := SortByScore(score, Candidates(score, positions, order));
      var accounts := Accounts(Deleverage(State(positions, deficit, []), ranked, price).taken);
      && Ranked(score, accounts)
      && forall a :: a in accounts ==> a in positions && positions[a] != 0 && score(a) > 0
  {
    var s := State(positions, deficit, []);
    var found := Candidates(score, positions, order);
    var ranked := SortByScore(score, found);
    var accounts := Accounts(Deleverage(s, ranked, price).taken);
    CandidatesOnce(score, positions, order);
    CandidatesIn(score, positions, order);
    SortRanks(score, found);
    FrontToBack(score, ranked);
    TakenInOrder(s, ranked, price);
    WithinRanked(score, accounts, ranked);
    forall a | a in accounts ensures a in ranked { WithinIn(accounts, ranked, a); }
  }

  // ---- The loops ----

  lemma {:induction false} DeleverageDone(s: State, candidates: seq<Account>, price: int, k: nat)
    requires k <= |candidates| && Deleverage(s, candidates[..k], price).remaining <= 0
    ensures Deleverage(s, candidates, price) == Deleverage(s, candidates[..k], price)
    decreases |candidates|
  {
    if k < |candidates| {
      var front := candidates[..|candidates| - 1];
      assert front[..k] == candidates[..k];
      DeleverageDone(s, front, price, k);
    } else {
      assert candidates[..k] == candidates;
    }
  }

  /** Find the profitable positions, rank them, and close them one by one until the deficit is covered. The
      score of an account is that of its position before anything is closed. */
  method TriggerAdl(positions: map<Account, int>, order: seq<Account>, score: Account -> int, deficit: int, price: int)
    returns (s: State)
    ensures s == Deleverage(State(positions, deficit, []), SortByScore(score, Candidates(score, positions, order)), price)
  {
    var found: seq<Account> := [];
    for i := 0 to |order|
      invariant found == Candidates(score, positions, order[..i])
    {
      assert order[..i + 1][..i] == order[..i];
      var a := order[i];
      if a in positions && positions[a] != 0 && score(a) > 0 {
        found := found + [a];
      }
    }
    assert order[..|order|] == order;
    var ranked := SortByScore(score, found);
    s := State(positions, deficit, []);
    ghost var start := s;
    for i := 0 to |ranked|
      invariant s == Deleverage(start, ranked[..i], price)
    {
      assert ranked[..i + 1][..i] == ranked[..i];
      if s.remaining <= 0 {
        DeleverageDone(start, ranked, price, i);
        return;
      }
      var size := SizeOf(s, ranked[i]);
      if size == 0 {
        continue;
      }
      var value := Notional(size, price);
      var amount := if s.remaining <= value then s.remaining else value;
      if value == 0 {
        continue;
      }
      var part := CloseSize(size, amount, value);
      if part == 0 {
        continue;
      }
      s := State(s.positions[ranked[i] := Reduced(size, part)], s.remaining - amount,
                 s.taken + [Taken(ranked[i], amount, part)]);
    }
    assert ranked[..|ranked|] == ranked;
  }
}

/** Mark-price smoothing: nine tenths of the old mark plus one tenth of the trade price, each
    product truncated toward zero. */
module MarkPrice {

  function TruncDiv(a: int, b: int): int
    requires b > 0
  {
    if a >= 0 then a / b else -((-a) / b)
  }

  /** The first trade sets the mark; later trades are averaged in. */
  function Smooth(mark: int, trade: int): int {
    if mark == 0 then trade else TruncDiv(mark * 9, 10) + TruncDiv(trade, 10)
  }

  function SmoothAll(mark: int, trades: seq<int>): int
    decreases trades
  {
    if trades == [] then mark else SmoothAll(Smooth(mark, trades[0]), trades[1..])
  }

  /** Floor of the band that truncation can reach: `lo` rounded down to a multiple of ten. */
  function Floor(lo: int): int { 10 * (lo / 10) }

  lemma SmoothBounded(mark: int, trade: int, lo: int, hi: int)
    requires 0 <= lo <= trade <= hi && Floor(lo) <= mark <= hi
    ensures Floor(lo) <= Smooth(mark, trade) <= hi
  {
    if mark != 0 {
      var c := lo / 10;
      var r := mark - 10 * c;
      assert mark * 9 == 10 * (9 * c) + 9 * r;
      assert mark * 9 / 10 >= 9 * c;
      assert trade / 10 >= c;
    }
  }

  /** Over any number of trades priced in [lo, hi] the mark stays in [Floor(lo), hi]; it is below
      `lo` by at most nine units, never more. */
  lemma {:induction false} MarkBounded(mark: int, trades: seq<int>, lo: int, hi: int)
    requires 0 <= lo <= hi && (mark == 0 || Floor(lo) <= mark <= hi)
    requires forall i :: 0 <= i < |trades| ==> lo <= trades[i] <= hi
    ensures var m := SmoothAll(mark, trades); (m == 0 && mark == 0) || Floor(lo) <= m <= hi
    ensures lo - 9 <= Floor(lo)
    decreases trades
  {
    if trades != [] {
      assert lo <= trades[0] <= hi;
      if mark == 0 {
        assert Floor(lo) <= Smooth(mark, trades[0]);
      } else {
        SmoothBounded(mark, trades[0], lo, hi);
      }
      MarkBounded(Smooth(mark, trades[0]), trades[1..], lo, hi);
    }
  }

  function Repeat(x: int, n: nat): seq<int> {
    if n == 0 then [] else [x] + Repeat(x, n - 1)
  }

  /** The band is tight: trades that all print at `lo` pull any mark above the floor down to
      exactly the floor. */
  lemma {:induction false} FloorReached(mark: int, lo: int)
    requires 10 <= lo && Floor(lo) <= mark
    ensures SmoothAll(mark, Repeat(lo, mark - Floor(lo))) == Floor(lo)
    decreases mark - Floor(lo)
  {
    var r := mark - Floor(lo);
    if r > 0 {
      var next := Smooth(mark, lo);
      SmoothStep(mark, lo);
      assert Repeat(lo, r)[1..] == Repeat(lo, r - 1);
      FloorReached(next, lo);
      Settled(lo, r - 1 - (next - Floor(lo)));
      RepeatSplit(lo, next - Floor(lo), r - 1 - (next - Floor(lo)));
      SmoothAllSplit(next, Repeat(lo, next - Floor(lo)), Repeat(lo, r - 1 - (next - Floor(lo))));
    }
  }

  lemma SmoothStep(mark: int, lo: int)
    requires 10 <= lo && Floor(lo) < mark
    ensures Floor(lo) <= Smooth(mark, lo) < mark
  {
    var c := lo / 10;
    var r := mark - 10 * c;
    assert mark * 9 == 10 * (9 * c) + 9 * r;
    assert mark * 9 / 10 == 9 * c + 9 * r / 10;
  }

  lemma {:induction false} Settled(lo: int, n: nat)
    requires 10 <= lo
    ensures SmoothAll(Floor(lo), Repeat(lo, n)) == Floor(lo)
  {
    if n > 0 {
      assert Repeat(lo, n)[1..] == Repeat(lo, n - 1);
      assert Floor(lo) * 9 / 10 == 9 * (lo / 10);
      Settled(lo, n - 1);
    }
  }

  lemma {:induction false} RepeatSplit(x: int, m: nat, n: nat)
    ensures Repeat(x, m + n) == Repeat(x, m) + Repeat(x, n)
  {
    if m > 0 { RepeatSplit(x, m - 1, n); }
  }

  lemma {:induction false} SmoothAllSplit(mark: int, a: seq<int>, b: seq<int>)
    ensures SmoothAll(mark, a + b) == SmoothAll(SmoothAll(mark, a), b)
    decreases a
  {
    if a == [] {
      assert a + b == b;
    } else {
      assert (a + b)[1..] == a[1..] + b;
      SmoothAllSplit(Smooth(mark, a[0]), a[1..], b);
    }
  }
}

/** Where each field stands in the bytes that are written, hashed and committed, byte by byte. */
module Layouts {
  import opened Options
  import opened Bytes
  import opened Merkle
  import opened StateRoots
  import opened Tables
  import opened AppHash
  import ProofBytes
  import Wal

  // ---- Numbers ----

  lemma DivTwice(n: nat, d: nat)
    requires d > 0
    ensures n / 256 / d == n / (256 * d)
  {
    var q, r := n / 256 / d, n / 256 % d;
    assert n / 256 == q * d + r;
    assert n == 256 * (q * d + r) + n % 256;
    assert 256 * (q * d) == q * (256 * d);
    DivideBetween(n, 256 * d, q);
  }

  /** Byte `i` of a number is its digit for 256 to the `i`, least significant first. */
  lemma {:induction false} Digit(n: nat, k: nat, i: nat)
    requires i < k
    ensures ToLe(n, k)[i] == n / Pow256(i) % 256
  {
    if i > 0 {
      Digit(n / 256, k - 1, i - 1);
      DivTwice(n, Pow256(i - 1));
    }
  }

  lemma FourDigits(n: nat)
    ensures ToLe(n, 4) == [n % 256, n / 256 % 256, n / 65536 % 256, n / 16777216 % 256]
  {
    assert Pow256(1) == 256 && Pow256(2) == 65536 && Pow256(3) == 16777216;
    Digit(n, 4, 0);
    Digit(n, 4, 1);
    Digit(n, 4, 2);
    Digit(n, 4, 3);
  }

  /** A signed number is its two's complement. */
  lemma SignedBytes(n: I128)
    ensures FromLe(I128Bytes(n)) == if n >= 0 then n else Pow256(16) + n
  {
    Width16();
    LeRoundTrip(Unsigned(n), 16);
  }

  // ---- Log records ----

  /** A record is its length in four bytes, least significant first, and then its body. */
  lemma RecordLayout(c: Wal.Codec, e: Wal.WalEntry)
    ensures var body, f := c.encode(e), Wal.Frame(c, e);
      && |f| == 4 + |body| && f[4..] == body
      && f[..4] == [|body| % 256, |body| / 256 % 256, |body| / 65536 % 256, |body| / 16777216 % 256]
  {
    FourDigits(|c.encode(e)|);
  }

  // ---- Trees ----

  /** Nodes are hashed left before right; a last one without a partner, with itself; nothing, as nothing. */
  lemma SmallTrees(h: Hasher, a: Digest, b: Digest, c: Digest)
    ensures RootOf(h, []) == h([]) && RootOf(h, [a]) == h(a + a) && RootOf(h, [a, b]) == h(a + b)
    ensures RootOf(h, [a, b, c]) == h(h(a + b) + h(c + c))
  {
    var one, two, three := [a], [a, b], [a, b, c];
    PairHash(h, one, 0);
    PairHash(h, two, 0);
    PairHash(h, three, 0);
    PairHash(h, three, 1);
    var next := NextLevel(h, three);
    assert next == [h(a + b), h(c + c)];
    PairHash(h, next, 0);
    assert Root(h, three) == Root(h, next) == NextLevel(h, next)[0];
  }

  lemma PairHash(h: Hasher, xs: seq<Digest>, i: nat)
    requires 2 * i < |xs|
    ensures var left: seq<Byte>, right: seq<Byte> := xs[2 * i], if 2 * i + 1 < |xs| then xs[2 * i + 1] else xs[2 * i];
      NextLevel(h, xs)[i] == h(left + right)
  {
    var left: seq<Byte>, right: seq<Byte> := xs[2 * i], if 2 * i + 1 < |xs| then xs[2 * i + 1] else xs[2 * i];
    assert PairInput(xs, i) == left + right;
  }

  /** A step hashes its sibling on the side it names. */
  lemma StepSides(h: Hasher, x: Digest, s: Digest)
    ensures Fold(h, x, [Step(s, Left)]) == h(s + x) && Fold(h, x, [Step(s, Right)]) == h(x + s)
  {
  }

  /** The proof of an even leaf starts with its right neighbour, or itself if it is the last; of an odd one, with the
      left neighbour. */
  lemma FirstStep(h: Hasher, xs: seq<Digest>, i: nat)
    requires i < |xs|
    ensures Path(h, xs, i)[0] ==
      if i % 2 == 1 then Step(xs[i - 1], Left) else if i + 1 < |xs| then Step(xs[i + 1], Right) else Step(xs[i], Right)
  {
  }

  // ---- Proofs ----

  lemma {:induction false} StepsLayout(steps: seq<Step>, i: nat)
    requires i < |steps|
    ensures var bs := ProofBytes.StepsBytes(steps);
      bs[33 * i..33 * i + 32] == steps[i].sibling && bs[33 * i + 32] == if steps[i].direction == Left then 0 else 1
  {
    var bs := ProofBytes.StepsBytes(steps);
    if i > 0 {
      StepsLayout(steps[1..], i - 1);
      assert bs[33..] == ProofBytes.StepsBytes(steps[1..]);
      assert bs[33..][33 * (i - 1)..33 * (i - 1) + 32] == bs[33 * i..33 * i + 32];
    }
  }

  /** The leaf, the index and the number of siblings in four bytes each, then each sibling with the byte of its side. */
  lemma ProofLayout(p: Proof)
    ensures var bs := ProofBytes.Encoded(p);
      && |bs| == 40 + 33 * |Steps(p)| && bs[..32] == p.leaf
      && bs[32..36] == ToLe(p.index, 4) && bs[36..40] == ToLe(|p.siblings|, 4)
      && forall i :: 0 <= i < |Steps(p)| ==>
           && bs[40 + 33 * i..72 + 33 * i] == p.siblings[i]
           && bs[72 + 33 * i] == if p.directions[i] == Left then 0 else 1
  {
    var bs, steps := ProofBytes.Encoded(p), Steps(p);
    assert bs[40..] == ProofBytes.StepsBytes(steps);
    forall i | 0 <= i < |steps|
      ensures bs[40 + 33 * i..72 + 33 * i] == p.siblings[i] && bs[72 + 33 * i] == if p.directions[i] == Left then 0 else 1
    {
      StepsLayout(steps, i);
      assert bs[40..][33 * i..33 * i + 32] == bs[40 + 33 * i..72 + 33 * i];
    }
  }

  // ---- Table entries ----

  lemma BalanceLayout(k: BalanceKey, v: Balance)
    ensures var e := Entry(BALANCES, k, v);
      && |e| == 72 && e[..20] == k.owner && e[20..24] == ToLe(k.token, 4)
      && e[24..40] == I128Bytes(v.total) && e[40..56] == I128Bytes(v.coreView) && e[56..] == I128Bytes(v.evmView)
  {
  }

  lemma NonceLayout(k: Address, v: U64)
    ensures var e := Entry(NONCES, k, v); |e| == 28 && e[..20] == k && e[20..] == ToLe(v, 8)
  {
  }

  lemma PositionLayout(k: AccountMarket, v: Position)
    ensures var e := Entry(POSITIONS, k, v);
      && |e| == 85 && e[..20] == k.owner && e[20] == k.market
      && e[21..37] == I128Bytes(v.size) && e[37..53] == I128Bytes(v.entryNotional)
      && e[53..69] == I128Bytes(v.realizedPnl) && e[69..] == I128Bytes(v.lastFundingIndex)
  {
  }

  lemma OrderLayout(k: OrderKey, v: OrderRow)
    ensures var e := Entry(ORDERS, k, v);
      && |e| == 78 && e[0] == k.market && e[1..9] == ToLe(k.id, 8)
      && e[9..29] == v.owner && e[29] == (if v.side == Buy then 0 else 1)
      && e[30..46] == I128Bytes(v.price) && e[46..62] == I128Bytes(v.originalSize) && e[62..] == I128Bytes(v.remainingSize)
  {
  }

  lemma MarketLayout(k: Byte, v: MarketRow)
    ensures var e := Entry(MARKETS, k, v);
      && |e| == 81 && e[0] == k
      && e[1..17] == I128Bytes(v.markPrice) && e[17..33] == I128Bytes(v.indexPrice) && e[33..49] == I128Bytes(v.fundingRate)
      && e[49..65] == I128Bytes(v.openLong) && e[65..] == I128Bytes(v.openShort)
  {
  }

  lemma LeverageLayout(k: AccountMarket, v: Byte)
    ensures var e := Entry(LEVERAGE, k, v); |e| == 22 && e[..20] == k.owner && e[20] == k.market && e[21] == v
  {
  }

  // ---- The order of entries ----

  /** `a` comes before `b` at the first byte in which they differ. */
  ghost predicate Before(a: Address, b: Address) { exists p :: 0 <= p < 20 && a[..p] == b[..p] && a[p] < b[p] }

  lemma {:induction false} LexMeans(a: seq<Byte>, b: seq<Byte>)
    requires |a| == |b|
    ensures LexLess(a, b) <==> exists p :: 0 <= p < |a| && a[..p] == b[..p] && a[p] < b[p]
  {
    if a != [] {
      LexMeans(a[1..], b[1..]);
      if a[0] < b[0] { assert a[..0] == b[..0]; }
      if p :| 0 <= p < |a[1..]| && a[1..][..p] == b[1..][..p] && a[1..][p] < b[1..][p] {
        assert a[..p + 1] == [a[0]] + a[1..][..p] && b[..p + 1] == [b[0]] + b[1..][..p];
        assert a[0] == b[0] ==> a[..p + 1] == b[..p + 1] && a[p + 1] < b[p + 1];
      }
      if p :| 0 <= p < |a| && a[..p] == b[..p] && a[p] < b[p] {
        if p > 0 {
          assert a[0] == a[..p][0] && b[0] == b[..p][0];
          assert a[1..][..p - 1] == a[..p][1..] && b[1..][..p - 1] == b[..p][1..];
          assert a[1..][p - 1] < b[1..][p - 1];
        }
      }
    }
  }

  /** Balances stand by owner and token, nonces by owner, positions and leverage by owner and market, orders by market
      and id, markets by number; owners are compared byte by byte. */
  lemma KeyOrders()
    ensures forall x, y :: BALANCES.less(x, y) <==> Before(x.owner, y.owner) || (x.owner == y.owner && x.token < y.token)
    ensures forall x, y :: NONCES.less(x, y) <==> Before(x, y)
    ensures forall x, y :: POSITIONS.less(x, y) <==> Before(x.owner, y.owner) || (x.owner == y.owner && x.market < y.market)
    ensures forall x, y :: LEVERAGE.less(x, y) <==> Before(x.owner, y.owner) || (x.owner == y.owner && x.market < y.market)
    ensures forall x, y :: ORDERS.less(x, y) <==> x.market < y.market || (x.market == y.market && x.id < y.id)
    ensures forall x, y :: MARKETS.less(x, y) <==> x < y
  {
    forall a: Address, b: Address ensures LexLess(a, b) <==> Before(a, b) { LexMeans(a, b); }
  }

  lemma {:induction false} SortedPairs<K(!new)>(less: (K, K) -> bool, ks: seq<K>, i: nat, j: nat)
    requires StrictTotal(less) && SortedBy(less, ks) && i < j < |ks|
    ensures less(ks[i], ks[j])
    decreases |ks|
  {
    if i == 0 {
      FirstIsLeast(less, ks, ks[j]);
    } else {
      SortedPairs(less, ks[1..], i - 1, j - 1);
    }
  }

  /** The committed entries are those of the keys in that order. */
  lemma EntriesInOrder<K(!new), V(!new)>(s: Schema<K, V>, m: map<K, V>, ks: seq<K>, i: nat, j: nat) returns (x: K, y: K)
    requires LawfulSchema(s) && Enumerates(m, ks) && i < j < |Committed(s, m, ks)|
    ensures x in m && Committed(s, m, ks)[i] == Entry(s, x, m[x])
    ensures y in m && Committed(s, m, ks)[j] == Entry(s, y, m[y]) && s.less(x, y)
  {
    var sorted := Sort(s.less, ks);
    SortedKeysIn(s.less, m, ks);
    SortedPairs(s.less, sorted, i, j);
    x, y := sorted[i], sorted[j];
  }

  // ---- The application hash ----

  /** Two numbers in eight bytes each, the previous hash, the roots of balances, nonces, positions, orders, markets and
      leverage, two digests, and the EVM's if there is one. */
  lemma AppInputLayout(height: U64, timestamp: U64, previous: Digest, r: Roots, evm: Option<Digest>)
    ensures var bs := AppInput(height, timestamp, previous, r, evm);
      && |bs| == (if evm.None? then 304 else 336)
      && bs[..8] == ToLe(height, 8) && bs[8..16] == ToLe(timestamp, 8) && bs[16..48] == previous
      && bs[48..80] == r.balances && bs[80..112] == r.nonces && bs[112..144] == r.positions && bs[144..176] == r.orders
      && bs[176..208] == r.markets && bs[208..240] == r.leverage && bs[240..272] == r.scalars && bs[272..304] == r.cloids
      && (evm.Some? ==> bs[304..] == evm.value)
  {
    var front, tail := ToLe(height, 8) + ToLe(timestamp, 8) + previous, RootsBytes(r, evm);
    RootsLayout(r, evm);
    assert AppInput(height, timestamp, previous, r, evm) == front + tail;
    assert front[..8] == ToLe(height, 8) && front[8..16] == ToLe(timestamp, 8) && front[16..48] == previous;
    Fronts(front, tail);
    Behind(front, tail);
  }

  lemma Fronts(front: seq<Byte>, tail: seq<Byte>)
    requires |front| == 48
    ensures var bs := front + tail; bs[..8] == front[..8] && bs[8..16] == front[8..16] && bs[16..48] == front[16..48]
  {
  }

  lemma Behind(front: seq<Byte>, tail: seq<Byte>)
    requires |front| == 48 && |tail| >= 256
    ensures var bs := front + tail;
      && bs[48..80] == tail[..32] && bs[80..112] == tail[32..64] && bs[112..144] == tail[64..96]
      && bs[144..176] == tail[96..128] && bs[176..208] == tail[128..160] && bs[208..240] == tail[160..192]
      && bs[240..272] == tail[192..224] && bs[272..304] == tail[224..256] && bs[304..] == tail[256..]
  {
  }

  lemma RootsLayout(r: Roots, evm: Option<Digest>)
    ensures var bs := RootsBytes(r, evm);
      && |bs| == (if evm.None? then 256 else 288)
      && bs[..32] == r.balances && bs[32..64] == r.nonces && bs[64..96] == r.positions && bs[96..128] == r.orders
      && bs[128..160] == r.markets && bs[160..192] == r.leverage && bs[192..224] == r.scalars && bs[224..256] == r.cloids
      && (evm.Some? ==> bs[256..] == evm.value)
  {
  }
}

/** The tables of the chain state with their byte layouts, and the application hash over all of them. */
module Tables {
  import opened Bytes
  import opened Merkle
  import opened EntryTrees
  import opened StateRoots

  // ---- Fixed-width fields ----

  type Address = a: seq<Byte> | |a| == 20 witness seq(20, _ => 0)
  type U32 = n: nat | n < 0x1_0000_0000
  type U64 = n: nat | n < 0x1_0000_0000_0000_0000
  type I128 = n: int | -0x8000_0000_0000_0000_0000_0000_0000_0000 <= n < 0x8000_0000_0000_0000_0000_0000_0000_0000

  lemma Width8()
    ensures Pow256(8) == 0x1_0000_0000_0000_0000
  {
    Width4();
    assert Pow256(5) == 0x100_0000_0000 && Pow256(6) == 0x1_0000_0000_0000 && Pow256(7) == 0x100_0000_0000_0000;
  }

  lemma Width16()
    ensures Pow256(16) == 0x1_0000_0000_0000_0000_0000_0000_0000_0000
  {
    Width8();
    assert Pow256(9) == 256 * Pow256(8) && Pow256(10) == 256 * Pow256(9) && Pow256(11) == 256 * Pow256(10);
    assert Pow256(12) == 256 * Pow256(11) && Pow256(13) == 256 * Pow256(12) && Pow256(14) == 256 * Pow256(13);
    assert Pow256(15) == 256 * Pow256(14) && Pow256(16) == 256 * Pow256(15);
  }

  lemma LeInjective(n: nat, m: nat, k: nat)
    requires n < Pow256(k) && m < Pow256(k) && ToLe(n, k) == ToLe(m, k)
    ensures n == m
  {
    LeRoundTrip(n, k);
    LeRoundTrip(m, k);
  }

  /** Two's complement. */
  function Unsigned(n: I128): nat { if n >= 0 then n else n + 0x1_0000_0000_0000_0000_0000_0000_0000_0000 }

  function I128Bytes(n: I128): (r: seq<Byte>)
    ensures |r| == 16
  {
    ToLe(Unsigned(n), 16)
  }

  lemma I128Injective(n: I128, m: I128)
    requires I128Bytes(n) == I128Bytes(m)
    ensures n == m
  {
    Width16();
    LeInjective(Unsigned(n), Unsigned(m), 16);
  }

  lemma Apart(a: seq<Byte>, b: seq<Byte>, c: seq<Byte>, d: seq<Byte>)
    requires |a| == |c| && Join(a, b) == Join(c, d)
    ensures a == c && b == d
  {
    assert a == Join(a, b)[..|a|] && b == Join(a, b)[|a|..];
    assert c == Join(c, d)[..|c|] && d == Join(c, d)[|c|..];
  }

  function Three(a: I128, b: I128, c: I128): (r: seq<Byte>)
    ensures |r| == 48
  {
    Join(I128Bytes(a), Join(I128Bytes(b), I128Bytes(c)))
  }

  lemma ThreeApart(a: I128, b: I128, c: I128, a': I128, b': I128, c': I128)
    requires Three(a, b, c) == Three(a', b', c')
    ensures a == a' && b == b' && c == c'
  {
    Apart(I128Bytes(a), Join(I128Bytes(b), I128Bytes(c)), I128Bytes(a'), Join(I128Bytes(b'), I128Bytes(c')));
    Apart(I128Bytes(b), I128Bytes(c), I128Bytes(b'), I128Bytes(c'));
    I128Injective(a, a');
    I128Injective(b, b');
    I128Injective(c, c');
  }

  // ---- Key orders ----

  predicate LexLess(a: seq<Byte>, b: seq<Byte>) {
    if a == [] then b != []
    else b != [] && (a[0] < b[0] || (a[0] == b[0] && LexLess(a[1..], b[1..])))
  }

  lemma {:induction false} LexIrreflexive(a: seq<Byte>)
    ensures !LexLess(a, a)
  {
    if a != [] { LexIrreflexive(a[1..]); }
  }

  lemma {:induction false} LexTotal(a: seq<Byte>, b: seq<Byte>)
    ensures LexLess(a, b) || a == b || LexLess(b, a)
  {
    if a != [] && b != [] && a[0] == b[0] {
      LexTotal(a[1..], b[1..]);
      assert a == [a[0]] + a[1..] && b == [b[0]] + b[1..];
    }
  }

  lemma {:induction false} LexTransitive(a: seq<Byte>, b: seq<Byte>, c: seq<Byte>)
    requires LexLess(a, b) && LexLess(b, c)
    ensures LexLess(a, c)
  {
    if a != [] && a[0] == b[0] == c[0] { LexTransitive(a[1..], b[1..], c[1..]); }
  }

  predicate AddressLess(a: Address, b: Address) { LexLess(a, b) }

  lemma AddressOrder()
    ensures StrictTotal<Address>(AddressLess)
  {
    forall x: Address ensures !AddressLess(x, x) { LexIrreflexive(x); }
    forall x: Address, y: Address ensures AddressLess(x, y) || x == y || AddressLess(y, x) { LexTotal(x, y); }
    forall x: Address, y: Address, z: Address | AddressLess(x, y) && AddressLess(y, z) ensures AddressLess(x, z) {
      LexTransitive(x, y, z);
    }
  }

  // ---- The tables ----

  datatype Balance = Balance(total: I128, coreView: I128, evmView: I128)
  datatype Position = Position(size: I128, entryNotional: I128, realizedPnl: I128, lastFundingIndex: I128)
  datatype Side = Buy | Sell
  datatype OrderRow = OrderRow(owner: Address, side: Side, price: I128, originalSize: I128, remainingSize: I128)
  datatype MarketRow = MarketRow(markPrice: I128, indexPrice: I128, fundingRate: I128, openLong: I128, openShort: I128)
  datatype BalanceKey = BalanceKey(owner: Address, token: U32)
  datatype AccountMarket = AccountMarket(owner: Address, market: Byte)
  datatype OrderKey = OrderKey(market: Byte, id: U64)

  predicate BalanceKeyLess(x: BalanceKey, y: BalanceKey) {
    LexLess(x.owner, y.owner) || (x.owner == y.owner && x.token < y.token)
  }
  function BalanceKeyBytes(k: BalanceKey): seq<Byte> { Join(k.owner, ToLe(k.token, 4)) }
  function BalanceBytes(b: Balance): seq<Byte> { Three(b.total, b.coreView, b.evmView) }
  const BALANCES: Schema<BalanceKey, Balance> := Schema(BalanceKeyLess, BalanceKeyBytes, BalanceBytes, 24, 48)

  function AddressBytes(a: Address): seq<Byte> { a }
  function NonceBytes(n: U64): seq<Byte> { ToLe(n, 8) }
  const NONCES: Schema<Address, U64> := Schema(AddressLess, AddressBytes, NonceBytes, 20, 8)

  predicate AccountMarketLess(x: AccountMarket, y: AccountMarket) {
    LexLess(x.owner, y.owner) || (x.owner == y.owner && x.market < y.market)
  }
  function AccountMarketBytes(k: AccountMarket): seq<Byte> { Join(k.owner, [k.market]) }
  function PositionBytes(p: Position): seq<Byte> {
    Join(I128Bytes(p.size), Three(p.entryNotional, p.realizedPnl, p.lastFundingIndex))
  }
  const POSITIONS: Schema<AccountMarket, Position> := Schema(AccountMarketLess, AccountMarketBytes, PositionBytes, 21, 64)

  predicate OrderKeyLess(x: OrderKey, y: OrderKey) { x.market < y.market || (x.market == y.market && x.id < y.id) }
  function OrderKeyBytes(k: OrderKey): seq<Byte> { Join([k.market], ToLe(k.id, 8)) }
  function SideByte(s: Side): Byte { match s case Buy => 0 case Sell => 1 }
  function OrderBytes(o: OrderRow): seq<Byte> {
    Join(o.owner, Join([SideByte(o.side)], Three(o.price, o.originalSize, o.remainingSize)))
  }
  const ORDERS: Schema<OrderKey, OrderRow> := Schema(OrderKeyLess, OrderKeyBytes, OrderBytes, 9, 69)

  predicate MarketLess(a: Byte, b: Byte) { a < b }
  function MarketKeyBytes(m: Byte): seq<Byte> { [m] }
  function MarketBytes(m: MarketRow): seq<Byte> {
    Join(I128Bytes(m.markPrice), Join(I128Bytes(m.indexPrice), Three(m.fundingRate, m.openLong, m.openShort)))
  }
  const MARKETS: Schema<Byte, MarketRow> := Schema(MarketLess, MarketKeyBytes, MarketBytes, 1, 80)

  function LeverageBytes(l: Byte): seq<Byte> { [l] }
  const LEVERAGE: Schema<AccountMarket, Byte> := Schema(AccountMarketLess, AccountMarketBytes, LeverageBytes, 21, 1)

  lemma BalancesLawful()
    ensures LawfulSchema(BALANCES)
  {
    forall x: BalanceKey ensures !BalanceKeyLess(x, x) { LexIrreflexive(x.owner); }
    forall x: BalanceKey, y: BalanceKey ensures BalanceKeyLess(x, y) || x == y || BalanceKeyLess(y, x) {
      LexTotal(x.owner, y.owner);
    }
    forall x: BalanceKey, y: BalanceKey, z: BalanceKey | BalanceKeyLess(x, y) && BalanceKeyLess(y, z)
      ensures BalanceKeyLess(x, z)
    {
      if LexLess(x.owner, y.owner) && LexLess(y.owner, z.owner) { LexTransitive(x.owner, y.owner, z.owner); }
    }
    forall j: BalanceKey, k: BalanceKey | BalanceKeyBytes(j) == BalanceKeyBytes(k) ensures j == k {
      Apart(j.owner, ToLe(j.token, 4), k.owner, ToLe(k.token, 4));
      Width4();
      LeInjective(j.token, k.token, 4);
    }
    forall u: Balance, v: Balance | BalanceBytes(u) == BalanceBytes(v) ensures u == v {
      ThreeApart(u.total, u.coreView, u.evmView, v.total, v.coreView, v.evmView);
    }
  }

  lemma NoncesLawful()
    ensures LawfulSchema(NONCES)
  {
    AddressOrder();
    forall u: U64, v: U64 | NonceBytes(u) == NonceBytes(v) ensures u == v {
      Width8();
      LeInjective(u, v, 8);
    }
  }

  lemma AccountMarketOrder()
    ensures StrictTotal<AccountMarket>(AccountMarketLess)
    ensures forall j, k :: AccountMarketBytes(j) == AccountMarketBytes(k) ==> j == k
  {
    forall x: AccountMarket ensures !AccountMarketLess(x, x) { LexIrreflexive(x.owner); }
    forall x: AccountMarket, y: AccountMarket ensures AccountMarketLess(x, y) || x == y || AccountMarketLess(y, x) {
      LexTotal(x.owner, y.owner);
    }
    forall x: AccountMarket, y: AccountMarket, z: AccountMarket | AccountMarketLess(x, y) && AccountMarketLess(y, z)
      ensures AccountMarketLess(x, z)
    {
      if LexLess(x.owner, y.owner) && LexLess(y.owner, z.owner) { LexTransitive(x.owner, y.owner, z.owner); }
    }
    forall j: AccountMarket, k: AccountMarket | AccountMarketBytes(j) == AccountMarketBytes(k) ensures j == k {
      Apart(j.owner, [j.market], k.owner, [k.market]);
    }
  }

  lemma PositionsLawful()
    ensures LawfulSchema(POSITIONS)
  {
    AccountMarketOrder();
    forall u: Position, v: Position | PositionBytes(u) == PositionBytes(v) ensures u == v {
      Apart(I128Bytes(u.size), Three(u.entryNotional, u.realizedPnl, u.lastFundingIndex),
            I128Bytes(v.size), Three(v.entryNotional, v.realizedPnl, v.lastFundingIndex));
      I128Injective(u.size, v.size);
      ThreeApart(u.entryNotional, u.realizedPnl, u.lastFundingIndex, v.entryNotional, v.realizedPnl, v.lastFundingIndex);
    }
  }

  lemma OrdersLawful()
    ensures LawfulSchema(ORDERS)
  {
    forall j: OrderKey, k: OrderKey | OrderKeyBytes(j) == OrderKeyBytes(k) ensures j == k {
      Apart([j.market], ToLe(j.id, 8), [k.market], ToLe(k.id, 8));
      Width8();
      LeInjective(j.id, k.id, 8);
    }
    forall u: OrderRow, v: OrderRow | OrderBytes(u) == OrderBytes(v) ensures u == v {
      OrderApart(u, v);
    }
  }

  lemma OrderApart(u: OrderRow, v: OrderRow)
    requires OrderBytes(u) == OrderBytes(v)
    ensures u == v
  {
    var a, b := Three(u.price, u.originalSize, u.remainingSize), Three(v.price, v.originalSize, v.remainingSize);
    Apart(u.owner, Join([SideByte(u.side)], a), v.owner, Join([SideByte(v.side)], b));
    Apart([SideByte(u.side)], a, [SideByte(v.side)], b);
    ThreeApart(u.price, u.originalSize, u.remainingSize, v.price, v.originalSize, v.remainingSize);
  }

  lemma MarketsLawful()
    ensures LawfulSchema(MARKETS)
  {
    forall u: MarketRow, v: MarketRow | MarketBytes(u) == MarketBytes(v) ensures u == v { MarketApart(u, v); }
  }

  lemma MarketApart(u: MarketRow, v: MarketRow)
    requires MarketBytes(u) == MarketBytes(v)
    ensures u == v
  {
    var a, b := Three(u.fundingRate, u.openLong, u.openShort), Three(v.fundingRate, v.openLong, v.openShort);
    Apart(I128Bytes(u.markPrice), Join(I128Bytes(u.indexPrice), a), I128Bytes(v.markPrice), Join(I128Bytes(v.indexPrice), b));
    Apart(I128Bytes(u.indexPrice), a, I128Bytes(v.indexPrice), b);
    I128Injective(u.markPrice, v.markPrice);
    I128Injective(u.indexPrice, v.indexPrice);
    ThreeApart(u.fundingRate, u.openLong, u.openShort, v.fundingRate, v.openLong, v.openShort);
  }

  lemma LeverageLawful()
    ensures LawfulSchema(LEVERAGE)
  {
    AccountMarketOrder();
  }

  // ---- One root per table ----

  lemma {:induction false} Enumerable<K(!new), V(!new)>(m: map<K, V>) returns (ks: seq<K>)
    ensures Enumerates(m, ks)
    decreases |m|
  {
    if m == map[] {
      ks := [];
    } else {
      var k :| k in m;
      var rest := Enumerable(m - {k});
      ks := [k] + rest;
      assert m.Keys == (m - {k}).Keys + {k};
      assert forall x :: x in ks <==> x == k || x in Elems(rest);
    }
  }

  /** Some order in which the keys can be enumerated. */
  ghost function SomeOrder<K(!new), V(!new)>(m: map<K, V>): (ks: seq<K>)
    ensures Enumerates(m, ks)
  {
    assert exists ks :: Enumerates(m, ks) by { var ks := Enumerable(m); }
    var ks :| Enumerates(m, ks);
    ks
  }

  ghost function MapRoot<K(!new), V(!new)>(h: Hasher, s: Schema<K, V>, m: map<K, V>): Digest
    requires LawfulSchema(s)
  {
    TableRoot(h, s, m, SomeOrder(m))
  }

  ghost function MapHashed<K(!new), V(!new)>(h: Hasher, s: Schema<K, V>, m: map<K, V>): set<seq<Byte>>
    requires LawfulSchema(s)
  {
    Hashed(h, Committed(s, m, SomeOrder(m)))
  }

  /** The root is a function of the table alone. */
  lemma MapRootAnyOrder<K(!new), V(!new)>(h: Hasher, s: Schema<K, V>, m: map<K, V>, ks: seq<K>)
    requires LawfulSchema(s) && Enumerates(m, ks)
    ensures TableRoot(h, s, m, ks) == MapRoot(h, s, m)
    ensures Hashed(h, Committed(s, m, ks)) == MapHashed(h, s, m)
  {
    RootIgnoresOrder(h, s, m, ks, SomeOrder(m));
  }

  lemma MapRootBinds<K(!new), V(!new)>(h: Hasher, s: Schema<K, V>, m: map<K, V>, m': map<K, V>, inputs: set<seq<Byte>>)
    requires LawfulSchema(s) && MapRoot(h, s, m) == MapRoot(h, s, m')
    requires InjectiveOn(h, inputs) && MapHashed(h, s, m) <= inputs && MapHashed(h, s, m') <= inputs
    ensures m == m'
  {
    InjectiveOnPart(h, inputs, MapHashed(h, s, m) + MapHashed(h, s, m'));
    TableRootBinds(h, s, m, SomeOrder(m), m', SomeOrder(m'));
  }
}

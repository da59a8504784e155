/** The application hash: height, time, the previous hash and the root of every table. */
module AppHash {
  import opened Options
  import opened Bytes
  import opened Merkle
  import opened EntryTrees
  import opened StateRoots
  import opened Tables

  /** The committed state. Client order ids, engine scalars and the EVM enter as hashes computed elsewhere. */
  datatype ChainState = ChainState(
    height: U64, timestamp: U64, previous: Digest,
    balances: map<BalanceKey, Balance>, nonces: map<Address, U64>,
    positions: map<AccountMarket, Position>, orders: map<OrderKey, OrderRow>,
    markets: map<Byte, MarketRow>, leverage: map<AccountMarket, Byte>,
    scalars: Digest, cloids: Digest, evm: Option<Digest>)

  /** The roots in the order in which they are hashed. */
  datatype Roots = Roots(balances: Digest, nonces: Digest, positions: Digest, orders: Digest, markets: Digest,
                         leverage: Digest, scalars: Digest, cloids: Digest)

  function Tail(evm: Option<Digest>): seq<Byte> { match evm case None => [] case Some(d) => d }

  /** The bytes hashed: two 8-byte numbers, nine digests, and a tenth when there is an EVM. */
  function AppInput(height: U64, timestamp: U64, previous: Digest, r: Roots, evm: Option<Digest>): seq<Byte> {
    Join(ToLe(height, 8), Join(ToLe(timestamp, 8), Join(previous, RootsBytes(r, evm))))
  }

  function RootsBytes(r: Roots, evm: Option<Digest>): seq<Byte> {
    Join(r.balances, Join(r.nonces, Join(r.positions, Join(r.orders, Join(r.markets,
      Join(r.leverage, Join(r.scalars, Join(r.cloids, Tail(evm)))))))))
  }

  lemma RootsApart(r: Roots, e: Option<Digest>, r': Roots, e': Option<Digest>)
    requires RootsBytes(r, e) == RootsBytes(r', e')
    ensures r == r' && e == e'
  {
    var h, h' := Join(r.cloids, Tail(e)), Join(r'.cloids, Tail(e'));
    var g, g' := Join(r.scalars, h), Join(r'.scalars, h');
    var f, f' := Join(r.leverage, g), Join(r'.leverage, g');
    var d, d' := Join(r.markets, f), Join(r'.markets, f');
    var c, c' := Join(r.orders, d), Join(r'.orders, d');
    var b, b' := Join(r.positions, c), Join(r'.positions, c');
    var a, a' := Join(r.nonces, b), Join(r'.nonces, b');
    Apart(r.balances, a, r'.balances, a');
    Apart(r.nonces, b, r'.nonces, b');
    Apart(r.positions, c, r'.positions, c');
    Apart(r.orders, d, r'.orders, d');
    Apart(r.markets, f, r'.markets, f');
    Apart(r.leverage, g, r'.leverage, g');
    Apart(r.scalars, h, r'.scalars, h');
    Apart(r.cloids, Tail(e), r'.cloids, Tail(e'));
  }

  lemma AppInputApart(n: U64, t: U64, p: Digest, r: Roots, e: Option<Digest>,
                      n': U64, t': U64, p': Digest, r': Roots, e': Option<Digest>)
    requires AppInput(n, t, p, r, e) == AppInput(n', t', p', r', e')
    ensures n == n' && t == t' && p == p' && r == r' && e == e'
  {
    var b, b' := Join(p, RootsBytes(r, e)), Join(p', RootsBytes(r', e'));
    var a, a' := Join(ToLe(t, 8), b), Join(ToLe(t', 8), b');
    Apart(ToLe(n, 8), a, ToLe(n', 8), a');
    Apart(ToLe(t, 8), b, ToLe(t', 8), b');
    Apart(p, RootsBytes(r, e), p', RootsBytes(r', e'));
    Width8();
    LeInjective(n, n', 8);
    LeInjective(t, t', 8);
    RootsApart(r, e, r', e');
  }

  lemma AllLawful()
    ensures LawfulSchema(BALANCES) && LawfulSchema(NONCES) && LawfulSchema(POSITIONS)
    ensures LawfulSchema(ORDERS) && LawfulSchema(MARKETS) && LawfulSchema(LEVERAGE)
  {
    BalancesLawful();
    NoncesLawful();
    PositionsLawful();
    OrdersLawful();
    MarketsLawful();
    LeverageLawful();
  }

  ghost function RootsFor(h: Hasher, s: ChainState): Roots {
    AllLawful();
    Roots(MapRoot(h, BALANCES, s.balances), MapRoot(h, NONCES, s.nonces), MapRoot(h, POSITIONS, s.positions),
          MapRoot(h, ORDERS, s.orders), MapRoot(h, MARKETS, s.markets), MapRoot(h, LEVERAGE, s.leverage),
          s.scalars, s.cloids)
  }

  ghost function Input(h: Hasher, s: ChainState): seq<Byte> {
    AppInput(s.height, s.timestamp, s.previous, RootsFor(h, s), s.evm)
  }

  /** Everything hashed to commit to a state is among `inputs`. */
  ghost predicate HashedIn(h: Hasher, s: ChainState, inputs: set<seq<Byte>>) {
    AllLawful();
    && MapHashed(h, BALANCES, s.balances) <= inputs && MapHashed(h, NONCES, s.nonces) <= inputs
    && MapHashed(h, POSITIONS, s.positions) <= inputs && MapHashed(h, ORDERS, s.orders) <= inputs
    && MapHashed(h, MARKETS, s.markets) <= inputs && MapHashed(h, LEVERAGE, s.leverage) <= inputs
    && Input(h, s) in inputs
  }

  /** The application hash commits to the whole state: two states with the same hash are equal in every table,
      if nothing hashed for either collides. */
  lemma AppHashBinds(h: Hasher, s: ChainState, s': ChainState, inputs: set<seq<Byte>>)
    requires h(Input(h, s)) == h(Input(h, s'))
    requires InjectiveOn(h, inputs) && HashedIn(h, s, inputs) && HashedIn(h, s', inputs)
    ensures s == s'
  {
    var r, r' := RootsFor(h, s), RootsFor(h, s');
    AppInputApart(s.height, s.timestamp, s.previous, r, s.evm, s'.height, s'.timestamp, s'.previous, r', s'.evm);
    TablesEqual(h, s, s', inputs);
  }

  /** Every block carries the hash of the one before it. */
  ghost predicate Chained(h: Hasher, blocks: seq<ChainState>) {
    forall i :: 0 < i < |blocks| ==> blocks[i].previous == h(Input(h, blocks[i - 1]))
  }

  /** The last application hash commits to the whole chain: two chains that end in the same hash agree block by block
      as far back as the shorter one goes, if nothing hashed for any of their blocks collides. */
  lemma {:induction false} ChainBinds(h: Hasher, a: seq<ChainState>, b: seq<ChainState>, inputs: set<seq<Byte>>)
    requires Chained(h, a) && Chained(h, b) && 0 < |a| <= |b|
    requires h(Input(h, a[|a| - 1])) == h(Input(h, b[|b| - 1]))
    requires InjectiveOn(h, inputs) && AllHashedIn(h, a, inputs) && AllHashedIn(h, b, inputs)
    ensures a == b[|b| - |a|..]
  {
    LastBinds(h, a, b, inputs);
    if |a| > 1 {
      ChainFront(h, a, inputs);
      ChainFront(h, b, inputs);
      ChainBinds(h, a[..|a| - 1], b[..|b| - 1], inputs);
    }
    SuffixMore(a, b);
  }

  lemma LastBinds(h: Hasher, a: seq<ChainState>, b: seq<ChainState>, inputs: set<seq<Byte>>)
    requires a != [] && b != [] && h(Input(h, a[|a| - 1])) == h(Input(h, b[|b| - 1]))
    requires InjectiveOn(h, inputs) && AllHashedIn(h, a, inputs) && AllHashedIn(h, b, inputs)
    ensures a[|a| - 1] == b[|b| - 1]
  {
    AppHashBinds(h, a[|a| - 1], b[|b| - 1], inputs);
  }

  ghost predicate AllHashedIn(h: Hasher, blocks: seq<ChainState>, inputs: set<seq<Byte>>) {
    forall i :: 0 <= i < |blocks| ==> HashedIn(h, blocks[i], inputs)
  }

  /** The hash before the last is in the last block. */
  lemma ChainFront(h: Hasher, blocks: seq<ChainState>, inputs: set<seq<Byte>>)
    requires Chained(h, blocks) && |blocks| > 1 && AllHashedIn(h, blocks, inputs)
    ensures var front := blocks[..|blocks| - 1];
      && Chained(h, front) && AllHashedIn(h, front, inputs)
      && h(Input(h, front[|front| - 1])) == blocks[|blocks| - 1].previous
  {
  }

  lemma SuffixMore<T>(a: seq<T>, b: seq<T>)
    requires 0 < |a| <= |b| && a[|a| - 1] == b[|b| - 1]
    requires |a| > 1 ==> a[..|a| - 1] == b[..|b| - 1][|b| - |a|..]
    ensures a == b[|b| - |a|..]
  {
    if |a| > 1 { assert b[|b| - |a|..] == b[..|b| - 1][|b| - |a|..] + [b[|b| - 1]]; }
    assert a == a[..|a| - 1] + [a[|a| - 1]];
  }

  lemma TablesEqual(h: Hasher, s: ChainState, s': ChainState, inputs: set<seq<Byte>>)
    requires RootsFor(h, s) == RootsFor(h, s')
    requires InjectiveOn(h, inputs) && HashedIn(h, s, inputs) && HashedIn(h, s', inputs)
    ensures s.balances == s'.balances && s.nonces == s'.nonces && s.positions == s'.positions
    ensures s.orders == s'.orders && s.markets == s'.markets && s.leverage == s'.leverage
  {
    assert s.balances == s'.balances by {
      BalancesLawful();
      MapRootBinds(h, BALANCES, s.balances, s'.balances, inputs);
    }
    assert s.nonces == s'.nonces by {
      NoncesLawful();
      MapRootBinds(h, NONCES, s.nonces, s'.nonces, inputs);
    }
    assert s.positions == s'.positions by {
      PositionsLawful();
      MapRootBinds(h, POSITIONS, s.positions, s'.positions, inputs);
    }
    assert s.orders == s'.orders by {
      OrdersLawful();
      MapRootBinds(h, ORDERS, s.orders, s'.orders, inputs);
    }
    assert s.markets == s'.markets by {
      MarketsLawful();
      MapRootBinds(h, MARKETS, s.markets, s'.markets, inputs);
    }
    assert s.leverage == s'.leverage by {
      LeverageLawful();
      MapRootBinds(h, LEVERAGE, s.leverage, s'.leverage, inputs);
    }
  }

  // ---- The state object ----

  /** The tree built from a list of entries. */
  function TreeOf(h: Hasher, entries: seq<seq<Byte>>): Tree {
    if entries == [] then Tree([[], [h([])]]) else Tree(Levels(h, Leaves(h, entries)))
  }

  lemma TreeOfRoot(h: Hasher, entries: seq<seq<Byte>>)
    ensures TreeRoot(h, TreeOf(h, entries)) == RootOf(h, Leaves(h, entries))
  {
    if entries == [] {
      assert Leaves(h, entries) == [];
    } else {
      TreeRootIsRoot(h, Leaves(h, entries));
    }
  }

  /** Sort the entries of a table by key, encode them and build the tree; `order` is the order in which the
      table happens to be enumerated. */
  method BuildTree<K(==, !new), V(!new)>(h: Hasher, s: Schema<K, V>, m: map<K, V>, order: seq<K>) returns (t: Tree)
    requires LawfulSchema(s) && Enumerates(m, order)
    ensures t == TreeOf(h, Committed(s, m, order))
    ensures TreeRoot(h, t) == MapRoot(h, s, m)
  {
    SortedKeysIn(s.less, m, order);
    var entries := EntriesIn(s, m, Sort(s.less, order));
    t := FromLeaves(h, Leaves(h, entries));
    TreeOfRoot(h, entries);
    MapRootAnyOrder(h, s, m, order);
  }

  /** Find a key in the sorted order and prove its leaf. A tree that still is the table's proves exactly the
      keys of the table, with proofs that verify. */
  method ProveEntry<K(==, !new), V(!new)>(h: Hasher, s: Schema<K, V>, m: map<K, V>, order: seq<K>, t: Tree,
                                          ghost entries: seq<seq<Byte>>, k: K)
    returns (p: Option<Proof>)
    requires LawfulSchema(s) && Enumerates(m, order) && t == TreeOf(h, entries)
    ensures k !in m ==> p.None?
    ensures entries == Committed(s, m, order) && k in m ==>
      && p.Some? && p.value.leaf == h(Entry(s, k, m[k]))
      && |Steps(p.value)| == Depth(|m|)
      && EntryVerifies(h, s, k, m[k], p.value, TreeRoot(h, t))
  {
    SortedKeysIn(s.less, m, order);
    var sorted := Sort(s.less, order);
    var i := IndexOf(sorted, k);
    if i == |sorted| {
      assert k !in Elems(sorted);
      return None;
    }
    assert sorted[i] in Elems(sorted);
    p := Prove(h, Leaves(h, entries), t, i);
    if entries == Committed(s, m, order) {
      EntryComplete(h, s, m, order, i);
      TreeOfRoot(h, entries);
    }
  }

  method IndexOf<K(==)>(ks: seq<K>, k: K) returns (i: nat)
    ensures i <= |ks| && k !in ks[..i] && (i < |ks| ==> ks[i] == k)
    ensures i == |ks| <==> k !in ks
  {
    i := 0;
    while i < |ks| && ks[i] != k
      invariant 0 <= i <= |ks| && k !in ks[..i]
    {
      i := i + 1;
    }
    assert ks[..|ks|] == ks;
  }

  /** The orders in which the tables happen to be enumerated. */
  datatype Enumerations = Enumerations(balances: seq<BalanceKey>, nonces: seq<Address>, positions: seq<AccountMarket>,
                                       orders: seq<OrderKey>, markets: seq<Byte>, leverage: seq<AccountMarket>)

  ghost predicate EnumeratesAll(s: ChainState, o: Enumerations) {
    && Enumerates(s.balances, o.balances) && Enumerates(s.nonces, o.nonces) && Enumerates(s.positions, o.positions)
    && Enumerates(s.orders, o.orders) && Enumerates(s.markets, o.markets) && Enumerates(s.leverage, o.leverage)
  }

  method ComputeTableRoot<K(==, !new), V(!new)>(h: Hasher, s: Schema<K, V>, m: map<K, V>, order: seq<K>) returns (root: Digest)
    requires LawfulSchema(s) && Enumerates(m, order)
    ensures root == MapRoot(h, s, m)
  {
    var t := BuildTree(h, s, m, order);
    root := TreeRoot(h, t);
  }

  method EngineRoots(h: Hasher, s: ChainState, o: Enumerations) returns (p: Digest, r: Digest, m: Digest, l: Digest)
    requires EnumeratesAll(s, o)
    ensures var all := RootsFor(h, s); p == all.positions && r == all.orders && m == all.markets && l == all.leverage
  {
    PositionsLawful();
    p := ComputeTableRoot(h, POSITIONS, s.positions, o.positions);
    OrdersLawful();
    r := ComputeTableRoot(h, ORDERS, s.orders, o.orders);
    MarketsLawful();
    m := ComputeTableRoot(h, MARKETS, s.markets, o.markets);
    LeverageLawful();
    l := ComputeTableRoot(h, LEVERAGE, s.leverage, o.leverage);
  }

  /** The hash of the whole state does not depend on the order in which any table is enumerated. */
  method ComputeAppHash(h: Hasher, s: ChainState, o: Enumerations) returns (hash: Digest)
    requires EnumeratesAll(s, o)
    ensures hash == h(Input(h, s))
  {
    BalancesLawful();
    var b := ComputeTableRoot(h, BALANCES, s.balances, o.balances);
    NoncesLawful();
    var n := ComputeTableRoot(h, NONCES, s.nonces, o.nonces);
    var p, r, m, l := EngineRoots(h, s, o);
    hash := h(AppInput(s.height, s.timestamp, s.previous, Roots(b, n, p, r, m, l, s.scalars, s.cloids), s.evm));
  }

  /** A verified entry is in the table, if the root is the table's and nothing hashed collides. */
  lemma VerifiedIsThere<K(!new), V(!new)>(h: Hasher, s: Schema<K, V>, m: map<K, V>, k: K, v: V, p: Proof)
    requires LawfulSchema(s) && EntryVerifies(h, s, k, v, p, MapRoot(h, s, m))
    requires InjectiveOn(h, MapHashed(h, s, m) + PathInputs(h, p.leaf, Steps(p)) + {Entry(s, k, v)})
    ensures k in m && m[k] == v
  {
    TableSound(h, s, m, SomeOrder(m), k, v, p);
  }

  ghost function BalanceEntries(m: map<BalanceKey, Balance>): seq<seq<Byte>> {
    BalancesLawful();
    Committed(BALANCES, m, SomeOrder(m))
  }

  ghost function NonceEntries(m: map<Address, U64>): seq<seq<Byte>> {
    NoncesLawful();
    Committed(NONCES, m, SomeOrder(m))
  }

  method BuildUnifiedStateTree(h: Hasher, m: map<BalanceKey, Balance>, order: seq<BalanceKey>) returns (t: Tree)
    requires Enumerates(m, order)
    ensures t == TreeOf(h, BalanceEntries(m))
  {
    BalancesLawful();
    t := BuildTree(h, BALANCES, m, order);
    RootIgnoresOrder(h, BALANCES, m, order, SomeOrder(m));
  }

  method BuildNonceTree(h: Hasher, m: map<Address, U64>, order: seq<Address>) returns (t: Tree)
    requires Enumerates(m, order)
    ensures t == TreeOf(h, NonceEntries(m))
  {
    NoncesLawful();
    t := BuildTree(h, NONCES, m, order);
    RootIgnoresOrder(h, NONCES, m, order, SomeOrder(m));
  }

  class AppState {
    const h: Hasher
    /** All but the latest application hash, which is kept apart. */
    var state: ChainState
    var appHash: Digest
    var balanceTree: Option<Tree>
    var nonceTree: Option<Tree>
    var blockHashes: map<U64, Digest>
    /** The tables as they were when the trees were built. */
    ghost var builtBalances: map<BalanceKey, Balance>
    ghost var builtNonces: map<Address, U64>

    /** A cached tree is that of its table as it was then, perhaps not as it is now. */
    ghost predicate Valid()
      reads `balanceTree, `nonceTree, `builtBalances, `builtNonces
    {
      && (balanceTree.Some? ==> balanceTree.value == TreeOf(h, BalanceEntries(builtBalances)))
      && (nonceTree.Some? ==> nonceTree.value == TreeOf(h, NonceEntries(builtNonces)))
    }

    ghost predicate BalancesCurrent()
      reads `balanceTree, `builtBalances, `state
    {
      balanceTree.Some? && builtBalances == state.balances
    }

    ghost predicate NoncesCurrent()
      reads `nonceTree, `builtNonces, `state
    {
      nonceTree.Some? && builtNonces == state.nonces
    }

    /** The balances that proofs are checked against: those the cached tree was built from, or the current ones. */
    ghost function ProvenBalances(): map<BalanceKey, Balance>
      reads this
    {
      if balanceTree.Some? then builtBalances else state.balances
    }

    ghost function ProvenNonces(): map<Address, U64>
      reads this
    {
      if nonceTree.Some? then builtNonces else state.nonces
    }

    constructor (h: Hasher, state: ChainState)
      ensures Valid() && this.h == h && this.state == state && appHash == state.previous
      ensures balanceTree == None && nonceTree == None && blockHashes == map[]
    {
      this.h, this.state, appHash := h, state, state.previous;
      balanceTree, nonceTree, blockHashes := None, None, map[];
      builtBalances, builtNonces := map[], map[];
    }

    /** Build and cache the trees, hash everything after the previous hash, and record the new one under the
        current height. */
    method EndBlock(o: Enumerations) returns (hash: Digest)
      requires Valid() && EnumeratesAll(state, o)
      modifies `balanceTree, `nonceTree, `builtBalances, `builtNonces, `appHash, `blockHashes
      ensures Valid() && BalancesCurrent() && NoncesCurrent()
      ensures hash == h(Input(h, state.(previous := old(appHash))))
      ensures appHash == hash && blockHashes == old(blockHashes)[state.height := hash]
    {
      CacheTrees(o.balances, o.nonces);
      hash := RecordHash(o);
    }

    /** Hash everything after the previous hash and record the new one. */
    method RecordHash(o: Enumerations) returns (hash: Digest)
      requires EnumeratesAll(state, o)
      modifies `appHash, `blockHashes
      ensures hash == h(Input(h, state.(previous := old(appHash))))
      ensures appHash == hash && blockHashes == old(blockHashes)[state.height := hash]
    {
      hash := ComputeAppHash(h, state.(previous := appHash), o);
      appHash := hash;
      blockHashes := blockHashes[state.height := hash];
    }

    method CacheTrees(balanceOrder: seq<BalanceKey>, nonceOrder: seq<Address>)
      requires Enumerates(state.balances, balanceOrder) && Enumerates(state.nonces, nonceOrder)
      modifies `balanceTree, `nonceTree, `builtBalances, `builtNonces
      ensures Valid() && BalancesCurrent() && NoncesCurrent()
    {
      var b := BuildUnifiedStateTree(h, state.balances, balanceOrder);
      var n := BuildNonceTree(h, state.nonces, nonceOrder);
      balanceTree, nonceTree := Some(b), Some(n);
      builtBalances, builtNonces := state.balances, state.nonces;
    }

    /** The root that balance proofs are checked against: the cached tree's, or a fresh one's. */
    method UnifiedStateRoot(order: seq<BalanceKey>) returns (root: Digest)
      requires Valid() && Enumerates(state.balances, order)
      ensures LawfulSchema(BALANCES)
      ensures root == if balanceTree.Some? then TreeRoot(h, balanceTree.value) else MapRoot(h, BALANCES, state.balances)
      ensures root == MapRoot(h, BALANCES, ProvenBalances())
    {
      BalancesLawful();
      if balanceTree.Some? {
        TreeOfRoot(h, BalanceEntries(builtBalances));
        return TreeRoot(h, balanceTree.value);
      }
      var t := BuildTree(h, BALANCES, state.balances, order);
      root := TreeRoot(h, t);
    }

    /** There is a proof for exactly the balances there are, as long as none changed since the block ended,
        and it verifies. */
    method ProveBalance(owner: Address, token: U32, order: seq<BalanceKey>) returns (p: Option<Proof>)
      requires Valid() && Enumerates(state.balances, order)
      ensures balanceTree.None? || BalanceKey(owner, token) !in state.balances ==> p.None?
      ensures BalancesCurrent() && BalanceKey(owner, token) in state.balances ==>
        && p.Some?
        && EntryVerifies(h, BALANCES, BalanceKey(owner, token), state.balances[BalanceKey(owner, token)], p.value,
                         TreeRoot(h, balanceTree.value))
    {
      BalancesLawful();
      if balanceTree.None? {
        return None;
      }
      RootIgnoresOrder(h, BALANCES, state.balances, order, SomeOrder(state.balances));
      p := ProveEntry(h, BALANCES, state.balances, order, balanceTree.value, BalanceEntries(builtBalances), BalanceKey(owner, token));
    }

    /** A proof is accepted exactly when leaf and root are right. If nothing hashed collides, that is only for a
        balance the tree was built from, up to date or not; and so for one there is, as long as none changed. */
    method VerifyBalanceProof(owner: Address, token: U32, balance: Balance, proof: Proof, order: seq<BalanceKey>)
      returns (ok: bool)
      requires Valid() && Enumerates(state.balances, order)
      ensures LawfulSchema(BALANCES)
      ensures ok <==> EntryVerifies(h, BALANCES, BalanceKey(owner, token), balance, proof,
        if balanceTree.Some? then TreeRoot(h, balanceTree.value) else MapRoot(h, BALANCES, state.balances))
      ensures var k, proven := BalanceKey(owner, token), ProvenBalances();
        && (balanceTree.None? || BalancesCurrent() ==> proven == state.balances)
        && (ok && InjectiveOn(h, MapHashed(h, BALANCES, proven) + PathInputs(h, proof.leaf, Steps(proof))
                                 + {Entry(BALANCES, k, balance)}) ==>
              k in proven && proven[k] == balance)
    {
      BalancesLawful();
      var leaf := h(Entry(BALANCES, BalanceKey(owner, token), balance));
      var root := UnifiedStateRoot(order);
      if proof.leaf != leaf {
        return false;
      }
      var computed := ComputeRoot(h, proof);
      ok := computed == root;
      ghost var k := BalanceKey(owner, token);
      if ok && InjectiveOn(h, MapHashed(h, BALANCES, ProvenBalances()) + PathInputs(h, proof.leaf, Steps(proof))
                              + {Entry(BALANCES, k, balance)})
      {
        VerifiedIsThere(h, BALANCES, ProvenBalances(), k, balance, proof);
      }
    }

    method NonceRoot(order: seq<Address>) returns (root: Digest)
      requires Valid() && Enumerates(state.nonces, order)
      ensures LawfulSchema(NONCES)
      ensures root == if nonceTree.Some? then TreeRoot(h, nonceTree.value) else MapRoot(h, NONCES, state.nonces)
      ensures root == MapRoot(h, NONCES, ProvenNonces())
    {
      NoncesLawful();
      if nonceTree.Some? {
        TreeOfRoot(h, NonceEntries(builtNonces));
        return TreeRoot(h, nonceTree.value);
      }
      var t := BuildTree(h, NONCES, state.nonces, order);
      root := TreeRoot(h, t);
    }

    method ProveNonce(owner: Address, order: seq<Address>) returns (p: Option<Proof>)
      requires Valid() && Enumerates(state.nonces, order)
      ensures nonceTree.None? || owner !in state.nonces ==> p.None?
      ensures NoncesCurrent() && owner in state.nonces ==>
        && p.Some?
        && EntryVerifies(h, NONCES, owner, state.nonces[owner], p.value, TreeRoot(h, nonceTree.value))
    {
      NoncesLawful();
      if nonceTree.None? {
        return None;
      }
      RootIgnoresOrder(h, NONCES, state.nonces, order, SomeOrder(state.nonces));
      p := ProveEntry(h, NONCES, state.nonces, order, nonceTree.value, NonceEntries(builtNonces), owner);
    }

    method VerifyNonceProof(owner: Address, nonce: U64, proof: Proof, order: seq<Address>) returns (ok: bool)
      requires Valid() && Enumerates(state.nonces, order)
      ensures LawfulSchema(NONCES)
      ensures ok <==> EntryVerifies(h, NONCES, owner, nonce, proof,
        if nonceTree.Some? then TreeRoot(h, nonceTree.value) else MapRoot(h, NONCES, state.nonces))
      ensures var proven := ProvenNonces();
        && (nonceTree.None? || NoncesCurrent() ==> proven == state.nonces)
        && (ok && InjectiveOn(h, MapHashed(h, NONCES, proven) + PathInputs(h, proof.leaf, Steps(proof))
                                 + {Entry(NONCES, owner, nonce)}) ==>
              owner in proven && proven[owner] == nonce)
    {
      NoncesLawful();
      var leaf := h(Entry(NONCES, owner, nonce));
      var root := NonceRoot(order);
      if proof.leaf != leaf {
        return false;
      }
      var computed := ComputeRoot(h, proof);
      ok := computed == root;
      if ok && InjectiveOn(h, MapHashed(h, NONCES, ProvenNonces()) + PathInputs(h, proof.leaf, Steps(proof))
                              + {Entry(NONCES, owner, nonce)})
      {
        VerifiedIsThere(h, NONCES, ProvenNonces(), owner, nonce, proof);
      }
    }
  }
}

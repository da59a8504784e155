/** Merkle roots of maps: sort the entries by key, encode, hash. Each table of the chain state is an instance,
    and the application hash commits to all of them. */
module StateRoots {
  import opened Bytes
  import opened Merkle
  import opened EntryTrees

  // ---- Sorting by key ----

  ghost predicate StrictTotal<K(!new)>(less: (K, K) -> bool) {
    && (forall x :: !less(x, x))
    && (forall x, y :: less(x, y) || x == y || less(y, x))
    && (forall x, y, z :: less(x, y) && less(y, z) ==> less(x, z))
  }

  ghost predicate SortedBy<K(!new)>(less: (K, K) -> bool, ks: seq<K>) {
    ks != [] ==> SortedBy(less, ks[1..]) && (|ks| > 1 ==> less(ks[0], ks[1]))
  }

  function Insert<K>(less: (K, K) -> bool, k: K, ks: seq<K>): (r: seq<K>)
    ensures |r| == |ks| + 1
  {
    if ks == [] || less(k, ks[0]) then [k] + ks else [ks[0]] + Insert(less, k, ks[1..])
  }

  function Sort<K>(less: (K, K) -> bool, ks: seq<K>): (r: seq<K>)
    ensures |r| == |ks|
  {
    if ks == [] then [] else Insert(less, ks[0], Sort(less, ks[1..]))
  }

  ghost function Elems<K(!new)>(ks: seq<K>): set<K> { set k | k in ks }

  /** The keys of a map in the order in which they happen to be enumerated. */
  ghost predicate Enumerates<K(!new), V>(m: map<K, V>, ks: seq<K>) { Elems(ks) == m.Keys && |ks| == |m| }

  lemma {:induction false} InsertSorted<K(!new)>(less: (K, K) -> bool, k: K, ks: seq<K>)
    requires StrictTotal(less) && SortedBy(less, ks) && k !in ks
    ensures SortedBy(less, Insert(less, k, ks)) && Elems(Insert(less, k, ks)) == Elems(ks) + {k}
  {
    var r := Insert(less, k, ks);
    if ks == [] || less(k, ks[0]) {
      assert r[1..] == ks;
    } else {
      InsertSorted(less, k, ks[1..]);
      assert r[1..] == Insert(less, k, ks[1..]);
      assert ks == [ks[0]] + ks[1..];
      assert Elems(ks) == {ks[0]} + Elems(ks[1..]);
      assert Elems(r) == {ks[0]} + Elems(r[1..]);
    }
  }

  lemma {:induction false} Repeats<K(!new)>(ks: seq<K>)
    ensures |Elems(ks)| <= |ks|
    ensures ks != [] && |Elems(ks)| == |ks| ==> ks[0] !in ks[1..] && |Elems(ks[1..])| == |ks[1..]|
  {
    if ks != [] {
      Repeats(ks[1..]);
      assert ks == [ks[0]] + ks[1..];
      assert Elems(ks) == {ks[0]} + Elems(ks[1..]);
      if ks[0] in ks[1..] { assert Elems(ks) == Elems(ks[1..]); }
    }
  }

  lemma {:induction false} SortSorts<K(!new)>(less: (K, K) -> bool, ks: seq<K>)
    requires StrictTotal(less) && |Elems(ks)| == |ks|
    ensures SortedBy(less, Sort(less, ks)) && Elems(Sort(less, ks)) == Elems(ks)
  {
    if ks != [] {
      Repeats(ks);
      var rest := Sort(less, ks[1..]);
      SortSorts(less, ks[1..]);
      assert ks[0] !in Elems(rest);
      InsertSorted(less, ks[0], rest);
      assert ks == [ks[0]] + ks[1..];
      assert Elems(ks) == {ks[0]} + Elems(ks[1..]);
    }
  }

  lemma {:induction false} FirstIsLeast<K(!new)>(less: (K, K) -> bool, ks: seq<K>, k: K)
    requires StrictTotal(less) && SortedBy(less, ks) && ks != [] && k in ks[1..]
    ensures less(ks[0], k)
  {
    if k != ks[1] {
      assert ks[1..] == [ks[1]] + ks[1..][1..];
      FirstIsLeast(less, ks[1..], k);
    }
  }

  lemma SortedRest<K(!new)>(less: (K, K) -> bool, ks: seq<K>)
    requires StrictTotal(less) && SortedBy(less, ks) && ks != []
    ensures Elems(ks[1..]) == Elems(ks) - {ks[0]}
    ensures ks[0] in Elems(ks) && forall k :: k in Elems(ks) && k != ks[0] ==> less(ks[0], k)
  {
    assert ks == [ks[0]] + ks[1..];
    forall k | k in ks[1..] ensures less(ks[0], k) { FirstIsLeast(less, ks, k); }
    assert Elems(ks) == {ks[0]} + Elems(ks[1..]);
  }

  /** There is only one sorted list of a set of keys. */
  lemma {:induction false} SortedUnique<K(!new)>(less: (K, K) -> bool, a: seq<K>, b: seq<K>)
    requires StrictTotal(less) && SortedBy(less, a) && SortedBy(less, b) && Elems(a) == Elems(b)
    ensures a == b
  {
    if a == [] || b == [] {
      EmptyElems(a);
      EmptyElems(b);
    } else {
      SortedRest(less, a);
      SortedRest(less, b);
      assert a[0] == b[0];
      SortedUnique(less, a[1..], b[1..]);
      assert a == [a[0]] + a[1..] && b == [b[0]] + b[1..];
    }
  }

  lemma EmptyElems<K(!new)>(ks: seq<K>)
    ensures ks == [] <==> Elems(ks) == {}
  {
    if ks != [] { assert ks[0] in Elems(ks); }
  }

  // ---- Tables ----

  /** How the entries of a table are ordered and encoded. */
  datatype Schema<!K, !V> = Schema(less: (K, K) -> bool, key: K -> seq<Byte>, value: V -> seq<Byte>,
                                   keyWidth: nat, valueWidth: nat)

  /** Keys and values have fixed widths and can be read back, and no entry looks like a pair of nodes. */
  ghost predicate LawfulSchema<K(!new), V(!new)>(s: Schema<K, V>) {
    && StrictTotal(s.less)
    && (forall k :: |s.key(k)| == s.keyWidth)
    && (forall v :: |s.value(v)| == s.valueWidth)
    && (forall j, k :: s.key(j) == s.key(k) ==> j == k)
    && (forall u, v :: s.value(u) == s.value(v) ==> u == v)
    && s.keyWidth > 0 && s.keyWidth + s.valueWidth != 64
  }

  function Entry<K, V>(s: Schema<K, V>, k: K, v: V): seq<Byte> { s.key(k) + s.value(v) }

  /** The entries of `m` in the order of `ks`. */
  function EntriesIn<K, V>(s: Schema<K, V>, m: map<K, V>, ks: seq<K>): (r: seq<seq<Byte>>)
    requires forall i :: 0 <= i < |ks| ==> ks[i] in m
    ensures |r| == |ks|
  {
    seq(|ks|, i requires 0 <= i < |ks| => Entry(s, ks[i], m[ks[i]]))
  }

  lemma SortedKeysIn<K(!new), V>(less: (K, K) -> bool, m: map<K, V>, ks: seq<K>)
    requires StrictTotal(less) && Enumerates(m, ks)
    ensures var sorted := Sort(less, ks);
      SortedBy(less, sorted) && Elems(sorted) == m.Keys && forall i :: 0 <= i < |sorted| ==> sorted[i] in m
  {
    SortSorts(less, ks);
    var sorted := Sort(less, ks);
    forall i | 0 <= i < |sorted| ensures sorted[i] in m { assert sorted[i] in Elems(sorted); }
  }

  /** The committed entries of a table, given an enumeration of it. */
  ghost function Committed<K(!new), V(!new)>(s: Schema<K, V>, m: map<K, V>, ks: seq<K>): seq<seq<Byte>>
    requires LawfulSchema(s) && Enumerates(m, ks)
  {
    SortedKeysIn(s.less, m, ks);
    EntriesIn(s, m, Sort(s.less, ks))
  }

  ghost function TableRoot<K(!new), V(!new)>(h: Hasher, s: Schema<K, V>, m: map<K, V>, ks: seq<K>): Digest
    requires LawfulSchema(s) && Enumerates(m, ks)
  {
    RootOf(h, Leaves(h, Committed(s, m, ks)))
  }

  /** The order of enumeration does not matter. */
  lemma RootIgnoresOrder<K(!new), V(!new)>(h: Hasher, s: Schema<K, V>, m: map<K, V>, ks: seq<K>, js: seq<K>)
    requires LawfulSchema(s) && Enumerates(m, ks) && Enumerates(m, js)
    ensures Committed(s, m, ks) == Committed(s, m, js)
    ensures TableRoot(h, s, m, ks) == TableRoot(h, s, m, js)
  {
    SortedKeysIn(s.less, m, ks);
    SortedKeysIn(s.less, m, js);
    SortedUnique(s.less, Sort(s.less, ks), Sort(s.less, js));
  }

  lemma EntryApart<K(!new), V(!new)>(s: Schema<K, V>, j: K, u: V, k: K, v: V)
    requires LawfulSchema(s) && Entry(s, j, u) == Entry(s, k, v)
    ensures j == k && u == v
  {
    assert s.key(j) == Entry(s, j, u)[..s.keyWidth] && s.key(k) == Entry(s, k, v)[..s.keyWidth];
    assert s.value(u) == Entry(s, j, u)[s.keyWidth..] && s.value(v) == Entry(s, k, v)[s.keyWidth..];
  }

  lemma CommittedNoPairs<K(!new), V(!new)>(s: Schema<K, V>, m: map<K, V>, ks: seq<K>)
    requires LawfulSchema(s) && Enumerates(m, ks)
    ensures NoPairs(Committed(s, m, ks))
  {
    SortedKeysIn(s.less, m, ks);
    var es, sorted := Committed(s, m, ks), Sort(s.less, ks);
    forall i | 0 <= i < |es| ensures |es[i]| != 64 {
      assert es[i] == s.key(sorted[i]) + s.value(m[sorted[i]]);
    }
  }

  /** An entry is committed exactly when the table maps that key to that value. */
  lemma CommittedIff<K(!new), V(!new)>(s: Schema<K, V>, m: map<K, V>, ks: seq<K>, k: K, v: V)
    requires LawfulSchema(s) && Enumerates(m, ks)
    ensures Entry(s, k, v) in Committed(s, m, ks) <==> k in m && m[k] == v
  {
    SortedKeysIn(s.less, m, ks);
    var es, sorted := Committed(s, m, ks), Sort(s.less, ks);
    if i :| 0 <= i < |es| && es[i] == Entry(s, k, v) {
      EntryApart(s, sorted[i], m[sorted[i]], k, v);
    }
    if k in m && m[k] == v {
      assert k in Elems(sorted);
      var i :| 0 <= i < |sorted| && sorted[i] == k;
      assert es[i] == Entry(s, k, v);
    }
  }

  /** Two tables with the same root are equal, whatever their sizes, if nothing hashed for them collides. */
  lemma TableRootBinds<K(!new), V(!new)>(h: Hasher, s: Schema<K, V>, m: map<K, V>, ks: seq<K>, m': map<K, V>, ks': seq<K>)
    requires LawfulSchema(s) && Enumerates(m, ks) && Enumerates(m', ks')
    requires TableRoot(h, s, m, ks) == TableRoot(h, s, m', ks')
    requires InjectiveOn(h, Hashed(h, Committed(s, m, ks)) + Hashed(h, Committed(s, m', ks')))
    ensures m == m'
  {
    CommittedNoPairs(s, m, ks);
    CommittedNoPairs(s, m', ks');
    EntryRootBinds(h, Committed(s, m, ks), Committed(s, m', ks'));
    forall k | k in m ensures k in m' && m'[k] == m[k] {
      CommittedIff(s, m, ks, k, m[k]);
      CommittedIff(s, m', ks', k, m[k]);
    }
    forall k | k in m' ensures k in m {
      CommittedIff(s, m, ks, k, m'[k]);
      CommittedIff(s, m', ks', k, m'[k]);
    }
  }

  // ---- Proofs of entries ----

  /** A proof for an entry verifies: its leaf is the entry's hash and its steps lead to the root. */
  predicate EntryVerifies<K, V>(h: Hasher, s: Schema<K, V>, k: K, v: V, p: Proof, root: Digest) {
    p.leaf == h(Entry(s, k, v)) && Verifies(h, p, root)
  }

  /** Completeness: for every entry there is an index at which the tree's path proves it. */
  lemma EntryComplete<K(!new), V(!new)>(h: Hasher, s: Schema<K, V>, m: map<K, V>, ks: seq<K>, i: nat)
    requires LawfulSchema(s) && Enumerates(m, ks) && i < |m|
    ensures var sorted := Sort(s.less, ks); var xs := Leaves(h, Committed(s, m, ks));
      && sorted[i] in m
      && xs[i] == h(Entry(s, sorted[i], m[sorted[i]]))
      && Fold(h, xs[i], Path(h, xs, i)) == TableRoot(h, s, m, ks)
  {
    SortedKeysIn(s.less, m, ks);
    Complete(h, Leaves(h, Committed(s, m, ks)), i);
  }

  /** Soundness: a proof of any length is accepted only for an entry of the table, if nothing hashed collides. */
  lemma TableSound<K(!new), V(!new)>(h: Hasher, s: Schema<K, V>, m: map<K, V>, ks: seq<K>, k: K, v: V, p: Proof)
    requires LawfulSchema(s) && Enumerates(m, ks)
    requires EntryVerifies(h, s, k, v, p, TableRoot(h, s, m, ks))
    requires InjectiveOn(h, Hashed(h, Committed(s, m, ks)) + PathInputs(h, p.leaf, Steps(p)) + {Entry(s, k, v)})
    ensures k in m && m[k] == v && |Steps(p)| == Depth(|m|)
  {
    var es, entry := Committed(s, m, ks), Entry(s, k, v);
    CommittedNoPairs(s, m, ks);
    CommittedIff(s, m, ks, k, v);
    var inputs := Hashed(h, es) + PathInputs(h, p.leaf, Steps(p)) + {entry};
    if es == [] {
      assert Leaves(h, es) == [];
      assert |entry| > 0 && [] in Hashed(h, es);
      EmptyTableRefuses(h, entry, Steps(p), inputs);
    } else {
      EntrySound(h, es, entry, Steps(p));
      assert es[Position(|es|, Steps(p))] in es;
    }
  }

  lemma EmptyTableRefuses(h: Hasher, entry: seq<Byte>, steps: seq<Step>, inputs: set<seq<Byte>>)
    requires entry != [] && [] in inputs && entry in inputs && PathInputs(h, h(entry), steps) <= inputs
    requires InjectiveOn(h, inputs)
    ensures Fold(h, h(entry), steps) != h([])
  {
    if steps == [] {
      Distinct(h, inputs, entry, []);
    } else {
      FoldSplit(h, h(entry), steps, |steps|);
      assert steps[..|steps|] == steps;
      var z :| z in PathInputs(h, h(entry), steps) && |z| == 64 && Fold(h, h(entry), steps) == h(z);
      Distinct(h, inputs, z, []);
    }
  }
}

/** The crash-safe key-value store: an in-memory map backed by a write-ahead log and periodic
    snapshots, with a crash possible at every point. */
module Store {
  import opened Bytes
  import opened Wal

  datatype Config = Config(snapshotInterval: nat, maxSnapshots: nat, walEnabled: bool)

  /** What survives a crash. */
  datatype Disk = Disk(wal: seq<Byte>, snaps: map<nat, State>)

  /** What does not. `snapshots` lists the heights of the snapshots on disk, oldest first; `logging` says
      that the log file is open, which it is once the store is initialized. */
  datatype Mem = Mem(kv: State, height: nat, dirty: bool, snapshots: seq<nat>, logging: bool)

  datatype Node = Node(mem: Mem, disk: Disk)

  // ---- Snapshot lists ----

  ghost predicate Ascending(hs: seq<nat>) {
    hs != [] ==>
      var n := |hs| - 1;
      Ascending(hs[..n]) && (n > 0 ==> hs[n - 1] < hs[n])
  }

  lemma {:induction false} AscendingAt(hs: seq<nat>, i: nat, j: nat)
    requires Ascending(hs) && i < j < |hs|
    ensures hs[i] < hs[j]
  {
    var n := |hs| - 1;
    if j < n {
      AscendingAt(hs[..n], i, j);
    } else if i < n - 1 {
      AscendingAt(hs[..n], i, n - 1);
    }
  }

  lemma {:induction false} AscendingTail(hs: seq<nat>)
    requires Ascending(hs) && hs != []
    ensures Ascending(hs[1..])
  {
    var n := |hs| - 1;
    if n > 0 {
      AscendingTail(hs[..n]);
      assert hs[1..][..n - 1] == hs[..n][1..];
    }
  }

  function Elems(hs: seq<nat>): set<nat> { set h | h in hs }

  /** The list of snapshots is the sorted list of snapshot files. */
  ghost predicate Lists(hs: seq<nat>, snaps: map<nat, State>) { Ascending(hs) && Elems(hs) == snaps.Keys }

  lemma ElemsAre(hs: seq<nat>)
    ensures hs == [] <==> Elems(hs) == {}
    ensures hs != [] ==> hs[|hs| - 1] in Elems(hs)
  {
    if hs != [] { assert hs[|hs| - 1] in Elems(hs); }
  }

  lemma BelowLast(hs: seq<nat>, h: nat)
    requires Ascending(hs) && hs != [] && h in hs[..|hs| - 1]
    ensures h < hs[|hs| - 1]
  {
    var i :| 0 <= i < |hs| - 1 && hs[..|hs| - 1][i] == h;
    AscendingAt(hs, i, |hs| - 1);
  }

  lemma ElemsFront(hs: seq<nat>)
    requires Ascending(hs) && hs != []
    ensures var n := |hs| - 1; Elems(hs[..n]) == Elems(hs) - {hs[n]} && forall h :: h in Elems(hs) ==> h <= hs[n]
  {
    var front, last := hs[..|hs| - 1], hs[|hs| - 1];
    assert hs == front + [last];
    forall h ensures h in hs <==> h in front || h == last {}
    forall h ensures h in front <==> h in Elems(hs) && h != last { if h in front { BelowLast(hs, h); } }
    forall h | h in Elems(hs) ensures h <= last { if h in front { BelowLast(hs, h); } }
  }

  /** A directory has one sorted listing. */
  lemma {:induction false} ListsUnique(a: seq<nat>, b: seq<nat>)
    requires Ascending(a) && Ascending(b) && Elems(a) == Elems(b)
    ensures a == b
  {
    ElemsAre(a);
    ElemsAre(b);
    if a != [] {
      var m, n := |a| - 1, |b| - 1;
      ElemsFront(a);
      ElemsFront(b);
      ListsUnique(a[..m], b[..n]);
      assert a == a[..m] + [a[m]] && b == b[..n] + [b[n]];
    }
  }

  /** Where recovery starts: the latest snapshot, or nothing at height zero. */
  function Base(hs: seq<nat>, snaps: map<nat, State>): Recovery {
    if hs == [] || hs[|hs| - 1] !in snaps then Recovery(map[], 0, 0)
    else Recovery(snaps[hs[|hs| - 1]], hs[|hs| - 1], hs[|hs| - 1])
  }

  lemma AddNewest(hs: seq<nat>, snaps: map<nat, State>, h: nat, kv: State)
    requires Lists(hs, snaps) && (hs == [] || h > hs[|hs| - 1])
    ensures Lists(hs + [h], snaps[h := kv]) && Base(hs + [h], snaps[h := kv]) == Recovery(kv, h, h)
  {
    assert Elems(hs + [h]) == Elems(hs) + {h};
    assert (hs + [h])[..|hs|] == hs;
  }

  lemma ElemsTail(hs: seq<nat>)
    requires Ascending(hs) && |hs| > 0
    ensures Ascending(hs[1..]) && Elems(hs[1..]) == Elems(hs) - {hs[0]}
  {
    var tail := hs[1..];
    AscendingTail(hs);
    assert hs == [hs[0]] + tail;
    forall x ensures x in Elems(tail) <==> x in Elems(hs) - {hs[0]} {
      if x in tail {
        var i :| 0 <= i < |tail| && tail[i] == x;
        AscendingAt(hs, 0, i + 1);
      }
    }
  }

  lemma DropOldest(hs: seq<nat>, snaps: map<nat, State>)
    requires Lists(hs, snaps) && |hs| > 1
    ensures Lists(hs[1..], snaps - {hs[0]}) && Base(hs[1..], snaps - {hs[0]}) == Base(hs, snaps)
  {
    ElemsTail(hs);
    var last := hs[|hs| - 1];
    AscendingAt(hs, 0, |hs| - 1);
    assert hs[1..][|hs| - 2] == last;
    assert last in Elems(hs);
  }

  lemma BaseHeight(hs: seq<nat>, snaps: map<nat, State>)
    requires Lists(hs, snaps)
    ensures hs != [] ==> Base(hs, snaps).height == hs[|hs| - 1]
  {
    if hs != [] { assert hs[|hs| - 1] in Elems(hs); }
  }

  // ---- Operations ----

  function Append(cfg: Config, c: Codec, n: Node, e: WalEntry): Disk {
    if cfg.walEnabled && n.mem.logging then n.disk.(wal := n.disk.wal + Frame(c, e)) else n.disk
  }

  function DoSet(cfg: Config, c: Codec, n: Node, k: Key, v: Value, ts: nat): Node {
    Node(n.mem.(kv := n.mem.kv[k := v], dirty := true),
         Append(cfg, c, n, WalEntry(n.mem.height, Set(k, v), ts)))
  }

  function DoDelete(cfg: Config, c: Codec, n: Node, k: Key, ts: nat): Node {
    Node(n.mem.(kv := n.mem.kv - {k}, dirty := true),
         Append(cfg, c, n, WalEntry(n.mem.height, Delete(k), ts)))
  }

  function DoBegin(cfg: Config, c: Codec, n: Node, h: nat, ts: nat): Node {
    Node(n.mem.(height := h), Append(cfg, c, n, WalEntry(h, BeginBlock(h), ts)))
  }

  /** The commit record alone. */
  function LogCommit(cfg: Config, c: Codec, n: Node, hash: seq<Byte>, ts: nat): Node {
    n.(disk := Append(cfg, c, n, WalEntry(n.mem.height, CommitBlock(n.mem.height, hash), ts)))
  }

  predicate SnapshotDue(cfg: Config, m: Mem) {
    m.dirty && cfg.snapshotInterval > 0 && m.height % cfg.snapshotInterval == 0
  }

  /** The new snapshot file is in place. */
  function Renamed(n: Node): Node {
    Node(n.mem.(snapshots := n.mem.snapshots + [n.mem.height], dirty := false),
         n.disk.(snaps := n.disk.snaps[n.mem.height := n.mem.kv]))
  }

  function PruneOne(n: Node): Node
    requires n.mem.snapshots != []
  {
    Node(n.mem.(snapshots := n.mem.snapshots[1..]),
         n.disk.(snaps := n.disk.snaps - {n.mem.snapshots[0]}))
  }

  /** Drop the oldest snapshots until at most `max` are left. */
  function Prune(n: Node, max: nat): Node
    decreases |n.mem.snapshots|
  {
    if |n.mem.snapshots| <= max then n else Prune(PruneOne(n), max)
  }

  function Truncated(cfg: Config, n: Node): Node {
    if cfg.walEnabled then Node(n.mem.(logging := true), n.disk.(wal := [])) else n
  }

  function Snapshot(cfg: Config, n: Node): Node { Truncated(cfg, Prune(Renamed(n), cfg.maxSnapshots)) }

  function DoCommit(cfg: Config, c: Codec, n: Node, hash: seq<Byte>, ts: nat): Node {
    var logged := LogCommit(cfg, c, n, hash, ts);
    if SnapshotDue(cfg, logged.mem) then Snapshot(cfg, logged) else logged
  }

  // ---- Recovery ----

  /** What the disk holds before any rollback of the height. */
  function Raw(c: Codec, d: Disk, hs: seq<nat>): Recovery { ReplayAll(Base(hs, d.snaps), Records(c, d.wal)) }

  function Recovered(cfg: Config, c: Codec, d: Disk, hs: seq<nat>): Mem {
    var r := if cfg.walEnabled then RollBack(Raw(c, d, hs)) else Base(hs, d.snaps);
    Mem(r.kv, r.height, false, hs, cfg.walEnabled)
  }

  // ---- Idempotence of replay ----

  function ApplyOps(kv: State, es: seq<WalEntry>): State {
    if es == [] then kv else ApplyOp(ApplyOps(kv, es[..|es| - 1]), es[|es| - 1].op)
  }

  predicate Touches(op: WalOp, k: Key) { (op.Set? && op.key == k) || (op.Delete? && op.key == k) }

  /** Applying the same records to two maps gives maps that agree wherever a record wrote, or the
      two agreed before. */
  lemma {:induction false} ApplyAgree(a: State, b: State, es: seq<WalEntry>, k: Key)
    requires ((k in a <==> k in b) && (k in a ==> a[k] == b[k])) || exists i :: 0 <= i < |es| && Touches(es[i].op, k)
    ensures var x, y := ApplyOps(a, es), ApplyOps(b, es); (k in x <==> k in y) && (k in x ==> x[k] == y[k])
  {
    if es != [] {
      var n := |es| - 1;
      if !Touches(es[n].op, k) {
        if i :| 0 <= i < |es| && Touches(es[i].op, k) {
          assert es[..n][i] == es[i];
        }
        ApplyAgree(a, b, es[..n], k);
      }
    }
  }

  lemma {:induction false} ApplyUntouched(a: State, es: seq<WalEntry>, k: Key)
    requires forall i :: 0 <= i < |es| ==> !Touches(es[i].op, k)
    ensures var x := ApplyOps(a, es); (k in x <==> k in a) && (k in x ==> x[k] == a[k])
  {
    if es != [] {
      var n := |es| - 1;
      assert forall i :: 0 <= i < n ==> es[..n][i] == es[i];
      ApplyUntouched(a, es[..n], k);
    }
  }

  /** Applying a list of writes twice is the same as applying it once. */
  lemma ApplyTwice(a: State, es: seq<WalEntry>)
    ensures ApplyOps(ApplyOps(a, es), es) == ApplyOps(a, es)
  {
    var x := ApplyOps(a, es);
    var y := ApplyOps(x, es);
    forall k ensures (k in x <==> k in y) && (k in x ==> x[k] == y[k]) {
      if exists i :: 0 <= i < |es| && Touches(es[i].op, k) {
        ApplyAgree(a, x, es, k);
      } else {
        ApplyUntouched(x, es, k);
      }
    }
  }

  /** Block records carry the height of their entry. */
  predicate EntryOk(e: WalEntry) {
    match e.op
    case BeginBlock(h) => h == e.height
    case CommitBlock(h, _) => h == e.height
    case _ => true
  }

  /** The records' heights never decrease. */
  ghost predicate EntriesOk(es: seq<WalEntry>) {
    es != [] ==>
      var n := |es| - 1;
      EntriesOk(es[..n]) && EntryOk(es[n]) && LastHeight(es[..n]) <= es[n].height
  }

  function LastHeight(es: seq<WalEntry>): nat { if es == [] then 0 else es[|es| - 1].height }

  lemma {:induction false} EntriesAt(es: seq<WalEntry>, i: nat)
    requires EntriesOk(es) && i < |es|
    ensures es[i].height <= LastHeight(es)
  {
    var n := |es| - 1;
    if i < n { EntriesAt(es[..n], i); }
  }

  lemma {:induction false} EntriesFrom(es: seq<WalEntry>, k: nat)
    requires EntriesOk(es) && k <= |es|
    ensures EntriesOk(es[k..])
    ensures forall i :: k <= i < |es| ==> es[k].height <= es[i].height
  {
    var n := |es| - 1;
    if k == |es| {
      assert es[k..] == [];
    } else {
      EntriesFrom(es[..n], k);
      assert es[k..][..n - k] == es[..n][k..];
    }
  }

  lemma {:induction false} EntriesTo(es: seq<WalEntry>, k: nat)
    requires EntriesOk(es) && k <= |es|
    ensures EntriesOk(es[..k])
  {
    if k < |es| {
      EntriesTo(es[..|es| - 1], k);
      assert es[..|es| - 1][..k] == es[..k];
    } else {
      assert es[..k] == es;
    }
  }

  lemma {:induction false} ReplaySkips(r: Recovery, es: seq<WalEntry>)
    requires forall i :: 0 <= i < |es| ==> es[i].height < r.height
    ensures ReplayAll(r, es) == r
  {
    if es != [] { ReplaySkips(r, es[..|es| - 1]); }
  }

  /** Records of the height already reached only write. */
  lemma {:induction false} ReplayLevel(r: Recovery, es: seq<WalEntry>)
    requires EntriesOk(es) && r.height == r.committed && forall i :: 0 <= i < |es| ==> es[i].height == r.height
    ensures ReplayAll(r, es) == r.(kv := ApplyOps(r.kv, es))
  {
    if es != [] { ReplayLevel(r, es[..|es| - 1]); }
  }

  /** Records of one height reached or not yet reached write all they hold. */
  lemma {:induction false} ReplayWrites(r: Recovery, es: seq<WalEntry>, h: nat)
    requires EntriesOk(es) && r.height <= h && forall i :: 0 <= i < |es| ==> es[i].height == h
    ensures ReplayAll(r, es).kv == ApplyOps(r.kv, es) && ReplayAll(r, es).height <= h
  {
    if es != [] { ReplayWrites(r, es[..|es| - 1], h); }
  }

  lemma {:induction false} ReplaySplit(r: Recovery, a: seq<WalEntry>, b: seq<WalEntry>)
    ensures ReplayAll(r, a + b) == ReplayAll(ReplayAll(r, a), b)
  {
    if b == [] {
      assert a + b == a;
    } else {
      var n := |b| - 1;
      ReplaySplit(r, a, b[..n]);
      assert (a + b)[..|a| + n] == a + b[..n];
    }
  }

  lemma {:induction false} ReplayBound(r: Recovery, es: seq<WalEntry>, h: nat)
    requires r.height <= h && EntriesOk(es) && forall i :: 0 <= i < |es| ==> es[i].height < h
    ensures ReplayAll(r, es).height <= h
  {
    if es != [] { ReplayBound(r, es[..|es| - 1], h); }
  }

  function Below(es: seq<WalEntry>, h: nat): (k: nat)
    ensures k <= |es|
    ensures forall i :: 0 <= i < k ==> es[i].height < h
    ensures k < |es| ==> es[k].height >= h
  {
    if es == [] || es[0].height >= h then 0 else 1 + Below(es[1..], h)
  }

  lemma ReplayPartsTwice(base: Recovery, a: seq<WalEntry>, b: seq<WalEntry>, h: nat)
    requires EntriesOk(a) && EntriesOk(b) && base.height <= h
    requires forall i :: 0 <= i < |a| ==> a[i].height < h
    requires forall i :: 0 <= i < |b| ==> b[i].height == h
    ensures var kv := ReplayAll(base, a + b).kv; ReplayAll(Recovery(kv, h, h), a + b) == Recovery(kv, h, h)
  {
    ReplaySplit(base, a, b);
    var x := ReplayAll(base, a);
    ReplayBound(base, a, h);
    ReplayWrites(x, b, h);
    var kv := ApplyOps(x.kv, b);
    var snap := Recovery(kv, h, h);
    ReplaySplit(snap, a, b);
    ReplaySkips(snap, a);
    ReplayLevel(snap, b);
    ApplyTwice(x.kv, b);
  }

  lemma CutAt(es: seq<WalEntry>, h: nat) returns (a: seq<WalEntry>, b: seq<WalEntry>)
    requires EntriesOk(es) && LastHeight(es) <= h
    ensures es == a + b && EntriesOk(a) && EntriesOk(b)
    ensures forall i :: 0 <= i < |a| ==> a[i].height < h
    ensures forall i :: 0 <= i < |b| ==> b[i].height == h
  {
    var k := Below(es, h);
    a, b := es[..k], es[k..];
    EntriesTo(es, k);
    EntriesFrom(es, k);
    forall i | 0 <= i < |b| ensures b[i].height == h {
      EntriesAt(es, k + i);
    }
  }

  /** Replaying a log over a snapshot that already contains its effect changes nothing: records
      below the snapshot's height are skipped, those at it write what is already there. */
  lemma ReplayOverSnapshot(base: Recovery, es: seq<WalEntry>, h: nat)
    requires EntriesOk(es) && base.height <= h && LastHeight(es) <= h
    ensures var kv := ReplayAll(base, es).kv; ReplayAll(Recovery(kv, h, h), es) == Recovery(kv, h, h)
  {
    var a, b := CutAt(es, h);
    ReplayPartsTwice(base, a, b, h);
  }

  // ---- The invariant ----

  /** Log and snapshots on disk hold exactly the map in memory. `es` are the records in the log. */
  ghost predicate Inv(cfg: Config, c: Codec, n: Node, es: seq<WalEntry>) {
    var base := Base(n.mem.snapshots, n.disk.snaps);
    var raw := ReplayAll(base, es);
    && cfg.walEnabled && n.mem.logging && cfg.maxSnapshots >= 1 && Lawful(c)
    && n.disk.wal == Log(c, es) && AllFit(c, es) && EntriesOk(es)
    && Lists(n.mem.snapshots, n.disk.snaps)
    && raw.kv == n.mem.kv
    && base.height <= raw.committed <= raw.height
    && LastHeight(es) <= raw.height
    && (n.mem.height == raw.height || (n.mem.height == raw.committed && !n.mem.dirty))
  }

  lemma InvRaw(cfg: Config, c: Codec, n: Node, es: seq<WalEntry>)
    requires Inv(cfg, c, n, es)
    ensures Records(c, n.disk.wal) == es
    ensures Raw(c, n.disk, n.mem.snapshots) == ReplayAll(Base(n.mem.snapshots, n.disk.snaps), es)
  {
    LogRoundTrip(c, es);
  }

  /** A block is begun and not committed, as far as the disk tells. */
  ghost predicate OpenOnDisk(c: Codec, n: Node) {
    var raw := Raw(c, n.disk, n.mem.snapshots);
    raw.height > raw.committed
  }

  /** The height in memory is the height on disk: no rolled-back block is pending. */
  ghost predicate Current(c: Codec, n: Node) { n.mem.height == Raw(c, n.disk, n.mem.snapshots).height }

  /** Recovery at any point gives back exactly the map; it gives back the height exactly when no block
      was open (and always does after such a rollback). */
  lemma RecoveryExact(cfg: Config, c: Codec, n: Node, es: seq<WalEntry>)
    requires Inv(cfg, c, n, es)
    ensures var m := Recovered(cfg, c, n.disk, n.mem.snapshots);
      && m.kv == n.mem.kv
      && (m.height == n.mem.height <==> !(Current(c, n) && OpenOnDisk(c, n)))
  {
    InvRaw(cfg, c, n, es);
  }

  /** The node that recovery brings up satisfies the invariant again. */
  lemma RecoveryKeeps(cfg: Config, c: Codec, n: Node, es: seq<WalEntry>)
    requires Inv(cfg, c, n, es)
    ensures Inv(cfg, c, Node(Recovered(cfg, c, n.disk, n.mem.snapshots), n.disk), es)
  {
    InvRaw(cfg, c, n, es);
  }

  // ---- Every operation keeps it ----

  lemma AppendKeeps(cfg: Config, c: Codec, n: Node, es: seq<WalEntry>, e: WalEntry)
    requires Inv(cfg, c, n, es) && Fits(c, e) && EntryOk(e)
    requires e.height >= ReplayAll(Base(n.mem.snapshots, n.disk.snaps), es).height
    ensures var more := es + [e]; var base := Base(n.mem.snapshots, n.disk.snaps);
      && Append(cfg, c, n, e) == n.disk.(wal := Log(c, more))
      && AllFit(c, more) && EntriesOk(more)
      && ReplayAll(base, more) == ReplayOne(ReplayAll(base, es), e)
  {
    LogBack(c, es, e);
    assert (es + [e])[..|es|] == es;
    ReplayMore(Base(n.mem.snapshots, n.disk.snaps), es, e);
  }

  lemma SetKeeps(cfg: Config, c: Codec, n: Node, es: seq<WalEntry>, k: Key, v: Value, ts: nat)
    requires Inv(cfg, c, n, es) && Current(c, n) && Fits(c, WalEntry(n.mem.height, Set(k, v), ts))
    ensures Inv(cfg, c, DoSet(cfg, c, n, k, v, ts), es + [WalEntry(n.mem.height, Set(k, v), ts)])
    ensures Current(c, DoSet(cfg, c, n, k, v, ts))
  {
    InvRaw(cfg, c, n, es);
    var e := WalEntry(n.mem.height, Set(k, v), ts);
    AppendKeeps(cfg, c, n, es, e);
    InvRaw(cfg, c, DoSet(cfg, c, n, k, v, ts), es + [e]);
  }

  lemma DeleteKeeps(cfg: Config, c: Codec, n: Node, es: seq<WalEntry>, k: Key, ts: nat)
    requires Inv(cfg, c, n, es) && Current(c, n) && Fits(c, WalEntry(n.mem.height, Delete(k), ts))
    ensures Inv(cfg, c, DoDelete(cfg, c, n, k, ts), es + [WalEntry(n.mem.height, Delete(k), ts)])
    ensures Current(c, DoDelete(cfg, c, n, k, ts))
  {
    InvRaw(cfg, c, n, es);
    var e := WalEntry(n.mem.height, Delete(k), ts);
    AppendKeeps(cfg, c, n, es, e);
    InvRaw(cfg, c, DoDelete(cfg, c, n, k, ts), es + [e]);
  }

  lemma BeginKeeps(cfg: Config, c: Codec, n: Node, es: seq<WalEntry>, h: nat, ts: nat)
    requires Inv(cfg, c, n, es) && Fits(c, WalEntry(h, BeginBlock(h), ts))
    requires h >= Raw(c, n.disk, n.mem.snapshots).height
    ensures Inv(cfg, c, DoBegin(cfg, c, n, h, ts), es + [WalEntry(h, BeginBlock(h), ts)])
    ensures Current(c, DoBegin(cfg, c, n, h, ts))
  {
    InvRaw(cfg, c, n, es);
    var e := WalEntry(h, BeginBlock(h), ts);
    AppendKeeps(cfg, c, n, es, e);
    InvRaw(cfg, c, DoBegin(cfg, c, n, h, ts), es + [e]);
  }

  lemma LogCommitKeeps(cfg: Config, c: Codec, n: Node, es: seq<WalEntry>, hash: seq<Byte>, ts: nat)
    requires Inv(cfg, c, n, es) && Current(c, n)
    requires Fits(c, WalEntry(n.mem.height, CommitBlock(n.mem.height, hash), ts))
    ensures var m := LogCommit(cfg, c, n, hash, ts);
      && Inv(cfg, c, m, es + [WalEntry(n.mem.height, CommitBlock(n.mem.height, hash), ts)])
      && Current(c, m) && !OpenOnDisk(c, m)
  {
    InvRaw(cfg, c, n, es);
    var e := WalEntry(n.mem.height, CommitBlock(n.mem.height, hash), ts);
    AppendKeeps(cfg, c, n, es, e);
    InvRaw(cfg, c, LogCommit(cfg, c, n, hash, ts), es + [e]);
  }

  // ---- Snapshots, stage by stage ----

  /** The snapshot file of the current state is in place and newest; the log may still be full. */
  ghost predicate Saved(cfg: Config, c: Codec, n: Node, es: seq<WalEntry>) {
    var m := n.mem;
    && cfg.walEnabled && n.mem.logging && cfg.maxSnapshots >= 1 && Lawful(c)
    && n.disk.wal == Log(c, es) && AllFit(c, es) && EntriesOk(es)
    && Lists(m.snapshots, n.disk.snaps)
    && Base(m.snapshots, n.disk.snaps) == Recovery(m.kv, m.height, m.height)
    && ReplayAll(Recovery(m.kv, m.height, m.height), es) == Recovery(m.kv, m.height, m.height)
    && LastHeight(es) <= m.height
  }

  lemma SavedInv(cfg: Config, c: Codec, n: Node, es: seq<WalEntry>)
    requires Saved(cfg, c, n, es)
    ensures Inv(cfg, c, n, es) && Current(c, n) && !OpenOnDisk(c, n)
  {
    LogRoundTrip(c, es);
  }

  /** After the rename: the commit record made the height current and closed, so the new snapshot is
      newer than all others. */
  lemma RenamedSaved(cfg: Config, c: Codec, n: Node, es: seq<WalEntry>)
    requires Inv(cfg, c, n, es) && Current(c, n)
    requires n.mem.height > Base(n.mem.snapshots, n.disk.snaps).height || n.mem.snapshots == []
    ensures Saved(cfg, c, Renamed(n), es)
  {
    InvRaw(cfg, c, n, es);
    var hs, h := n.mem.snapshots, n.mem.height;
    BaseHeight(hs, n.disk.snaps);
    AddNewest(hs, n.disk.snaps, h, n.mem.kv);
    ReplayOverSnapshot(Base(hs, n.disk.snaps), es, h);
  }

  lemma PruneOneSaved(cfg: Config, c: Codec, n: Node, es: seq<WalEntry>)
    requires Saved(cfg, c, n, es) && |n.mem.snapshots| > 1
    ensures Saved(cfg, c, PruneOne(n), es)
  {
    DropOldest(n.mem.snapshots, n.disk.snaps);
  }

  /** Pruning, at any point of it, leaves the newest snapshot in place. */
  lemma {:induction false} PruneSaved(cfg: Config, c: Codec, n: Node, es: seq<WalEntry>, max: nat)
    requires Saved(cfg, c, n, es) && max >= 1
    ensures Saved(cfg, c, Prune(n, max), es)
    ensures Prune(n, max).mem.kv == n.mem.kv && Prune(n, max).mem.height == n.mem.height
    decreases |n.mem.snapshots|
  {
    if |n.mem.snapshots| > max {
      PruneOneSaved(cfg, c, n, es);
      PruneSaved(cfg, c, PruneOne(n), es, max);
    }
  }

  lemma TruncatedSaved(cfg: Config, c: Codec, n: Node, es: seq<WalEntry>)
    requires Saved(cfg, c, n, es)
    ensures Saved(cfg, c, Truncated(cfg, n), [])
  {
  }
}

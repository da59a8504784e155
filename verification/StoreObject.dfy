/** The store as an object that updates its fields and the files of its directory step by step. */
module StoreObject {
  import opened Bytes
  import opened Wal
  import opened Store

  datatype IoResult = Done | NotFound(height: nat)

  /** The files a store owns. */
  class Directory {
    var wal: seq<Byte>
    var snaps: map<nat, State>

    constructor ()
      ensures wal == [] && snaps == map[]
    {
      wal, snaps := [], map[];
    }

    ghost function Contents(): Disk
      reads this
    {
      Disk(wal, snaps)
    }
  }

  ghost predicate AllDistinct(hs: seq<nat>) { forall i, j :: 0 <= i < j < |hs| ==> hs[i] != hs[j] }

  /** Put a height into its place in an ascending list. */
  method InsertSorted(hs: seq<nat>, h: nat) returns (r: seq<nat>)
    requires Ascending(hs) && h !in hs
    ensures Ascending(r) && Elems(r) == Elems(hs) + {h}
  {
    var i := |hs|;
    assert hs[..i] == hs && [h] + hs[i..] == [h];
    assert [h][..0] == [];
    while i > 0 && hs[i - 1] > h
      invariant 0 <= i <= |hs|
      invariant Ascending([h] + hs[i..])
    {
      i := i - 1;
      AscendingCons(hs, h, i);
    }
    r := hs[..i] + ([h] + hs[i..]);
    AscendingFront(hs, i);
    if i > 0 { assert hs[i - 1] in hs; }
    AscendingJoin(hs[..i], [h] + hs[i..]);
    ElemsInserted(hs, h, i);
  }

  lemma ElemsInserted(hs: seq<nat>, h: nat, i: nat)
    requires i <= |hs|
    ensures Elems(hs[..i] + ([h] + hs[i..])) == Elems(hs) + {h}
  {
    assert hs == hs[..i] + hs[i..];
    assert forall x :: x in hs <==> x in hs[..i] || x in hs[i..];
  }

  lemma {:induction false} AscendingFront(hs: seq<nat>, i: nat)
    requires Ascending(hs) && i <= |hs|
    ensures Ascending(hs[..i])
  {
    if i < |hs| {
      AscendingFront(hs[..|hs| - 1], i);
      assert hs[..|hs| - 1][..i] == hs[..i];
    } else {
      assert hs[..i] == hs;
    }
  }

  lemma {:induction false} AscendingCons(hs: seq<nat>, h: nat, i: nat)
    requires Ascending(hs) && i < |hs| && h < hs[i]
    ensures Ascending([h] + hs[i..])
  {
    var n := |hs| - 1;
    var r := [h] + hs[i..];
    if i == n {
      assert r[..1] == [h] && [h][..0] == [];
    } else {
      AscendingCons(hs[..n], h, i);
      assert r[..|r| - 1] == [h] + hs[..n][i..];
    }
  }

  lemma {:induction false} AscendingJoin(a: seq<nat>, b: seq<nat>)
    requires Ascending(a) && Ascending(b) && (a != [] && b != [] ==> a[|a| - 1] < b[0])
    ensures Ascending(a + b)
  {
    if b == [] {
      assert a + b == a;
    } else {
      var n := |b| - 1;
      AscendingJoin(a, b[..n]);
      assert (a + b)[..|a| + n] == a + b[..n];
    }
  }

  /** List the snapshot files: `files` are their heights in directory order, each once. */
  method ScanSnapshots(files: seq<nat>) returns (hs: seq<nat>)
    requires AllDistinct(files)
    ensures Ascending(hs) && Elems(hs) == Elems(files)
  {
    hs := [];
    for i := 0 to |files|
      invariant Ascending(hs) && Elems(hs) == Elems(files[..i])
    {
      assert files[i] !in files[..i];
      assert files[i] !in Elems(hs);
      hs := InsertSorted(hs, files[i]);
      assert files[..i + 1] == files[..i] + [files[i]];
    }
    assert files[..|files|] == files;
  }

  /** Bring up a store whose memory is `m`: the latest snapshot replaces it, and the log is replayed on top. */
  function Started(cfg: Config, c: Codec, m: Mem, d: Disk, hs: seq<nat>): Mem {
    var from := if hs == [] then Recovery(m.kv, m.height, m.height) else Base(hs, d.snaps);
    var r := if cfg.walEnabled then RollBack(ReplayAll(from, Records(c, d.wal))) else from;
    Mem(r.kv, r.height, hs == [] && m.dirty, hs, cfg.walEnabled || m.logging)
  }

  class MmapState {
    const cfg: Config
    const codec: Codec
    const dir: Directory
    var kv: State
    var height: nat
    var dirty: bool
    var snapshots: seq<nat>
    var walOpen: bool

    ghost function Now(): Node
      reads this, dir
    {
      Node(Mem(kv, height, dirty, snapshots, walOpen), dir.Contents())
    }

    constructor (cfg: Config, codec: Codec, dir: Directory)
      ensures this.cfg == cfg && this.codec == codec && this.dir == dir
      ensures Now() == Node(Mem(map[], 0, false, [], false), dir.Contents())
    {
      this.cfg, this.codec, this.dir := cfg, codec, dir;
      kv, height, dirty, snapshots, walOpen := map[], 0, false, [], false;
    }

    /** Append one framed record to the log file, if it is open. */
    method WriteWalEntry(e: WalEntry)
      modifies dir
      ensures Now() == old(Now()).(disk :=
        if walOpen then old(dir.Contents()).(wal := old(dir.wal) + Frame(codec, e)) else old(dir.Contents()))
    {
      if walOpen {
        var data := codec.encode(e);
        dir.wal := dir.wal + ToLe(|data|, 4);
        dir.wal := dir.wal + data;
        assert dir.wal == old(dir.wal) + Frame(codec, e);
      }
    }

    method Put(k: Key, v: Value, ts: nat)
      modifies this, dir
      ensures Now() == DoSet(cfg, codec, old(Now()), k, v, ts)
    {
      if cfg.walEnabled {
        WriteWalEntry(WalEntry(height, Set(k, v), ts));
      }
      kv := kv[k := v];
      dirty := true;
    }

    method Remove(k: Key, ts: nat)
      modifies this, dir
      ensures Now() == DoDelete(cfg, codec, old(Now()), k, ts)
    {
      if cfg.walEnabled {
        WriteWalEntry(WalEntry(height, Delete(k), ts));
      }
      kv := kv - {k};
      dirty := true;
    }

    method StartBlock(h: nat, ts: nat)
      modifies this, dir
      ensures Now() == DoBegin(cfg, codec, old(Now()), h, ts)
    {
      height := h;
      if cfg.walEnabled {
        WriteWalEntry(WalEntry(h, BeginBlock(h), ts));
      }
    }

    method EndBlock(hash: seq<Byte>, ts: nat)
      modifies this, dir
      ensures Now() == DoCommit(cfg, codec, old(Now()), hash, ts)
    {
      if cfg.walEnabled {
        WriteWalEntry(WalEntry(height, CommitBlock(height, hash), ts));
      }
      assert Now() == LogCommit(cfg, codec, old(Now()), hash, ts);
      if dirty && cfg.snapshotInterval > 0 && height % cfg.snapshotInterval == 0 {
        TakeSnapshot();
      }
    }

    method TakeSnapshot()
      modifies this, dir
      ensures Now() == Snapshot(cfg, old(Now()))
    {
      dir.snaps := dir.snaps[height := kv];
      snapshots := snapshots + [height];
      dirty := false;
      PruneSnapshots();
      if cfg.walEnabled {
        TruncateWal();
      }
    }

    method PruneSnapshots()
      modifies this, dir
      ensures Now() == Prune(old(Now()), cfg.maxSnapshots)
    {
      while |snapshots| > cfg.maxSnapshots
        invariant Prune(Now(), cfg.maxSnapshots) == Prune(old(Now()), cfg.maxSnapshots)
        decreases |snapshots|
      {
        ghost var before := Now();
        var oldest := snapshots[0];
        snapshots := snapshots[1..];
        if oldest in dir.snaps {
          dir.snaps := dir.snaps - {oldest};
        }
        assert before.disk.snaps - {oldest} == dir.snaps;
        assert Now() == PruneOne(before);
      }
    }

    method TruncateWal()
      modifies this, dir
      ensures Now() == Node(old(Now()).mem.(logging := true), old(Now()).disk.(wal := []))
    {
      walOpen := false;
      dir.wal := [];
      walOpen := true;
    }

    /** Load the snapshot of a height, or report that there is none. */
    method RestoreSnapshot(h: nat) returns (r: IoResult)
      modifies this
      ensures h !in dir.snaps ==> r == NotFound(h) && Now() == old(Now())
      ensures h in dir.snaps ==>
        r == Done && Now() == old(Now()).(mem := old(Now()).mem.(kv := dir.snaps[h], height := h, dirty := false))
    {
      if h !in dir.snaps {
        return NotFound(h);
      }
      kv := dir.snaps[h];
      height := h;
      dirty := false;
      r := Done;
    }

    /** Scan the snapshots, load the latest, replay the log and open it. On a new object this is recovery. */
    method Initialize(files: seq<nat>) returns (r: IoResult)
      requires AllDistinct(files) && Elems(files) == dir.snaps.Keys
      modifies this
      ensures r == Done && Lists(snapshots, dir.snaps)
      ensures Now() == Node(Started(cfg, codec, old(Now().mem), old(dir.Contents()), snapshots), old(dir.Contents()))
      ensures old(Now().mem) == Mem(map[], 0, false, [], false) ==>
        Now().mem == Recovered(cfg, codec, old(dir.Contents()), snapshots)
    {
      r := Done;
      snapshots := ScanSnapshots(files);
      if |snapshots| > 0 {
        ElemsAre(snapshots);
        r := RestoreSnapshot(snapshots[|snapshots| - 1]);
      }
      if cfg.walEnabled {
        var rec := ReplayWal(codec, dir.wal, kv, height);
        kv, height := rec.kv, rec.height;
        walOpen := true;
      }
    }
  }
}

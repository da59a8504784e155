/** Whole runs of the store against a plain map that never touches a disk, with crashes between any two effects
    on the disk: between operations, and at every stage of a commit. (Within any other operation the record is the
    only effect, so a crash there is a crash before or after it; a record cut short is treated at the end.) */
module StoreRuns {
  import opened Bytes
  import opened Wal
  import opened Store

  // ---- Crashes while a snapshot is taken ----

  /** The `j` oldest snapshots of the list are gone. */
  function PartlyPruned(n: Node, j: nat): Node
    requires j <= |n.mem.snapshots|
  {
    var hs := n.mem.snapshots;
    Node(n.mem.(snapshots := hs[j..]), n.disk.(snaps := n.disk.snaps - Elems(hs[..j])))
  }

  /** How many of `n` snapshots pruning removes. */
  function Excess(n: nat, max: nat): nat { if n <= max then 0 else n - max }

  lemma ElemsTwice(hs: seq<nat>, snaps: map<nat, State>, j: nat)
    requires 0 < j <= |hs|
    ensures snaps - {hs[0]} - Elems(hs[1..][..j - 1]) == snaps - Elems(hs[..j]) && hs[1..][j - 1..] == hs[j..]
  {
    assert hs[..j] == [hs[0]] + hs[1..][..j - 1];
    assert Elems(hs[..j]) == {hs[0]} + Elems(hs[1..][..j - 1]);
  }

  lemma NonePruned(n: Node)
    ensures PartlyPruned(n, 0) == n
  {
    assert n.mem.snapshots[..0] == [] && Elems([]) == {};
    assert n.disk.snaps - {} == n.disk.snaps;
  }

  /** Pruning goes through these stages, whatever the list looks like: after the `j` oldest the next one goes, until
      few enough are left. */
  lemma {:induction false} PruneIs(n: Node, max: nat)
    ensures Prune(n, max) == PartlyPruned(n, Excess(|n.mem.snapshots|, max))
    decreases |n.mem.snapshots|
  {
    var hs := n.mem.snapshots;
    if |hs| <= max {
      NonePruned(n);
    } else {
      PruneIs(PruneOne(n), max);
      ElemsTwice(hs, n.disk.snaps, |hs| - max);
    }
  }

  lemma {:induction false} DropOldestMany(hs: seq<nat>, snaps: map<nat, State>, j: nat)
    requires Lists(hs, snaps) && (j < |hs| || j == 0)
    ensures Lists(hs[j..], snaps - Elems(hs[..j])) && Base(hs[j..], snaps - Elems(hs[..j])) == Base(hs, snaps)
    decreases j
  {
    if j == 0 {
      assert hs[0..] == hs && hs[..0] == [] && Elems([]) == {};
      assert snaps - {} == snaps;
    } else {
      DropOldest(hs, snaps);
      DropOldestMany(hs[1..], snaps - {hs[0]}, j - 1);
      ElemsTwice(hs, snaps, j);
    }
  }

  lemma PartlyPrunedSaved(cfg: Config, c: Codec, n: Node, es: seq<WalEntry>, j: nat)
    requires Saved(cfg, c, n, es) && j < |n.mem.snapshots|
    ensures Saved(cfg, c, PartlyPruned(n, j), es)
  {
    DropOldestMany(n.mem.snapshots, n.disk.snaps, j);
  }

  /** Recovery from the disk of `n`, whatever the order in which the directory was scanned, finds `m`'s map
      and height. */
  ghost predicate Recovers(cfg: Config, c: Codec, d: Disk, m: Mem) {
    forall hs :: Lists(hs, d.snaps) ==>
      Recovered(cfg, c, d, hs).kv == m.kv && Recovered(cfg, c, d, hs).height == m.height
  }

  lemma InvRecovers(cfg: Config, c: Codec, n: Node, es: seq<WalEntry>)
    requires Inv(cfg, c, n, es) && !(Current(c, n) && OpenOnDisk(c, n))
    ensures Recovers(cfg, c, n.disk, n.mem)
  {
    RecoveryExact(cfg, c, n, es);
    forall hs | Lists(hs, n.disk.snaps)
      ensures Recovered(cfg, c, n.disk, hs).kv == n.mem.kv && Recovered(cfg, c, n.disk, hs).height == n.mem.height
    {
      ListsUnique(hs, n.mem.snapshots);
    }
  }

  /** A crash anywhere between the commit record and the end of the commit recovers exactly the committed map
      and height: before the snapshot is renamed, after any number of old ones is pruned, and after the log is
      truncated. */
  lemma CrashDuringCommit(cfg: Config, c: Codec, n: Node, es: seq<WalEntry>, hash: seq<Byte>, ts: nat, j: nat)
    requires Inv(cfg, c, n, es) && Current(c, n) && OpenOnDisk(c, n)
    requires Fits(c, WalEntry(n.mem.height, CommitBlock(n.mem.height, hash), ts))
    requires j <= |n.mem.snapshots|
    ensures var logged := LogCommit(cfg, c, n, hash, ts);
      && Recovers(cfg, c, logged.disk, n.mem)
      && Recovers(cfg, c, PartlyPruned(Renamed(logged), j).disk, n.mem)
      && Recovers(cfg, c, DoCommit(cfg, c, n, hash, ts).disk, n.mem)
  {
    var e := WalEntry(n.mem.height, CommitBlock(n.mem.height, hash), ts);
    var more := es + [e];
    var logged := LogCommit(cfg, c, n, hash, ts);
    LogCommitKeeps(cfg, c, n, es, hash, ts);
    InvRecovers(cfg, c, logged, more);
    CommitRenamed(cfg, c, n, es, hash, ts);
    PartlyPrunedSaved(cfg, c, Renamed(logged), more, j);
    SavedInv(cfg, c, PartlyPruned(Renamed(logged), j), more);
    InvRecovers(cfg, c, PartlyPruned(Renamed(logged), j), more);
    var es' := CommitKeeps(cfg, c, n, es, hash, ts);
    InvRecovers(cfg, c, DoCommit(cfg, c, n, hash, ts), es');
  }

  lemma CommitRenamed(cfg: Config, c: Codec, n: Node, es: seq<WalEntry>, hash: seq<Byte>, ts: nat)
    requires Inv(cfg, c, n, es) && Current(c, n) && OpenOnDisk(c, n)
    requires Fits(c, WalEntry(n.mem.height, CommitBlock(n.mem.height, hash), ts))
    ensures Saved(cfg, c, Renamed(LogCommit(cfg, c, n, hash, ts)),
                  es + [WalEntry(n.mem.height, CommitBlock(n.mem.height, hash), ts)])
  {
    InvRaw(cfg, c, n, es);
    LogCommitKeeps(cfg, c, n, es, hash, ts);
    RenamedSaved(cfg, c, LogCommit(cfg, c, n, hash, ts),
                 es + [WalEntry(n.mem.height, CommitBlock(n.mem.height, hash), ts)]);
  }

  /** Committing an open block keeps the invariant, with or without a snapshot. */
  lemma CommitKeeps(cfg: Config, c: Codec, n: Node, es: seq<WalEntry>, hash: seq<Byte>, ts: nat)
    returns (es': seq<WalEntry>)
    requires Inv(cfg, c, n, es) && Current(c, n) && OpenOnDisk(c, n)
    requires Fits(c, WalEntry(n.mem.height, CommitBlock(n.mem.height, hash), ts))
    ensures var m := DoCommit(cfg, c, n, hash, ts);
      && Inv(cfg, c, m, es') && Current(c, m) && !OpenOnDisk(c, m)
      && m.mem.kv == n.mem.kv && m.mem.height == n.mem.height
  {
    var logged := LogCommit(cfg, c, n, hash, ts);
    es' := es + [WalEntry(n.mem.height, CommitBlock(n.mem.height, hash), ts)];
    LogCommitKeeps(cfg, c, n, es, hash, ts);
    if SnapshotDue(cfg, logged.mem) {
      CommitRenamed(cfg, c, n, es, hash, ts);
      PruneSaved(cfg, c, Renamed(logged), es', cfg.maxSnapshots);
      var pruned := Prune(Renamed(logged), cfg.maxSnapshots);
      TruncatedSaved(cfg, c, pruned, es');
      es' := [];
      SavedInv(cfg, c, Truncated(cfg, pruned), es');
    }
  }

  // ---- Runs ----

  /** A crash loses the memory and brings the store up again; `hs` is what the directory scan finds. It may come
      between operations, or inside a commit: after its record, or with the snapshot renamed and `pruned` old ones
      gone but the log still full. (After truncation the commit is complete.) */
  datatype Step =
    | DoSetStep(k: Key, v: Value, ts: nat)
    | DoDeleteStep(k: Key, ts: nat)
    | BeginStep(h: nat, ts: nat)
    | CommitStep(hash: seq<Byte>, ts: nat)
    | Crash(hs: seq<nat>)
    | CrashAfterRecord(hash: seq<Byte>, ts: nat, hs: seq<nat>)
    | CrashInSnapshot(hash: seq<Byte>, ts: nat, pruned: nat, hs: seq<nat>)

  /** What the disk holds when a commit has renamed its snapshot and pruned so many. */
  function MidSnapshot(cfg: Config, c: Codec, n: Node, hash: seq<Byte>, ts: nat, pruned: nat): Node {
    var renamed := Renamed(LogCommit(cfg, c, n, hash, ts));
    if pruned <= |renamed.mem.snapshots| then PartlyPruned(renamed, pruned) else renamed
  }

  function Restart(cfg: Config, c: Codec, d: Disk, hs: seq<nat>): Node { Node(Recovered(cfg, c, d, hs), d) }

  function Take(cfg: Config, c: Codec, n: Node, s: Step): Node {
    match s
    case DoSetStep(k, v, ts) => DoSet(cfg, c, n, k, v, ts)
    case DoDeleteStep(k, ts) => DoDelete(cfg, c, n, k, ts)
    case BeginStep(h, ts) => DoBegin(cfg, c, n, h, ts)
    case CommitStep(hash, ts) => DoCommit(cfg, c, n, hash, ts)
    case Crash(hs) => Restart(cfg, c, n.disk, hs)
    case CrashAfterRecord(hash, ts, hs) => Restart(cfg, c, LogCommit(cfg, c, n, hash, ts).disk, hs)
    case CrashInSnapshot(hash, ts, j, hs) => Restart(cfg, c, MidSnapshot(cfg, c, n, hash, ts, j).disk, hs)
  }

  /** The store without a disk: its map, its height, the last committed height and the highest begun one. A
      crash takes the height back to the last commit and leaves the map alone; a crash inside a commit comes after
      its record, so the block is committed. */
  datatype Ideal = Ideal(kv: State, height: nat, committed: nat, top: nat)

  function TakeIdeal(i: Ideal, s: Step): Ideal {
    match s
    case DoSetStep(k, v, _) => i.(kv := i.kv[k := v])
    case DoDeleteStep(k, _) => i.(kv := i.kv - {k})
    case BeginStep(h, _) => i.(height := h, top := h)
    case CommitStep(_, _) => i.(committed := i.height)
    case Crash(_) => i.(height := i.committed)
    case CrashAfterRecord(_, _, _) => i.(committed := i.height)
    case CrashInSnapshot(_, _, _, _) => i.(committed := i.height)
  }

  /** What a caller must do: begin heights in increasing order (a height that was rolled back may be begun
      again), write only at the highest begun height, and commit only an open block. */
  predicate Disciplined(i: Ideal, s: Step) {
    match s
    case DoSetStep(_, _, _) => i.height == i.top
    case DoDeleteStep(_, _) => i.height == i.top
    case BeginStep(h, _) => h > i.committed && h >= i.top
    case Crash(_) => true
    case _ => i.height == i.top && i.height > i.committed
  }

  /** The record the step writes is short enough, and the scan finds the snapshots that are there. A crash inside a
      snapshot needs one to be due and leaves at least the newest in place. */
  ghost predicate Possible(cfg: Config, c: Codec, n: Node, s: Step) {
    match s
    case DoSetStep(k, v, ts) => Fits(c, WalEntry(n.mem.height, Set(k, v), ts))
    case DoDeleteStep(k, ts) => Fits(c, WalEntry(n.mem.height, Delete(k), ts))
    case BeginStep(h, ts) => Fits(c, WalEntry(h, BeginBlock(h), ts))
    case CommitStep(hash, ts) => Fits(c, WalEntry(n.mem.height, CommitBlock(n.mem.height, hash), ts))
    case Crash(hs) => Lists(hs, n.disk.snaps)
    case CrashAfterRecord(hash, ts, hs) =>
      Fits(c, WalEntry(n.mem.height, CommitBlock(n.mem.height, hash), ts)) && Lists(hs, n.disk.snaps)
    case CrashInSnapshot(hash, ts, j, hs) =>
      && Fits(c, WalEntry(n.mem.height, CommitBlock(n.mem.height, hash), ts)) && SnapshotDue(cfg, n.mem)
      && j <= |n.mem.snapshots| && Lists(hs, MidSnapshot(cfg, c, n, hash, ts, j).disk.snaps)
  }

  ghost predicate Tracks(cfg: Config, c: Codec, n: Node, es: seq<WalEntry>, i: Ideal) {
    var raw := ReplayAll(Base(n.mem.snapshots, n.disk.snaps), es);
    && Inv(cfg, c, n, es)
    && n.mem.kv == i.kv && n.mem.height == i.height
    && raw.committed == i.committed && raw.height == i.top
  }

  lemma TracksWrite(cfg: Config, c: Codec, n: Node, es: seq<WalEntry>, i: Ideal, s: Step, op: WalOp, ts: nat)
    requires Tracks(cfg, c, n, es, i) && Disciplined(i, s) && Possible(cfg, c, n, s)
    requires (s.DoSetStep? && op == Set(s.k, s.v) && ts == s.ts) || (s.DoDeleteStep? && op == Delete(s.k) && ts == s.ts)
    ensures Tracks(cfg, c, Take(cfg, c, n, s), es + [WalEntry(n.mem.height, op, ts)], TakeIdeal(i, s))
  {
    InvRaw(cfg, c, n, es);
    AppendKeeps(cfg, c, n, es, WalEntry(n.mem.height, op, ts));
    if s.DoSetStep? {
      SetKeeps(cfg, c, n, es, s.k, s.v, ts);
    } else {
      DeleteKeeps(cfg, c, n, es, s.k, ts);
    }
  }

  lemma TracksBegin(cfg: Config, c: Codec, n: Node, es: seq<WalEntry>, i: Ideal, h: nat, ts: nat)
    requires Tracks(cfg, c, n, es, i) && Disciplined(i, BeginStep(h, ts)) && Possible(cfg, c, n, BeginStep(h, ts))
    ensures Tracks(cfg, c, DoBegin(cfg, c, n, h, ts), es + [WalEntry(h, BeginBlock(h), ts)],
                   TakeIdeal(i, BeginStep(h, ts)))
  {
    InvRaw(cfg, c, n, es);
    BeginKeeps(cfg, c, n, es, h, ts);
    AppendKeeps(cfg, c, n, es, WalEntry(h, BeginBlock(h), ts));
  }

  lemma TracksCommit(cfg: Config, c: Codec, n: Node, es: seq<WalEntry>, i: Ideal, hash: seq<Byte>, ts: nat)
    returns (es': seq<WalEntry>)
    requires Tracks(cfg, c, n, es, i) && Disciplined(i, CommitStep(hash, ts)) && Possible(cfg, c, n, CommitStep(hash, ts))
    ensures Tracks(cfg, c, DoCommit(cfg, c, n, hash, ts), es', TakeIdeal(i, CommitStep(hash, ts)))
  {
    InvRaw(cfg, c, n, es);
    es' := CommitKeeps(cfg, c, n, es, hash, ts);
    InvRaw(cfg, c, DoCommit(cfg, c, n, hash, ts), es');
  }

  lemma TracksCrash(cfg: Config, c: Codec, n: Node, es: seq<WalEntry>, i: Ideal, hs: seq<nat>)
    requires Tracks(cfg, c, n, es, i) && Lists(hs, n.disk.snaps)
    ensures Tracks(cfg, c, Take(cfg, c, n, Crash(hs)), es, TakeIdeal(i, Crash(hs)))
  {
    InvRaw(cfg, c, n, es);
    ListsUnique(hs, n.mem.snapshots);
    RecoveryKeeps(cfg, c, n, es);
  }

  lemma TracksLogged(cfg: Config, c: Codec, n: Node, es: seq<WalEntry>, i: Ideal, hash: seq<Byte>, ts: nat)
    requires Tracks(cfg, c, n, es, i) && i.height == i.top
    requires Fits(c, WalEntry(n.mem.height, CommitBlock(n.mem.height, hash), ts))
    ensures Tracks(cfg, c, LogCommit(cfg, c, n, hash, ts),
                   es + [WalEntry(n.mem.height, CommitBlock(n.mem.height, hash), ts)], i.(committed := i.height))
  {
    InvRaw(cfg, c, n, es);
    LogCommitKeeps(cfg, c, n, es, hash, ts);
    AppendKeeps(cfg, c, n, es, WalEntry(n.mem.height, CommitBlock(n.mem.height, hash), ts));
  }

  /** A store whose snapshot is in place tracks its own map and height, committed. */
  lemma TracksSaved(cfg: Config, c: Codec, n: Node, es: seq<WalEntry>)
    requires Saved(cfg, c, n, es)
    ensures Tracks(cfg, c, n, es, Ideal(n.mem.kv, n.mem.height, n.mem.height, n.mem.height))
  {
    SavedInv(cfg, c, n, es);
  }

  lemma MidSnapshotSaved(cfg: Config, c: Codec, n: Node, es: seq<WalEntry>, i: Ideal, s: Step)
    requires Tracks(cfg, c, n, es, i) && s.CrashInSnapshot? && Disciplined(i, s) && Possible(cfg, c, n, s)
    ensures var mid := MidSnapshot(cfg, c, n, s.hash, s.ts, s.pruned);
      && Saved(cfg, c, mid, es + [WalEntry(n.mem.height, CommitBlock(n.mem.height, s.hash), s.ts)])
      && mid.mem.kv == i.kv && mid.mem.height == i.height
  {
    InvRaw(cfg, c, n, es);
    CommitRenamed(cfg, c, n, es, s.hash, s.ts);
    PartlyPrunedSaved(cfg, c, Renamed(LogCommit(cfg, c, n, s.hash, s.ts)),
                      es + [WalEntry(n.mem.height, CommitBlock(n.mem.height, s.hash), s.ts)], s.pruned);
  }

  lemma TracksCrashAfterRecord(cfg: Config, c: Codec, n: Node, es: seq<WalEntry>, i: Ideal, hash: seq<Byte>, ts: nat,
                               hs: seq<nat>)
    requires Tracks(cfg, c, n, es, i) && i.height == i.top && Lists(hs, n.disk.snaps)
    requires Fits(c, WalEntry(n.mem.height, CommitBlock(n.mem.height, hash), ts))
    ensures Tracks(cfg, c, Restart(cfg, c, LogCommit(cfg, c, n, hash, ts).disk, hs),
                   es + [WalEntry(n.mem.height, CommitBlock(n.mem.height, hash), ts)], i.(committed := i.height))
  {
    TracksLogged(cfg, c, n, es, i, hash, ts);
    TracksCrash(cfg, c, LogCommit(cfg, c, n, hash, ts),
                es + [WalEntry(n.mem.height, CommitBlock(n.mem.height, hash), ts)], i.(committed := i.height), hs);
  }

  lemma TracksRestart(cfg: Config, c: Codec, mid: Node, es: seq<WalEntry>, hs: seq<nat>)
    requires Saved(cfg, c, mid, es) && Lists(hs, mid.disk.snaps)
    ensures Tracks(cfg, c, Restart(cfg, c, mid.disk, hs), es,
                   Ideal(mid.mem.kv, mid.mem.height, mid.mem.height, mid.mem.height))
  {
    TracksSaved(cfg, c, mid, es);
    TracksCrash(cfg, c, mid, es, Ideal(mid.mem.kv, mid.mem.height, mid.mem.height, mid.mem.height), hs);
  }

  /** Every step of a disciplined run keeps store and ideal together. */
  lemma TracksStep(cfg: Config, c: Codec, n: Node, es: seq<WalEntry>, i: Ideal, s: Step)
    returns (es': seq<WalEntry>)
    requires Tracks(cfg, c, n, es, i) && Disciplined(i, s) && Possible(cfg, c, n, s)
    ensures Tracks(cfg, c, Take(cfg, c, n, s), es', TakeIdeal(i, s))
  {
    match s {
      case DoSetStep(k, v, ts) =>
        es' := es + [WalEntry(n.mem.height, Set(k, v), ts)];
        TracksWrite(cfg, c, n, es, i, s, Set(k, v), ts);
      case DoDeleteStep(k, ts) =>
        es' := es + [WalEntry(n.mem.height, Delete(k), ts)];
        TracksWrite(cfg, c, n, es, i, s, Delete(k), ts);
      case BeginStep(h, ts) =>
        es' := es + [WalEntry(h, BeginBlock(h), ts)];
        TracksBegin(cfg, c, n, es, i, h, ts);
      case CommitStep(hash, ts) =>
        es' := TracksCommit(cfg, c, n, es, i, hash, ts);
      case Crash(hs) =>
        es' := es;
        TracksCrash(cfg, c, n, es, i, hs);
      case CrashAfterRecord(hash, ts, hs) =>
        es' := es + [WalEntry(n.mem.height, CommitBlock(n.mem.height, hash), ts)];
        TracksCrashAfterRecord(cfg, c, n, es, i, hash, ts, hs);
      case CrashInSnapshot(hash, ts, j, hs) =>
        es' := es + [WalEntry(n.mem.height, CommitBlock(n.mem.height, hash), ts)];
        MidSnapshotSaved(cfg, c, n, es, i, s);
        TracksRestart(cfg, c, MidSnapshot(cfg, c, n, hash, ts, j), es', hs);
    }
  }

  function Run(cfg: Config, c: Codec, n: Node, steps: seq<Step>): Node {
    if steps == [] then n else Take(cfg, c, Run(cfg, c, n, steps[..|steps| - 1]), steps[|steps| - 1])
  }

  function RunIdeal(i: Ideal, steps: seq<Step>): Ideal {
    if steps == [] then i else TakeIdeal(RunIdeal(i, steps[..|steps| - 1]), steps[|steps| - 1])
  }

  ghost predicate Legal(cfg: Config, c: Codec, n: Node, i: Ideal, steps: seq<Step>) {
    steps != [] ==>
      var front, s := steps[..|steps| - 1], steps[|steps| - 1];
      Legal(cfg, c, n, i, front) && Disciplined(RunIdeal(i, front), s) && Possible(cfg, c, Run(cfg, c, n, front), s)
  }

  lemma {:induction false} TracksRun(cfg: Config, c: Codec, n: Node, es: seq<WalEntry>, i: Ideal, steps: seq<Step>)
    returns (es': seq<WalEntry>)
    requires Tracks(cfg, c, n, es, i) && Legal(cfg, c, n, i, steps)
    ensures Tracks(cfg, c, Run(cfg, c, n, steps), es', RunIdeal(i, steps))
  {
    es' := es;
    if steps != [] {
      var front, s := steps[..|steps| - 1], steps[|steps| - 1];
      es' := TracksRun(cfg, c, n, es, i, front);
      es' := TracksStep(cfg, c, Run(cfg, c, n, front), es', RunIdeal(i, front), s);
    }
  }

  const FRESH := Node(Mem(map[], 0, false, [], true), Disk([], map[]))
  const NOTHING := Ideal(map[], 0, 0, 0)

  /** Over every disciplined run from an empty directory, with any number of crashes between operations and inside
      commits, the store shows exactly
      the map and height of the store without a disk; and a crash now would recover that map, at that height
      unless a block is open, and then at the last committed height. */
  lemma RunExact(cfg: Config, c: Codec, steps: seq<Step>)
    requires cfg.walEnabled && cfg.maxSnapshots >= 1 && Lawful(c) && Legal(cfg, c, FRESH, NOTHING, steps)
    ensures var n, i := Run(cfg, c, FRESH, steps), RunIdeal(NOTHING, steps);
      && n.mem.kv == i.kv && n.mem.height == i.height
      && Lists(n.mem.snapshots, n.disk.snaps)
      && forall hs :: Lists(hs, n.disk.snaps) ==>
           Recovered(cfg, c, n.disk, hs).kv == i.kv && Recovered(cfg, c, n.disk, hs).height == i.committed
  {
    var n, i := Run(cfg, c, FRESH, steps), RunIdeal(NOTHING, steps);
    assert Tracks(cfg, c, FRESH, [], NOTHING);
    var es := TracksRun(cfg, c, FRESH, [], NOTHING, steps);
    InvRaw(cfg, c, n, es);
    forall hs | Lists(hs, n.disk.snaps)
      ensures Recovered(cfg, c, n.disk, hs).kv == i.kv && Recovered(cfg, c, n.disk, hs).height == i.committed
    {
      ListsUnique(hs, n.mem.snapshots);
    }
  }

  // ---- A record that is only partly written ----

  /** A crash in the middle of writing a record recovers as if the record had never been begun. */
  lemma TornRecordIgnored(cfg: Config, c: Codec, n: Node, es: seq<WalEntry>, e: WalEntry, cut: nat)
    requires Inv(cfg, c, n, es) && Fits(c, e) && cut < |Frame(c, e)|
    ensures var torn := n.disk.(wal := n.disk.wal + Frame(c, e)[..cut]);
      forall hs :: Recovered(cfg, c, torn, hs) == Recovered(cfg, c, n.disk, hs)
  {
    ReadPrefix(c, es, Frame(c, e)[..cut]);
    ReadTorn(c, e, cut);
    LogRoundTrip(c, es);
    assert es + [] == es;
  }

  /** After every disciplined run, a crash in the middle of whatever record is written next recovers the map of
      the store without a disk, at the last committed height. */
  lemma RunTornExact(cfg: Config, c: Codec, steps: seq<Step>, e: WalEntry, cut: nat, hs: seq<nat>)
    requires cfg.walEnabled && cfg.maxSnapshots >= 1 && Lawful(c) && Legal(cfg, c, FRESH, NOTHING, steps)
    requires Fits(c, e) && cut < |Frame(c, e)| && Lists(hs, Run(cfg, c, FRESH, steps).disk.snaps)
    ensures var d, i := Run(cfg, c, FRESH, steps).disk, RunIdeal(NOTHING, steps);
      var r := Recovered(cfg, c, d.(wal := d.wal + Frame(c, e)[..cut]), hs);
      r.kv == i.kv && r.height == i.committed
  {
    RunExact(cfg, c, steps);
    assert Tracks(cfg, c, FRESH, [], NOTHING);
    var es := TracksRun(cfg, c, FRESH, [], NOTHING, steps);
    TornRecordIgnored(cfg, c, Run(cfg, c, FRESH, steps), es, e, cut);
  }

  // ---- Behind a torn record ----

  /** The same but for the log. */
  predicate SameButLog(n: Node, m: Node) { n.mem == m.mem && n.disk.snaps == m.disk.snaps }

  /** None of them is a crash. */
  predicate Uncrashed(steps: seq<Step>) {
    forall i :: 0 <= i < |steps| ==>
      steps[i].DoSetStep? || steps[i].DoDeleteStep? || steps[i].BeginStep? || steps[i].CommitStep?
  }

  lemma {:induction false} PruneIgnoresLog(n: Node, m: Node, max: nat)
    requires SameButLog(n, m)
    ensures SameButLog(Prune(n, max), Prune(m, max))
    decreases |n.mem.snapshots|
  {
    if |n.mem.snapshots| > max { PruneIgnoresLog(PruneOne(n), PruneOne(m), max); }
  }

  /** A commit that takes a snapshot ends with an empty log, whatever was in it. */
  lemma SnapshotHeals(cfg: Config, c: Codec, n: Node, m: Node, hash: seq<Byte>, ts: nat)
    requires SameButLog(n, m) && cfg.walEnabled && SnapshotDue(cfg, n.mem)
    ensures DoCommit(cfg, c, n, hash, ts) == DoCommit(cfg, c, m, hash, ts)
  {
    PruneIgnoresLog(Renamed(LogCommit(cfg, c, n, hash, ts)), Renamed(LogCommit(cfg, c, m, hash, ts)), cfg.maxSnapshots);
  }

  lemma TakeIgnoresLog(cfg: Config, c: Codec, n: Node, m: Node, s: Step)
    requires SameButLog(n, m) && cfg.walEnabled && Uncrashed([s])
    ensures SameButLog(Take(cfg, c, n, s), Take(cfg, c, m, s))
  {
    assert [s][0] == s;
    if s.CommitStep? && SnapshotDue(cfg, n.mem) { SnapshotHeals(cfg, c, n, m, s.hash, s.ts); }
  }

  lemma {:induction false} RunIgnoresLog(cfg: Config, c: Codec, n: Node, m: Node, steps: seq<Step>)
    requires SameButLog(n, m) && cfg.walEnabled && Uncrashed(steps)
    ensures SameButLog(Run(cfg, c, n, steps), Run(cfg, c, m, steps))
  {
    if steps != [] {
      var front, s := steps[..|steps| - 1], steps[|steps| - 1];
      RunIgnoresLog(cfg, c, n, m, front);
      TakeIgnoresLog(cfg, c, Run(cfg, c, n, front), Run(cfg, c, m, front), s);
    }
  }

  lemma {:induction false} RunSplit(cfg: Config, c: Codec, n: Node, a: seq<Step>, b: seq<Step>)
    ensures Run(cfg, c, n, a + b) == Run(cfg, c, Run(cfg, c, n, a), b)
  {
    if b == [] {
      assert a + b == a;
    } else {
      RunSplit(cfg, c, n, a, b[..|b| - 1]);
      assert (a + b)[..|a + b| - 1] == a + b[..|b| - 1];
    }
  }

  /** A crash that tears the next record, and the restart after it. */
  function TornRestart(cfg: Config, c: Codec, n: Node, e: WalEntry, cut: nat, hs: seq<nat>): Node
    requires cut < |Frame(c, e)|
  {
    Restart(cfg, c, n.disk.(wal := n.disk.wal + Frame(c, e)[..cut]), hs)
  }

  lemma {:induction false} LegalFront(cfg: Config, c: Codec, n: Node, i: Ideal, a: seq<Step>, b: seq<Step>)
    requires Legal(cfg, c, n, i, a + b)
    ensures Legal(cfg, c, n, i, a)
    decreases |b|
  {
    if b == [] {
      assert a + b == a;
    } else {
      assert (a + b)[..|a + b| - 1] == a + b[..|b| - 1];
      LegalFront(cfg, c, n, i, a, b[..|b| - 1]);
    }
  }

  lemma TornLikeClean(cfg: Config, c: Codec, before: seq<Step>, e: WalEntry, cut: nat, hs: seq<nat>)
    requires cfg.walEnabled && cfg.maxSnapshots >= 1 && Lawful(c) && Legal(cfg, c, FRESH, NOTHING, before)
    requires Fits(c, e) && cut < |Frame(c, e)|
    ensures var n := Run(cfg, c, FRESH, before);
      SameButLog(TornRestart(cfg, c, n, e, cut, hs), Run(cfg, c, FRESH, before + [Crash(hs)]))
  {
    assert (before + [Crash(hs)])[..|before|] == before;
    assert Tracks(cfg, c, FRESH, [], NOTHING);
    var es := TracksRun(cfg, c, FRESH, [], NOTHING, before);
    TornRecordIgnored(cfg, c, Run(cfg, c, FRESH, before), es, e, cut);
  }

  /** A disciplined run that goes on behind a torn record, until a commit takes the next snapshot: it always shows the
      map and height of the store without a disk, as if the crash had torn nothing; and from that commit on it is
      the run in which nothing was torn, with the same log, so that every later crash recovers exactly. */
  lemma TornRunHeals(cfg: Config, c: Codec, before: seq<Step>, e: WalEntry, cut: nat, hs: seq<nat>, more: seq<Step>,
                     hash: seq<Byte>, ts: nat, rest: seq<Step>)
    requires cfg.walEnabled && cfg.maxSnapshots >= 1 && Lawful(c) && Fits(c, e) && cut < |Frame(c, e)| && Uncrashed(more)
    requires Legal(cfg, c, FRESH, NOTHING, before + [Crash(hs)] + more)
    ensures var torn := Run(cfg, c, TornRestart(cfg, c, Run(cfg, c, FRESH, before), e, cut, hs), more);
      var i := RunIdeal(NOTHING, before + [Crash(hs)] + more);
      && torn.mem.kv == i.kv && torn.mem.height == i.height
      && (SnapshotDue(cfg, torn.mem) ==>
            Run(cfg, c, torn, [CommitStep(hash, ts)] + rest) ==
            Run(cfg, c, FRESH, before + [Crash(hs)] + more + [CommitStep(hash, ts)] + rest))
  {
    var start := TornRestart(cfg, c, Run(cfg, c, FRESH, before), e, cut, hs);
    var torn, clean := Run(cfg, c, start, more), before + [Crash(hs)] + more;
    var commit := [CommitStep(hash, ts)];
    assert before + ([Crash(hs)] + more) == clean;
    LegalFront(cfg, c, FRESH, NOTHING, before, [Crash(hs)] + more);
    TornLikeClean(cfg, c, before, e, cut, hs);
    RunSplit(cfg, c, FRESH, before + [Crash(hs)], more);
    RunIgnoresLog(cfg, c, start, Run(cfg, c, FRESH, before + [Crash(hs)]), more);
    RunExact(cfg, c, clean);
    if SnapshotDue(cfg, torn.mem) {
      SnapshotHeals(cfg, c, torn, Run(cfg, c, FRESH, clean), hash, ts);
      RunSplit(cfg, c, torn, commit, rest);
      RunSplit(cfg, c, FRESH, clean + commit, rest);
      RunSplit(cfg, c, FRESH, clean, commit);
      CommitTaken(cfg, c, torn, hash, ts);
      CommitTaken(cfg, c, Run(cfg, c, FRESH, clean), hash, ts);
    }
  }

  lemma CommitTaken(cfg: Config, c: Codec, n: Node, hash: seq<Byte>, ts: nat)
    ensures Run(cfg, c, n, [CommitStep(hash, ts)]) == DoCommit(cfg, c, n, hash, ts)
  {
    assert [CommitStep(hash, ts)][..0] == [];
  }
}

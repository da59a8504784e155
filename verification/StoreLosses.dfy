/** Where the store loses data, and exactly when: commits that delete their own snapshot, writes made after a
    rollback, and records appended behind one that was cut short. */
module StoreLosses {
  import opened Bytes
  import opened Wal
  import opened Store
  import opened StoreRuns

  // ---- What a commit does ----

  lemma MultipleIff(x: nat, d: nat)
    requires d > 0
    ensures x % d == 0 <==> exists k: nat :: x == k * d
  {
    if x % d == 0 { assert x == (x / d) * d; }
    if k: nat :| x == k * d {
      var q, r := x / d, x % d;
      assert k * d == q * d + r && (k - q) * d == r;
      if k > q { AtLeastOnce(k - q, d); }
    }
  }

  lemma AtLeastOnce(n: nat, d: nat)
    requires n >= 1
    ensures n * d >= d
  {
  }

  /** A commit with writes before it, at a multiple of the interval, replaces the log by a snapshot of the map under the
      height and leaves the newest of the list, as many as are to be retained; any other commit adds its record to the
      log and does nothing else. */
  lemma CommitOutcome(cfg: Config, c: Codec, n: Node, hash: seq<Byte>, ts: nat)
    requires cfg.walEnabled && n.mem.logging
    ensures var m, h := DoCommit(cfg, c, n, hash, ts), n.mem.height;
      var list := n.mem.snapshots + [h];
      var gone := if |list| <= cfg.maxSnapshots then 0 else |list| - cfg.maxSnapshots;
      if n.mem.dirty && cfg.snapshotInterval > 0 && exists k: nat :: h == k * cfg.snapshotInterval then
        && m.mem == n.mem.(dirty := false, snapshots := list[gone..])
        && m.disk.wal == []
        && forall g :: (g in m.disk.snaps <==> (g in n.disk.snaps || g == h) && g !in list[..gone])
             && (g in m.disk.snaps ==> m.disk.snaps[g] == if g == h then n.mem.kv else n.disk.snaps[g])
      else m == Node(n.mem, n.disk.(wal := n.disk.wal + Frame(c, WalEntry(h, CommitBlock(h, hash), ts))))
  {
    if cfg.snapshotInterval > 0 { MultipleIff(n.mem.height, cfg.snapshotInterval); }
    PruneIs(Renamed(LogCommit(cfg, c, n, hash, ts)), cfg.maxSnapshots);
  }

  // ---- Snapshots that do not survive their own commit ----

  /** The disk after a commit that takes a snapshot: the log is empty, and of the old snapshots and the new one the
      excess is gone. */
  lemma CommitLeaves(cfg: Config, c: Codec, n: Node, hash: seq<Byte>, ts: nat)
    requires cfg.walEnabled && SnapshotDue(cfg, n.mem)
    ensures var list := n.mem.snapshots + [n.mem.height];
      DoCommit(cfg, c, n, hash, ts).disk ==
        Disk([], n.disk.snaps[n.mem.height := n.mem.kv] - Elems(list[..Excess(|list|, cfg.maxSnapshots)]))
  {
    PruneIs(Renamed(LogCommit(cfg, c, n, hash, ts)), cfg.maxSnapshots);
  }

  lemma {:induction false} LargestExists(s: set<nat>) returns (x: nat)
    requires s != {}
    ensures x in s && forall y :: y in s ==> y <= x
    decreases |s|
  {
    var a :| a in s;
    var rest := s - {a};
    assert forall y :: y in s ==> y == a || y in rest;
    x := a;
    if rest != {} {
      var b := LargestExists(rest);
      if a < b { x := b; }
    }
  }

  lemma PutBack(snaps: map<nat, State>, m: nat)
    requires m in snaps
    ensures (snaps - {m})[m := snaps[m]] == snaps && (snaps - {m}).Keys == snaps.Keys - {m}
  {
  }

  lemma LastBelow(snaps: map<nat, State>, m: nat, hs: seq<nat>)
    requires (forall h :: h in snaps ==> h <= m) && Elems(hs) == snaps.Keys - {m}
    ensures hs == [] || m > hs[|hs| - 1]
  {
    ElemsAre(hs);
  }

  lemma AddLargest(snaps: map<nat, State>, m: nat, hs: seq<nat>)
    requires m in snaps && (forall h :: h in snaps ==> h <= m) && Lists(hs, snaps - {m})
    ensures Lists(hs + [m], snaps)
  {
    PutBack(snaps, m);
    LastBelow(snaps, m, hs);
    AddNewest(hs, snaps - {m}, m, snaps[m]);
  }

  /** Every directory has a sorted listing. */
  lemma {:induction false} ListingExists(snaps: map<nat, State>) returns (hs: seq<nat>)
    ensures Lists(hs, snaps)
    decreases |snaps|
  {
    hs := [];
    if snaps == map[] {
      assert snaps.Keys == {};
    } else {
      var m := LargestExists(snaps.Keys);
      assert (snaps - {m}).Keys == snaps.Keys - {m};
      hs := ListingExists(snaps - {m});
      AddLargest(snaps, m, hs);
      hs := hs + [m];
    }
  }

  /** The newest snapshot on disk. */
  ghost predicate Newest(snaps: map<nat, State>, h: nat) { h in snaps && forall g :: g in snaps ==> g <= h }

  /** With an empty log, recovery gives the newest snapshot, or nothing at height zero. */
  lemma EmptyLogRecovers(cfg: Config, c: Codec, snaps: map<nat, State>, m: Mem)
    ensures Recovers(cfg, c, Disk([], snaps), m) <==>
      if snaps == map[] then m.kv == map[] && m.height == 0
      else Newest(snaps, m.height) && snaps[m.height] == m.kv
  {
    var d := Disk([], snaps);
    var some := ListingExists(snaps);
    forall hs | Lists(hs, snaps)
      ensures hs == some
      ensures snaps == map[] <==> hs == []
      ensures hs != [] ==> Newest(snaps, hs[|hs| - 1])
    {
      ListsUnique(hs, some);
      ElemsAre(hs);
      if hs != [] { ElemsFront(hs); }
    }
    assert Recovered(cfg, c, d, some).kv == Base(some, snaps).kv && Recovered(cfg, c, d, some).height == Base(some, snaps).height;
  }

  /** How many snapshots must be retained for a commit at height `h` to keep its own: one for a height above all
      others, two for the latest again. A height below the latest is right only if exactly one is retained and the
      height has no snapshot yet. */
  predicate RetainsEnough(max: nat, hs: seq<nat>, h: nat) {
    if hs == [] || h > hs[|hs| - 1] then max >= 1
    else if h == hs[|hs| - 1] then max >= 2
    else h !in hs && max == 1
  }

  /** Which snapshots remain, case by case. */
  lemma RemainingSnaps(hs: seq<nat>, snaps: map<nat, State>, h: nat, kv: State, max: nat)
    requires Lists(hs, snaps)
    ensures var list := hs + [h]; var left := snaps[h := kv] - Elems(list[..Excess(|list|, max)]);
      && (RetainsEnough(max, hs, h) <==> Newest(left, h))
      && (left == map[] <==> max == 0 || (max == 1 && h in hs))
  {
    var list := hs + [h];
    var k := Excess(|list|, max);
    var left := snaps[h := kv] - Elems(list[..k]);
    ElemsAre(hs);
    if hs != [] { ElemsFront(hs); }
    if max == 0 {
      assert list[..k] == list && Elems(list) == Elems(hs) + {h};
      assert left.Keys == {};
    } else {
      assert list[..k] == hs[..k];
      if max == 1 {
        assert hs[..k] == hs;
        assert left.Keys == if h in hs then {} else {h};
      } else {
        RemainingMany(hs, snaps, h, kv, k);
      }
    }
  }

  lemma RemainingMany(hs: seq<nat>, snaps: map<nat, State>, h: nat, kv: State, k: nat)
    requires Lists(hs, snaps) && (k < |hs| || (hs == [] && k == 0))
    ensures var left := snaps[h := kv] - Elems(hs[..k]);
      left != map[] && (Newest(left, h) <==> hs == [] || h >= hs[|hs| - 1])
  {
    var left := snaps[h := kv] - Elems(hs[..k]);
    ElemsAre(hs);
    if hs == [] {
      assert left.Keys == {h};
    } else {
      var last := hs[|hs| - 1];
      ElemsFront(hs);
      assert last !in hs[..k] by {
        forall i | 0 <= i < k ensures hs[i] != last { AscendingAt(hs, i, |hs| - 1); }
      }
      assert last in left;
      if h >= last {
        assert h !in hs[..k] by {
          forall i | 0 <= i < k ensures hs[i] != h { AscendingAt(hs, i, |hs| - 1); }
        }
      }
    }
  }

  /** Exactly when a commit that takes a snapshot can be recovered from, for every node, height and bound on
      retained snapshots: enough are retained for the new one to stay and be the newest, or everything is deleted
      and there was nothing to lose. */
  lemma CommitRecoversIff(cfg: Config, c: Codec, n: Node, hash: seq<Byte>, ts: nat)
    requires cfg.walEnabled && SnapshotDue(cfg, n.mem) && Lists(n.mem.snapshots, n.disk.snaps)
    ensures Recovers(cfg, c, DoCommit(cfg, c, n, hash, ts).disk, n.mem) <==>
      || RetainsEnough(cfg.maxSnapshots, n.mem.snapshots, n.mem.height)
      || (cfg.maxSnapshots <= 1 && n.mem.kv == map[] && n.mem.height == 0)
  {
    var hs, h, max := n.mem.snapshots, n.mem.height, cfg.maxSnapshots;
    var list := hs + [h];
    var left := n.disk.snaps[h := n.mem.kv] - Elems(list[..Excess(|list|, max)]);
    CommitLeaves(cfg, c, n, hash, ts);
    RemainingSnaps(hs, n.disk.snaps, h, n.mem.kv, max);
    EmptyLogRecovers(cfg, c, left, n.mem);
  }

  /** A run that loses everything: two commits of one block, with a write before each and one snapshot retained. */
  lemma SameHeightLosesAll(c: Codec, k: Key, v: Value, w: Value)
    ensures var cfg := Config(1, 1, true);
      var n := Run(cfg, c, FRESH, [BeginStep(1, 0), DoSetStep(k, v, 0), CommitStep([], 0), DoSetStep(k, w, 0), CommitStep([], 0)]);
      && k in n.mem.kv && n.mem.kv[k] == w && n.disk == Disk([], map[])
      && !Recovers(cfg, c, n.disk, n.mem)
  {
    var cfg := Config(1, 1, true);
    var n2 := DoSet(cfg, c, DoBegin(cfg, c, FRESH, 1, 0), k, v, 0);
    var n3 := DoCommit(cfg, c, n2, [], 0);
    var n4 := DoSet(cfg, c, n3, k, w, 0);
    RunFive(cfg, c, BeginStep(1, 0), DoSetStep(k, v, 0), CommitStep([], 0), DoSetStep(k, w, 0), CommitStep([], 0));
    FirstCommit(cfg, c, n2);
    SecondCommit(cfg, c, n4);
  }

  lemma RunFive(cfg: Config, c: Codec, a: Step, b: Step, d: Step, e: Step, f: Step)
    ensures Run(cfg, c, FRESH, [a, b, d, e, f]) ==
      Take(cfg, c, Take(cfg, c, Take(cfg, c, Take(cfg, c, Take(cfg, c, FRESH, a), b), d), e), f)
  {
    RunOne(cfg, c, [], a);
    RunTwo(cfg, c, [] + [a], b, d);
    RunTwo(cfg, c, [] + [a] + [b, d], e, f);
    assert [] + [a] + [b, d] + [e, f] == [a, b, d, e, f];
  }

  lemma RunTwo(cfg: Config, c: Codec, steps: seq<Step>, s: Step, t: Step)
    ensures Run(cfg, c, FRESH, steps + [s, t]) == Take(cfg, c, Take(cfg, c, Run(cfg, c, FRESH, steps), s), t)
  {
    RunOne(cfg, c, steps, s);
    RunOne(cfg, c, steps + [s], t);
    assert steps + [s] + [t] == steps + [s, t];
  }

  lemma RunOne(cfg: Config, c: Codec, steps: seq<Step>, s: Step)
    ensures Run(cfg, c, FRESH, steps + [s]) == Take(cfg, c, Run(cfg, c, FRESH, steps), s)
  {
    assert (steps + [s])[..|steps|] == steps;
  }

  lemma FirstCommit(cfg: Config, c: Codec, n: Node)
    requires cfg == Config(1, 1, true) && n.mem.dirty && n.mem.snapshots == [] && n.disk.snaps == map[]
    ensures var m := DoCommit(cfg, c, n, [], 0);
      && m.mem == n.mem.(snapshots := [n.mem.height], dirty := false, logging := true)
      && m.disk == Disk([], map[n.mem.height := n.mem.kv])
  {
    PruneIs(Renamed(LogCommit(cfg, c, n, [], 0)), 1);
    assert Elems([]) == {};
    assert map[][n.mem.height := n.mem.kv] - {} == map[n.mem.height := n.mem.kv];
  }

  lemma SecondCommit(cfg: Config, c: Codec, n: Node)
    requires cfg == Config(1, 1, true) && n.mem.dirty && n.mem.height == 1
    requires n.mem.snapshots == [1] && n.disk.snaps.Keys == {1}
    ensures var m := DoCommit(cfg, c, n, [], 0);
      m.mem.kv == n.mem.kv && m.disk == Disk([], map[]) && !Recovers(cfg, c, m.disk, m.mem)
  {
    var list := [1] + [1];
    CommitLeaves(cfg, c, n, [], 0);
    PruneIs(Renamed(LogCommit(cfg, c, n, [], 0)), 1);
    assert list[..1] == [1] && Elems([1]) == {1};
    assert n.disk.snaps[1 := n.mem.kv] - {1} == map[];
    EmptyLogRecovers(cfg, c, map[], n.mem);
    EmptyLogRecovers(cfg, c, map[], DoCommit(cfg, c, n, [], 0).mem);
  }

  // ---- Writes after a rollback ----

  /** What the disk recovers to after one more record is appended. */
  lemma AppendedRaw(cfg: Config, c: Codec, n: Node, es: seq<WalEntry>, e: WalEntry)
    requires Inv(cfg, c, n, es) && Fits(c, e)
    ensures var base := Base(n.mem.snapshots, n.disk.snaps);
      Raw(c, Append(cfg, c, n, e), n.mem.snapshots) == ReplayOne(ReplayAll(base, es), e)
  {
    LogBack(c, es, e);
    LogRoundTrip(c, es + [e]);
    ReplayMore(Base(n.mem.snapshots, n.disk.snaps), es, e);
  }

  /** A write made after a rollback and before the next block is begun carries a height the log has passed, so
      recovery skips it: it survives exactly when no rollback is pending or it changed nothing. */
  lemma WriteSurvivesIff(cfg: Config, c: Codec, n: Node, es: seq<WalEntry>, k: Key, v: Value, ts: nat)
    requires Inv(cfg, c, n, es) && Fits(c, WalEntry(n.mem.height, Set(k, v), ts))
    ensures var m := DoSet(cfg, c, n, k, v, ts);
      Recovered(cfg, c, m.disk, m.mem.snapshots).kv == m.mem.kv <==>
        Current(c, n) || (k in n.mem.kv && n.mem.kv[k] == v)
  {
    InvRaw(cfg, c, n, es);
    AppendedRaw(cfg, c, n, es, WalEntry(n.mem.height, Set(k, v), ts));
    if k in n.mem.kv && n.mem.kv[k] == v { assert n.mem.kv[k := v] == n.mem.kv; }
    assert k in n.mem.kv[k := v] && n.mem.kv[k := v][k] == v;
  }

  /** The same for a deletion: it survives exactly when no rollback is pending or the key was not there. */
  lemma DeleteSurvivesIff(cfg: Config, c: Codec, n: Node, es: seq<WalEntry>, k: Key, ts: nat)
    requires Inv(cfg, c, n, es) && Fits(c, WalEntry(n.mem.height, Delete(k), ts))
    ensures var m := DoDelete(cfg, c, n, k, ts);
      Recovered(cfg, c, m.disk, m.mem.snapshots).kv == m.mem.kv <==> Current(c, n) || k !in n.mem.kv
  {
    InvRaw(cfg, c, n, es);
    AppendedRaw(cfg, c, n, es, WalEntry(n.mem.height, Delete(k), ts));
    if k !in n.mem.kv { assert n.mem.kv - {k} == n.mem.kv; }
    assert k !in n.mem.kv - {k};
  }

  /** In a run, no rollback is pending exactly when the height is the highest begun one. */
  lemma RunCurrentIff(cfg: Config, c: Codec, steps: seq<Step>) returns (es: seq<WalEntry>)
    requires cfg.walEnabled && cfg.maxSnapshots >= 1 && Lawful(c) && Legal(cfg, c, FRESH, NOTHING, steps)
    ensures var n, i := Run(cfg, c, FRESH, steps), RunIdeal(NOTHING, steps);
      Inv(cfg, c, n, es) && n.mem.kv == i.kv && n.mem.height == i.height
    ensures Current(c, Run(cfg, c, FRESH, steps)) <==>
      RunIdeal(NOTHING, steps).height == RunIdeal(NOTHING, steps).top
  {
    assert Tracks(cfg, c, FRESH, [], NOTHING);
    es := TracksRun(cfg, c, FRESH, [], NOTHING, steps);
    InvRaw(cfg, c, Run(cfg, c, FRESH, steps), es);
  }

  /** After every disciplined run: a write survives a crash right after it exactly when the height is the highest begun
      one or the write changed nothing; a deletion exactly when the height is that or the key was absent. */
  lemma RunWritesSurviveIff(cfg: Config, c: Codec, steps: seq<Step>, k: Key, v: Value, ts: nat)
    requires cfg.walEnabled && cfg.maxSnapshots >= 1 && Lawful(c) && Legal(cfg, c, FRESH, NOTHING, steps)
    requires var h := Run(cfg, c, FRESH, steps).mem.height;
      Fits(c, WalEntry(h, Set(k, v), ts)) && Fits(c, WalEntry(h, Delete(k), ts))
    ensures var n, i := Run(cfg, c, FRESH, steps), RunIdeal(NOTHING, steps);
      var set1, del := DoSet(cfg, c, n, k, v, ts), DoDelete(cfg, c, n, k, ts);
      && (Recovered(cfg, c, set1.disk, set1.mem.snapshots).kv == set1.mem.kv <==>
            i.height == i.top || (k in i.kv && i.kv[k] == v))
      && (Recovered(cfg, c, del.disk, del.mem.snapshots).kv == del.mem.kv <==> i.height == i.top || k !in i.kv)
  {
    var es := RunCurrentIff(cfg, c, steps);
    WriteSurvivesIff(cfg, c, Run(cfg, c, FRESH, steps), es, k, v, ts);
    DeleteSurvivesIff(cfg, c, Run(cfg, c, FRESH, steps), es, k, ts);
  }

  lemma LegalMore(cfg: Config, c: Codec, steps: seq<Step>, s: Step)
    requires Legal(cfg, c, FRESH, NOTHING, steps)
    requires Disciplined(RunIdeal(NOTHING, steps), s) && Possible(cfg, c, Run(cfg, c, FRESH, steps), s)
    ensures Legal(cfg, c, FRESH, NOTHING, steps + [s])
    ensures RunIdeal(NOTHING, steps + [s]) == TakeIdeal(RunIdeal(NOTHING, steps), s)
    ensures Run(cfg, c, FRESH, steps + [s]) == Take(cfg, c, Run(cfg, c, FRESH, steps), s)
  {
    assert (steps + [s])[..|steps|] == steps;
  }

  /** A write that is lost: a block is begun, the store crashes, and the write comes before the block is begun again. */
  lemma RolledBackWriteLost(c: Codec, k: Key, v: Value)
    requires Lawful(c) && Fits(c, WalEntry(1, BeginBlock(1), 0)) && Fits(c, WalEntry(0, Set(k, v), 0))
    ensures var cfg := Config(1, 1, true);
      var n := Run(cfg, c, FRESH, [BeginStep(1, 0), Crash([]), DoSetStep(k, v, 0)]);
      k in n.mem.kv && k !in Recovered(cfg, c, n.disk, []).kv
  {
    var cfg := Config(1, 1, true);
    var steps := [] + [BeginStep(1, 0)] + [Crash([])];
    LegalMore(cfg, c, [], BeginStep(1, 0));
    assert Lists([], map[]);
    LegalMore(cfg, c, [] + [BeginStep(1, 0)], Crash([]));
    var es := RunCurrentIff(cfg, c, steps);
    RunOne(cfg, c, steps, DoSetStep(k, v, 0));
    assert steps + [DoSetStep(k, v, 0)] == [BeginStep(1, 0), Crash([]), DoSetStep(k, v, 0)];
    LostWrite(cfg, c, Run(cfg, c, FRESH, steps), es, k, v, 0);
  }

  lemma LostWrite(cfg: Config, c: Codec, n: Node, es: seq<WalEntry>, k: Key, v: Value, ts: nat)
    requires Inv(cfg, c, n, es) && !Current(c, n) && Fits(c, WalEntry(n.mem.height, Set(k, v), ts))
    ensures Recovered(cfg, c, DoSet(cfg, c, n, k, v, ts).disk, n.mem.snapshots).kv == n.mem.kv
  {
    InvRaw(cfg, c, n, es);
    AppendedRaw(cfg, c, n, es, WalEntry(n.mem.height, Set(k, v), ts));
  }

  /** A deletion that is undone: the key was set in a block that was begun and rolled back. */
  lemma RolledBackDeleteUndone(c: Codec, k: Key, v: Value)
    requires Lawful(c) && Fits(c, WalEntry(1, BeginBlock(1), 0))
    requires Fits(c, WalEntry(1, Set(k, v), 0)) && Fits(c, WalEntry(0, Delete(k), 0))
    ensures var cfg := Config(1, 1, true);
      var n := Run(cfg, c, FRESH, [BeginStep(1, 0), DoSetStep(k, v, 0), Crash([]), DoDeleteStep(k, 0)]);
      k !in n.mem.kv && k in Recovered(cfg, c, n.disk, []).kv
  {
    var cfg := Config(1, 1, true);
    var steps := [] + [BeginStep(1, 0)] + [DoSetStep(k, v, 0)] + [Crash([])];
    LegalMore(cfg, c, [], BeginStep(1, 0));
    LegalMore(cfg, c, [] + [BeginStep(1, 0)], DoSetStep(k, v, 0));
    assert Lists([], map[]);
    LegalMore(cfg, c, [] + [BeginStep(1, 0)] + [DoSetStep(k, v, 0)], Crash([]));
    var es := RunCurrentIff(cfg, c, steps);
    RunOne(cfg, c, steps, DoDeleteStep(k, 0));
    assert steps + [DoDeleteStep(k, 0)] == [BeginStep(1, 0), DoSetStep(k, v, 0), Crash([]), DoDeleteStep(k, 0)];
    LostDelete(cfg, c, Run(cfg, c, FRESH, steps), es, k, 0);
  }

  lemma LostDelete(cfg: Config, c: Codec, n: Node, es: seq<WalEntry>, k: Key, ts: nat)
    requires Inv(cfg, c, n, es) && !Current(c, n) && Fits(c, WalEntry(n.mem.height, Delete(k), ts))
    ensures Recovered(cfg, c, DoDelete(cfg, c, n, k, ts).disk, n.mem.snapshots).kv == n.mem.kv
  {
    InvRaw(cfg, c, n, es);
    AppendedRaw(cfg, c, n, es, WalEntry(n.mem.height, Delete(k), ts));
  }

  // ---- Records behind one that was cut short ----

  /** The length that will be read: that of the torn record once its four bytes are there, and otherwise whatever
      the next bytes make of the ones that are. */
  function ReadLength(c: Codec, e: WalEntry, cut: nat, next: seq<Byte>): nat
    requires cut < |Frame(c, e)| && cut + |next| >= 4
  {
    if cut >= 4 then |c.encode(e)| else FromLe(Frame(c, e)[..cut] + next[..4 - cut])
  }

  /** What is read from a torn tail and the bytes written behind it: nothing while the length or the body is
      incomplete; then one body, pieced together from both, and the records after it. */
  function Swallowed(c: Codec, e: WalEntry, cut: nat, next: seq<Byte>): seq<WalEntry>
    requires cut < |Frame(c, e)|
  {
    var tail := Frame(c, e)[..cut] + next;
    if |tail| < 4 then []
    else
      var len := ReadLength(c, e, cut, next);
      if |tail| < 4 + len then [] else Decoded(c, tail[4..4 + len]) + Records(c, tail[4 + len..])
  }

  /** After a crash at any byte of a record, what is written next is read as its continuation: the bytes it lacks,
      of its length or of its body, are taken from the next records. */
  lemma TornTailSwallows(c: Codec, es: seq<WalEntry>, e: WalEntry, cut: nat, next: seq<Byte>)
    requires Lawful(c) && AllFit(c, es) && Fits(c, e) && 0 < cut < |Frame(c, e)|
    ensures Records(c, Log(c, es) + (Frame(c, e)[..cut] + next)) == es + Swallowed(c, e, cut, next)
  {
    var tail := Frame(c, e)[..cut] + next;
    ReadPrefix(c, es, tail);
    if |tail| >= 4 { TornLength(c, e, cut, next); }
  }

  lemma TornLength(c: Codec, e: WalEntry, cut: nat, next: seq<Byte>)
    requires Fits(c, e) && 0 < cut < |Frame(c, e)| && cut + |next| >= 4
    ensures FromLe((Frame(c, e)[..cut] + next)[..4]) == ReadLength(c, e, cut, next)
  {
    var tail := Frame(c, e)[..cut] + next;
    if cut >= 4 {
      Width4();
      LeRoundTrip(|c.encode(e)|, 4);
      assert tail[..4] == ToLe(|c.encode(e)|, 4);
    } else {
      assert tail[..4] == Frame(c, e)[..cut] + next[..4 - cut];
    }
  }

  /** In particular, whatever is written next is lost as long as it is shorter than what the torn body lacks. */
  lemma TornTailLoses(c: Codec, es: seq<WalEntry>, e: WalEntry, cut: nat, later: seq<WalEntry>)
    requires Lawful(c) && AllFit(c, es) && Fits(c, e) && 4 <= cut < |Frame(c, e)|
    requires |Log(c, later)| < |Frame(c, e)| - cut
    ensures Records(c, Log(c, es) + (Frame(c, e)[..cut] + Log(c, later))) == es
  {
    TornTailSwallows(c, es, e, cut, Log(c, later));
    assert es + [] == es;
  }
}

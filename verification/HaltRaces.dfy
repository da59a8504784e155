/** A halt raises the flag and then notes the height; a clear lowers the flag and then erases the height. What
    becomes of "the flag is up exactly when a height is noted" when halts and clears overlap. */
module HaltRaces {
  import opened Options
  import opened MapSum
  import opened Attestation
  import opened Protocol

  /** The flag is up exactly when a height is noted. */
  predicate Consistent(h: Handler) { h.halted <==> h.at.Some? }

  ghost function After(cfg: Config, s: System, steps: seq<Step>): System {
    if steps == [] then s else Next(cfg, After(cfg, s, steps[..|steps| - 1]), steps[|steps| - 1])
  }

  // ---- One halt and one clear ----

  /** The ways to interleave the two writes of a halt with the two writes of a clear. */
  predicate Interleaving(w: seq<Step>) {
    || w == [RaiseFlag, MarkHeight, LowerFlag, EraseHeight]
    || w == [RaiseFlag, LowerFlag, MarkHeight, EraseHeight]
    || w == [RaiseFlag, LowerFlag, EraseHeight, MarkHeight]
    || w == [LowerFlag, RaiseFlag, MarkHeight, EraseHeight]
    || w == [LowerFlag, RaiseFlag, EraseHeight, MarkHeight]
    || w == [LowerFlag, EraseHeight, RaiseFlag, MarkHeight]
  }

  /** One call runs entirely between the two writes of the other. */
  predicate Nested(w: seq<Step>)
    requires |w| == 4
  {
    (w[0] == RaiseFlag && w[3] == MarkHeight) || (w[0] == LowerFlag && w[3] == EraseHeight)
  }

  lemma AfterFour(cfg: Config, s: System, a: Step, b: Step, c: Step, d: Step)
    ensures After(cfg, s, [a, b, c, d]) == Next(cfg, Next(cfg, Next(cfg, Next(cfg, s, a), b), c), d)
  {
    var w := [a, b, c, d];
    assert w[..3] == [a, b, c] && [a, b, c][..2] == [a, b] && [a, b][..1] == [a] && [a][..0] == [];
    assert After(cfg, s, [a]) == Next(cfg, s, a);
    assert After(cfg, s, [a, b]) == Next(cfg, After(cfg, s, [a]), b);
    assert After(cfg, s, [a, b, c]) == Next(cfg, After(cfg, s, [a, b]), c);
  }

  lemma OverlapCases(cfg: Config, s: System, a: Step, b: Step, c: Step, d: Step)
    requires s.handler.handling.Raising? && s.handler.clearing == 0 && Interleaving([a, b, c, d])
    ensures Consistent(Next(cfg, Next(cfg, Next(cfg, Next(cfg, s, a), b), c), d).handler) <==> !Nested([a, b, c, d])
  {
    var w := [a, b, c, d];
    assert w[0] == a && w[1] == b && w[2] == c && w[3] == d;
  }

  /** Whatever the state before, a halt and a clear that overlap leave flag and height inconsistent exactly when one
      of them runs entirely between the two writes of the other. */
  lemma OverlapInconsistentIff(cfg: Config, s: System, w: seq<Step>)
    requires s.handler.handling.Raising? && s.handler.clearing == 0 && Interleaving(w)
    ensures Consistent(After(cfg, s, w).handler) <==> !Nested(w)
  {
    assert w == [w[0], w[1], w[2], w[3]];
    AfterFour(cfg, s, w[0], w[1], w[2], w[3]);
    OverlapCases(cfg, s, w[0], w[1], w[2], w[3]);
  }

  // ---- Whole runs ----

  /** The flag is not raised while a clear is half done, and not lowered while a halt is. */
  predicate OrderlyStep(s: System, step: Step) {
    && (step.RaiseFlag? ==> s.handler.clearing == 0)
    && (step.LowerFlag? ==> !s.handler.handling.Marking?)
  }

  ghost predicate Orderly(cfg: Config, steps: seq<Step>) {
    steps != [] ==>
      var front := steps[..|steps| - 1];
      Orderly(cfg, front) && OrderlyStep(Run(cfg, front), steps[|steps| - 1])
  }

  /** Half a clear leaves the flag down, half a halt leaves it up, and otherwise flag and height are consistent. */
  predicate Settled(h: Handler) {
    && (h.clearing > 0 ==> !h.halted && !h.handling.Marking?)
    && (h.handling.Marking? ==> h.halted)
    && (h.clearing == 0 && !h.handling.Marking? ==> Consistent(h))
  }

  lemma OrderlyKeeps(cfg: Config, s: System, step: Step)
    requires Settled(s.handler) && OrderlyStep(s, step)
    ensures Settled(Next(cfg, s, step).handler)
  {
  }

  /** Over every interleaving in which halts and clears do not cut into each other, whatever else is going on, the
      flag is up exactly when a height is noted, as soon as neither is half done. */
  lemma {:induction false} OrderlyRunConsistent(cfg: Config, steps: seq<Step>)
    requires Orderly(cfg, steps)
    ensures var h := Run(cfg, steps).handler;
      Settled(h) && (h.clearing == 0 && !h.handling.Marking? ==> Consistent(h))
  {
    if steps != [] {
      var front := steps[..|steps| - 1];
      OrderlyRunConsistent(cfg, front);
      OrderlyKeeps(cfg, Run(cfg, front), steps[|steps| - 1]);
    }
  }

  // ---- The races are reachable ----

  const OURS := Att(5, 7, 1, true)
  const THEIRS := Att(5, 9, 2, true)

  const REGISTER := [AddValidator(1, 1), AddValidator(2, 1), RecordOurs(5, 7)]

  /** One call, up to its check. */
  function CallSteps(id: nat, a: Att): seq<Step> { [Call(id, a), CheckKnown(id), CheckHeight(id), Store(id)] }

  /** Two validators of equal power attest two hashes for one height; ours is the smaller. */
  function Split(): seq<Step> { REGISTER + CallSteps(0, OURS) + CallSteps(1, THEIRS) + [Check(1)] + [Receive] }

  lemma RunMore(cfg: Config, steps: seq<Step>, s: System, step: Step)
    requires Run(cfg, steps) == s
    ensures Run(cfg, steps + [step]) == Next(cfg, s, step)
  {
    RunStep(cfg, steps, step);
  }

  /** Both validators are registered, our hash is recorded, nothing else has happened. */
  lemma Registered(cfg: Config)
    ensures Run(cfg, REGISTER) == INITIAL.(c := Collector(map[], map[1 := 1, 2 := 1], map[5 := 7]))
  {
    RunMore(cfg, [], INITIAL, AddValidator(1, 1));
    var s1 := Next(cfg, INITIAL, AddValidator(1, 1));
    assert [] + [AddValidator(1, 1)] == [AddValidator(1, 1)];
    RunMore(cfg, [AddValidator(1, 1)], s1, AddValidator(2, 1));
    var s2 := Next(cfg, s1, AddValidator(2, 1));
    assert [AddValidator(1, 1)] + [AddValidator(2, 1)] == [AddValidator(1, 1), AddValidator(2, 1)];
    RunMore(cfg, [AddValidator(1, 1), AddValidator(2, 1)], s2, RecordOurs(5, 7));
    assert [AddValidator(1, 1), AddValidator(2, 1)] + [RecordOurs(5, 7)] == [AddValidator(1, 1), AddValidator(2, 1), RecordOurs(5, 7)];
    assert map[][1 := 1][2 := 1] == map[1 := 1, 2 := 1];
    assert From(map[5 := 7], 5 - cfg.retention) == map[5 := 7];
  }

  lemma RunTwoMore(cfg: Config, steps: seq<Step>, s: System, a: Step, b: Step, t: System, u: System)
    requires Run(cfg, steps) == s && Next(cfg, s, a) == t && Next(cfg, t, b) == u
    ensures Run(cfg, steps + [a, b]) == u
  {
    RunMore(cfg, steps, s, a);
    RunMore(cfg, steps + [a], t, b);
    assert steps + [a] + [b] == steps + [a, b];
  }

  lemma MovedTwice(s: System, id: nat, p: Phase, q: Phase)
    ensures Moved(Moved(s, id, p), id, q) == Moved(s, id, q)
  {
    assert s.calls[id := p][id := q] == s.calls[id := q];
  }

  /** A call that is accepted: known, recent, and the first of its validator at its height. */
  lemma CallStored(cfg: Config, steps: seq<Step>, s: System, id: nat, a: Att)
    requires Run(cfg, steps) == s && cfg.enabled && a.genuine && id !in s.calls && a.key in s.c.validators
    requires !TooOld(cfg, s.c, a.height) && !HasKey(StoredAt(s.c, a.height), a.key)
    ensures Run(cfg, steps + CallSteps(id, a)) ==
      s.(c := Stored(cfg, s.c, a), calls := s.calls[id := AtCheck(a.height)], accepted := s.accepted + [a])
  {
    var s2, s3 := Moved(s, id, AtHeight(a)), Moved(s, id, AtStore(a));
    MovedTwice(s, id, AtKnown(a), AtHeight(a));
    MovedTwice(s, id, AtHeight(a), AtStore(a));
    MovedTwice(s, id, AtStore(a), AtCheck(a.height));
    RunTwoMore(cfg, steps, s, Call(id, a), CheckKnown(id), Moved(s, id, AtKnown(a)), s2);
    RunTwoMore(cfg, steps + [Call(id, a), CheckKnown(id)], s2, CheckHeight(id), Store(id), s3, StepStore(cfg, s3, id, a));
    assert steps + [Call(id, a), CheckKnown(id)] + [CheckHeight(id), Store(id)] == steps + CallSteps(id, a);
  }

  /** Both attested: a check now sends a minority alert, if the threshold can be met at all. */
  lemma SplitAlerts(threshold: real, vs: Validators)
    requires threshold <= 1.0 && vs == map[1 := 1, 2 := 1]
    ensures var v := Judge(threshold, 5, [OURS, THEIRS], vs, Some(7)); v.Some? && v.value.minority
  {
    var atts := [OURS, THEIRS];
    assert atts[..1] == [OURS] && [OURS][..0] == [];
    SumSplit(Powers(vs), 1);
    assert Powers(vs) - {1} == map[2 := 1];
    SumSplit(map[2 := 1 as int], 2);
    assert map[2 := 1 as int] - {2} == map[];
    assert TotalPower(vs) == 2;
    assert Voted([OURS], vs) == 1 && Voted(atts, vs) == 2;
    assert atts[0] == OURS && atts[1] == THEIRS;
    assert Attested(atts, vs, 7) && Attested(atts, vs, 9);
    assert Votes([OURS], vs) == map[7 := 1];
    assert Votes(atts, vs) == map[7 := 1, 9 := 1];
    MajorityUnique(Votes(atts, vs), 9);
  }

  /** Both attestations are stored and both calls are about to check. */
  ghost predicate BothStored(s: System) {
    && s.c == Collector(map[5 := [OURS, THEIRS]], map[1 := 1, 2 := 1], map[5 := 7])
    && 1 in s.calls && s.calls[1] == AtCheck(5) && s.sent == [] && s.taken == 0
    && s.handler == INITIAL.handler
  }

  lemma StoreBoth(cfg: Config, pre: seq<Step>)
    requires cfg.enabled && Run(cfg, pre) == INITIAL.(c := Collector(map[], map[1 := 1, 2 := 1], map[5 := 7]))
    ensures BothStored(Run(cfg, pre + CallSteps(0, OURS) + CallSteps(1, THEIRS)))
  {
    var s0 := Run(cfg, pre);
    CallStored(cfg, pre, s0, 0, OURS);
    FirstStored(cfg, s0.c);
    var one := pre + CallSteps(0, OURS);
    var s1 := Run(cfg, one);
    SecondStored(cfg, s1.c);
    CallStored(cfg, one, s1, 1, THEIRS);
  }

  lemma CheckRaises(cfg: Config, steps: seq<Step>)
    requires cfg.halting && cfg.threshold <= 1.0 && BothStored(Run(cfg, steps))
    ensures var h := Run(cfg, steps + [Check(1)] + [Receive]).handler; h.handling.Raising? && h.clearing == 0
  {
    var s := Run(cfg, steps);
    SplitAlerts(cfg.threshold, s.c.validators);
    RunMore(cfg, steps, s, Check(1));
    RunMore(cfg, steps + [Check(1)], Next(cfg, s, Check(1)), Receive);
  }

  /** Under any policy that halts, with a threshold that can be met, the handler does get to the point of raising
      the flag. */
  lemma RaisingReached(cfg: Config)
    requires cfg.enabled && cfg.halting && cfg.threshold <= 1.0
    ensures var h := Run(cfg, Split()).handler; h.handling.Raising? && h.clearing == 0
  {
    Registered(cfg);
    StoreBoth(cfg, REGISTER);
    CheckRaises(cfg, REGISTER + CallSteps(0, OURS) + CallSteps(1, THEIRS));
  }

  lemma FirstStored(cfg: Config, c: Collector)
    requires c == Collector(map[], map[1 := 1, 2 := 1], map[5 := 7])
    ensures Stored(cfg, c, OURS) == c.(stored := map[5 := [OURS]])
  {
    assert [] + [OURS] == [OURS];
    assert From(map[5 := [OURS]], 5 - cfg.retention) == map[5 := [OURS]];
  }

  lemma SecondStored(cfg: Config, c: Collector)
    requires c == Collector(map[5 := [OURS]], map[1 := 1, 2 := 1], map[5 := 7])
    ensures Stored(cfg, c, THEIRS) == c.(stored := map[5 := [OURS, THEIRS]])
  {
    assert [OURS] + [THEIRS] == [OURS, THEIRS];
    assert !HasKey([OURS], 2);
    assert From(map[5 := [OURS, THEIRS]], 5 - cfg.retention) == map[5 := [OURS, THEIRS]];
  }

  lemma {:induction false} RunAfter(cfg: Config, steps: seq<Step>, w: seq<Step>)
    ensures Run(cfg, steps + w) == After(cfg, Run(cfg, steps), w)
  {
    if w == [] {
      assert steps + w == steps;
    } else {
      var front := w[..|w| - 1];
      RunAfter(cfg, steps, front);
      RunMore(cfg, steps + front, Run(cfg, steps + front), w[|w| - 1]);
      assert steps + front + [w[|w| - 1]] == steps + w;
    }
  }

  /** So there is a run that ends with the flag down and a height noted, and one with the flag up and none, with no
      call half done in either. */
  lemma InconsistentReached(cfg: Config)
    requires cfg.enabled && cfg.halting && cfg.threshold <= 1.0
    ensures var down := Run(cfg, Split() + [RaiseFlag, LowerFlag, EraseHeight, MarkHeight]).handler;
      var up := Run(cfg, Split() + [LowerFlag, RaiseFlag, MarkHeight, EraseHeight]).handler;
      && !down.halted && down.at.Some? && down.handling.Idle? && down.clearing == 0
      && up.halted && up.at.None? && up.handling.Idle? && up.clearing == 0
  {
    RaisingReached(cfg);
    BothRaces(cfg, Run(cfg, Split()));
    RunAfter(cfg, Split(), [RaiseFlag, LowerFlag, EraseHeight, MarkHeight]);
    RunAfter(cfg, Split(), [LowerFlag, RaiseFlag, MarkHeight, EraseHeight]);
  }

  lemma BothRaces(cfg: Config, s: System)
    requires s.handler.handling.Raising? && s.handler.clearing == 0
    ensures var down := After(cfg, s, [RaiseFlag, LowerFlag, EraseHeight, MarkHeight]).handler;
      !down.halted && down.at.Some? && down.handling.Idle? && down.clearing == 0
    ensures var up := After(cfg, s, [LowerFlag, RaiseFlag, MarkHeight, EraseHeight]).handler;
      up.halted && up.at.None? && up.handling.Idle? && up.clearing == 0
  {
    AfterFour(cfg, s, RaiseFlag, LowerFlag, EraseHeight, MarkHeight);
    AfterFour(cfg, s, LowerFlag, RaiseFlag, MarkHeight, EraseHeight);
  }
}

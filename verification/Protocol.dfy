/** The attestation protocol as a state machine: every section that holds a lock is one step, and any number of
    attestations are processed at once, interleaved in any way with changes of the validator set, with our own
    hashes, with the handler taking alerts off the channel and with manual clears. */
module Protocol {
  import opened Options
  import opened Attestation

  datatype Config = Config(retention: nat, threshold: real, enabled: bool, halting: bool, onlyMinority: bool)

  /** What the collector's locks protect. */
  datatype Collector = Collector(stored: map<nat, seq<Att>>, validators: Validators, ours: map<nat, Hash>)

  datatype Result = Accepted | InvalidSignature | UnknownValidator | HeightTooOld | DuplicateAttestation

  /** Where a call that processes an attestation stands. */
  datatype Phase =
    | AtKnown(att: Att)
    | AtHeight(att: Att)
    | AtStore(att: Att)
    | AtCheck(height: nat)
    | Done(result: Result)

  // ---- The sections ----

  predicate TooOld(cfg: Config, c: Collector, h: nat) { exists g :: g in c.ours && h + cfg.retention < g }

  function StoredAt(c: Collector, h: nat): seq<Att> { if h in c.stored then c.stored[h] else [] }

  /** Everything from `min` upward. */
  function From<T>(m: map<nat, T>, min: int): map<nat, T> { map h | h in m && h >= min :: m[h] }

  function Stored(cfg: Config, c: Collector, a: Att): Collector {
    if HasKey(StoredAt(c, a.height), a.key) then c
    else c.(stored := From(c.stored[a.height := StoredAt(c, a.height) + [a]], a.height - cfg.retention))
  }

  function Recorded(cfg: Config, c: Collector, h: nat, x: Hash): Collector {
    c.(ours := From(c.ours[h := x], h - cfg.retention))
  }

  function OursAt(c: Collector, h: nat): Option<Hash> { if h in c.ours then Some(c.ours[h]) else None }

  ghost function Verdict(cfg: Config, c: Collector, h: nat): Option<Alert> {
    if h in c.stored then Judge(cfg.threshold, h, c.stored[h], c.validators, OursAt(c, h)) else None
  }

  // ---- The handler ----

  predicate Halts(cfg: Config, a: Alert) { cfg.halting && !(cfg.onlyMinority && !a.minority) }

  /** Between its steps the handler may be about to raise the flag, or to note the height. */
  datatype Handling = Idle | Raising(alert: Alert) | Marking(height: nat)

  /** `clearing` counts manual clears that have lowered the flag and not yet erased the height. */
  datatype Handler = Handler(halted: bool, at: Option<nat>, history: seq<Alert>, handling: Handling, clearing: nat)

  const HISTORY := 100

  function Remember(history: seq<Alert>, a: Alert): seq<Alert> {
    var more := history + [a];
    if |more| > HISTORY then more[1..] else more
  }

  // ---- The system ----

  /** A check that was made: what it saw and what it sent. */
  datatype Checked = Checked(height: nat, atts: seq<Att>, validators: Validators, ours: Option<Hash>, alert: Option<Alert>)

  /** The last four fields only record what happened: the checks made, the attestations accepted, the alerts that
      raised the flag, and how many of them had when it was last lowered. */
  datatype System = System(
    c: Collector, calls: map<nat, Phase>, sent: seq<Alert>, taken: nat, handler: Handler,
    checks: seq<Checked>, accepted: seq<Att>, raised: seq<Alert>, lowered: nat)

  datatype Step =
    | Call(id: nat, att: Att)
    | CheckKnown(id: nat)
    | CheckHeight(id: nat)
    | Store(id: nat)
    | Check(id: nat)
    | AddValidator(key: Key, power: nat)
    | RemoveValidator(key: Key)
    | UpdatePower(key: Key, power: nat)
    | RecordOurs(height: nat, hash: Hash)
    | Receive
    | RaiseFlag
    | MarkHeight
    | LowerFlag
    | EraseHeight

  function Moved(s: System, id: nat, p: Phase): System { s.(calls := s.calls[id := p]) }

  function StepStore(cfg: Config, s: System, id: nat, a: Att): System {
    if HasKey(StoredAt(s.c, a.height), a.key) then Moved(s, id, Done(DuplicateAttestation))
    else Moved(s, id, AtCheck(a.height)).(c := Stored(cfg, s.c, a), accepted := s.accepted + [a])
  }

  ghost function StepCheck(cfg: Config, s: System, id: nat, h: nat): System {
    var s' := Moved(s, id, Done(Accepted));
    if h !in s.c.stored then s'
    else
      var alert := Verdict(cfg, s.c, h);
      s'.(checks := s.checks + [Checked(h, s.c.stored[h], s.c.validators, OursAt(s.c, h), alert)],
          sent := if alert.Some? then s.sent + [alert.value] else s.sent)
  }

  function StepReceive(cfg: Config, s: System): System
    requires s.taken < |s.sent|
  {
    var a := s.sent[s.taken];
    s.(taken := s.taken + 1,
       handler := s.handler.(history := Remember(s.handler.history, a),
                             handling := if Halts(cfg, a) then Raising(a) else Idle))
  }

  /** One step; a step that is not possible now changes nothing. */
  ghost function Next(cfg: Config, s: System, step: Step): System {
    match step
    case Call(id, a) =>
      if id in s.calls || !cfg.enabled then s
      else Moved(s, id, if a.genuine then AtKnown(a) else Done(InvalidSignature))
    case CheckKnown(id) =>
      if id in s.calls && s.calls[id].AtKnown? then
        Moved(s, id, if s.calls[id].att.key in s.c.validators then AtHeight(s.calls[id].att) else Done(UnknownValidator))
      else s
    case CheckHeight(id) =>
      if id in s.calls && s.calls[id].AtHeight? then
        Moved(s, id, if TooOld(cfg, s.c, s.calls[id].att.height) then Done(HeightTooOld) else AtStore(s.calls[id].att))
      else s
    case Store(id) => if id in s.calls && s.calls[id].AtStore? then StepStore(cfg, s, id, s.calls[id].att) else s
    case Check(id) => if id in s.calls && s.calls[id].AtCheck? then StepCheck(cfg, s, id, s.calls[id].height) else s
    case AddValidator(k, p) => s.(c := s.c.(validators := s.c.validators[k := p]))
    case RemoveValidator(k) => s.(c := s.c.(validators := s.c.validators - {k}))
    case UpdatePower(k, p) =>
      s.(c := s.c.(validators := if p == 0 then s.c.validators - {k} else s.c.validators[k := p]))
    case RecordOurs(h, x) => s.(c := Recorded(cfg, s.c, h, x))
    case Receive => if s.handler.handling.Idle? && s.taken < |s.sent| then StepReceive(cfg, s) else s
    case RaiseFlag =>
      if s.handler.handling.Raising? then
        s.(handler := s.handler.(halted := true, handling := Marking(s.handler.handling.alert.height)),
           raised := s.raised + [s.handler.handling.alert])
      else s
    case MarkHeight =>
      if s.handler.handling.Marking? then
        s.(handler := s.handler.(at := Some(s.handler.handling.height), handling := Idle))
      else s
    case LowerFlag => s.(handler := s.handler.(halted := false, clearing := s.handler.clearing + 1), lowered := |s.raised|)
    case EraseHeight =>
      if s.handler.clearing > 0 then s.(handler := s.handler.(at := None, clearing := s.handler.clearing - 1)) else s
  }

  const INITIAL := System(Collector(map[], map[], map[]), map[], [], 0, Handler(false, None, [], Idle, 0), [], [], [], 0)

  ghost function Run(cfg: Config, steps: seq<Step>): System {
    if steps == [] then INITIAL else Next(cfg, Run(cfg, steps[..|steps| - 1]), steps[|steps| - 1])
  }

  // ---- What every interleaving keeps ----

  /** Each height stores attestations for that height, one per validator. */
  ghost predicate StoreOk(c: Collector) {
    forall h :: h in c.stored ==> OncePerKey(c.stored[h]) && AllAt(c.stored[h], h)
  }

  predicate AllAt(atts: seq<Att>, h: nat) {
    atts != [] ==> AllAt(atts[..|atts| - 1], h) && atts[|atts| - 1].height == h
  }

  function AcceptedAt(accepted: seq<Att>, h: nat): seq<Att> {
    if accepted == [] then []
    else
      var n := |accepted| - 1;
      AcceptedAt(accepted[..n], h) + if accepted[n].height == h then [accepted[n]] else []
  }

  function Highest(accepted: seq<Att>): nat {
    if accepted == [] then 0
    else
      var n := |accepted| - 1;
      if accepted[n].height > Highest(accepted[..n]) then accepted[n].height else Highest(accepted[..n])
  }

  /** Nothing within the retention of the highest accepted height is ever lost. */
  ghost predicate NothingLost(cfg: Config, s: System) {
    forall h: nat :: h + cfg.retention >= Highest(s.accepted) ==> StoredAt(s.c, h) == AcceptedAt(s.accepted, h)
  }

  /** What the latest check of a height saw. */
  function Seen(checks: seq<Checked>, h: nat): Option<Checked> {
    if checks == [] then None
    else if checks[|checks| - 1].height == h then Some(checks[|checks| - 1])
    else Seen(checks[..|checks| - 1], h)
  }

  ghost predicate Pending(s: System, h: nat) { exists id :: id in s.calls && s.calls[id] == AtCheck(h) }

  /** The latest check of every stored height saw all that is stored, or one is still to come. */
  ghost predicate SeenOrPending(s: System) {
    forall h :: h in s.c.stored ==>
      Pending(s, h) || (Seen(s.checks, h).Some? && Seen(s.checks, h).value.atts == s.c.stored[h])
  }

  function Alerts(checks: seq<Checked>): seq<Alert> {
    if checks == [] then []
    else
      var n := |checks| - 1;
      Alerts(checks[..n]) + if checks[n].alert.Some? then [checks[n].alert.value] else []
  }

  /** Every check decided by what it saw. */
  ghost predicate ChecksOk(cfg: Config, checks: seq<Checked>) {
    checks != [] ==>
      var r := checks[|checks| - 1];
      && ChecksOk(cfg, checks[..|checks| - 1])
      && OncePerKey(r.atts) && r.alert == Judge(cfg.threshold, r.height, r.atts, r.validators, r.ours)
  }

  function LastOf(alerts: seq<Alert>, n: nat): seq<Alert> { if |alerts| <= n then alerts else alerts[|alerts| - n..] }

  /** The alerts among these that call for a halt. */
  function Halting(cfg: Config, alerts: seq<Alert>): seq<Alert> {
    if alerts == [] then []
    else
      var n := |alerts| - 1;
      Halting(cfg, alerts[..n]) + if Halts(cfg, alerts[n]) then [alerts[n]] else []
  }

  /** The alerts that raised the flag are those taken off the channel that call for a halt, except one that is
      just about to; the flag is up when some did so since it was last lowered. */
  ghost predicate HandlerOk(cfg: Config, s: System) {
    && s.taken <= |s.sent| && s.lowered <= |s.raised|
    && Halting(cfg, s.sent[..s.taken]) ==
         s.raised + (if s.handler.handling.Raising? then [s.handler.handling.alert] else [])
    && (s.handler.halted <==> s.lowered < |s.raised|)
    && s.handler.history == LastOf(s.sent[..s.taken], HISTORY)
  }

  ghost predicate Inv(cfg: Config, s: System) {
    && StoreOk(s.c) && NothingLost(cfg, s) && SeenOrPending(s)
    && ChecksOk(cfg, s.checks) && s.sent == Alerts(s.checks) && HandlerOk(cfg, s)
  }

  // ---- Steps of the collector ----

  lemma StoredOk(cfg: Config, c: Collector, a: Att)
    requires StoreOk(c) && !HasKey(StoredAt(c, a.height), a.key)
    ensures StoreOk(Stored(cfg, c, a))
  {
    Appended(StoredAt(c, a.height), a);
  }

  lemma Appended(atts: seq<Att>, a: Att)
    requires OncePerKey(atts) && AllAt(atts, a.height) && !HasKey(atts, a.key)
    ensures OncePerKey(atts + [a]) && AllAt(atts + [a], a.height)
  {
    assert (atts + [a])[..|atts|] == atts;
  }

  lemma StoredNothingLost(cfg: Config, s: System, id: nat, a: Att)
    requires NothingLost(cfg, s) && !HasKey(StoredAt(s.c, a.height), a.key)
    ensures NothingLost(cfg, StepStore(cfg, s, id, a))
  {
    var s' := StepStore(cfg, s, id, a);
    assert s'.accepted[..|s.accepted|] == s.accepted;
    forall h: nat | h + cfg.retention >= Highest(s'.accepted)
      ensures StoredAt(s'.c, h) == AcceptedAt(s'.accepted, h)
    {
      assert h + cfg.retention >= Highest(s.accepted);
      assert h >= a.height - cfg.retention;
    }
  }

  lemma StorePending(cfg: Config, s: System, id: nat, a: Att)
    requires SeenOrPending(s) && !HasKey(StoredAt(s.c, a.height), a.key)
    requires id in s.calls && s.calls[id].AtStore?
    ensures SeenOrPending(StepStore(cfg, s, id, a))
  {
    var s' := StepStore(cfg, s, id, a);
    assert s'.calls[id] == AtCheck(a.height);
    forall h | h in s'.c.stored
      ensures Pending(s', h) || (Seen(s'.checks, h).Some? && Seen(s'.checks, h).value.atts == s'.c.stored[h])
    {
      if h != a.height && Pending(s, h) {
        var i :| i in s.calls && s.calls[i] == AtCheck(h);
        assert s'.calls[i] == AtCheck(h);
      }
    }
  }

  /** Moving a call that is not at its check, to anywhere, leaves every pending check pending. */
  lemma MovedPending(s: System, id: nat, p: Phase)
    requires SeenOrPending(s) && (id in s.calls ==> !s.calls[id].AtCheck?)
    ensures SeenOrPending(Moved(s, id, p))
  {
    var s' := Moved(s, id, p);
    forall h | h in s'.c.stored
      ensures Pending(s', h) || (Seen(s'.checks, h).Some? && Seen(s'.checks, h).value.atts == s'.c.stored[h])
    {
      if Pending(s, h) {
        var i :| i in s.calls && s.calls[i] == AtCheck(h);
        assert s'.calls[i] == AtCheck(h);
      }
    }
  }

  lemma StoreKeeps(cfg: Config, s: System, id: nat)
    requires Inv(cfg, s) && id in s.calls && s.calls[id].AtStore?
    ensures Inv(cfg, StepStore(cfg, s, id, s.calls[id].att))
  {
    var a := s.calls[id].att;
    if HasKey(StoredAt(s.c, a.height), a.key) {
      MovedPending(s, id, Done(DuplicateAttestation));
    } else {
      StoredOk(cfg, s.c, a);
      StoredNothingLost(cfg, s, id, a);
      StorePending(cfg, s, id, a);
    }
  }

  lemma CheckSeen(cfg: Config, s: System, id: nat, h: nat)
    requires SeenOrPending(s) && id in s.calls && s.calls[id] == AtCheck(h)
    ensures SeenOrPending(StepCheck(cfg, s, id, h))
  {
    var s' := StepCheck(cfg, s, id, h);
    if h in s.c.stored { assert s'.checks[..|s.checks|] == s.checks; }
    forall g | g in s'.c.stored
      ensures Pending(s', g) || (Seen(s'.checks, g).Some? && Seen(s'.checks, g).value.atts == s'.c.stored[g])
    {
      if g != h && Pending(s, g) {
        var i :| i in s.calls && s.calls[i] == AtCheck(g);
        assert s'.calls[i] == AtCheck(g);
      }
    }
  }

  lemma MoreSent(cfg: Config, s: System, s': System)
    requires HandlerOk(cfg, s) && s'.handler == s.handler && s'.taken == s.taken
    requires s'.raised == s.raised && s'.lowered == s.lowered
    requires s.sent <= s'.sent
    ensures HandlerOk(cfg, s')
  {
    assert s'.sent[..s.taken] == s.sent[..s.taken];
  }

  lemma StepCheckKeeps(cfg: Config, s: System, id: nat)
    requires Inv(cfg, s) && id in s.calls && s.calls[id].AtCheck?
    ensures Inv(cfg, StepCheck(cfg, s, id, s.calls[id].height))
  {
    var h := s.calls[id].height;
    var s' := StepCheck(cfg, s, id, h);
    CheckSeen(cfg, s, id, h);
    MoreSent(cfg, s, s');
    if h in s.c.stored { assert s'.checks[..|s.checks|] == s.checks; }
  }

  // ---- Steps of the handler ----

  lemma RememberLast(alerts: seq<Alert>, k: nat)
    requires k < |alerts|
    ensures Remember(LastOf(alerts[..k], HISTORY), alerts[k]) == LastOf(alerts[..k + 1], HISTORY)
  {
    var was := LastOf(alerts[..k], HISTORY);
    assert alerts[..k + 1] == alerts[..k] + [alerts[k]];
    if k >= HISTORY {
      assert (was + [alerts[k]])[1..] == alerts[..k + 1][k + 1 - HISTORY..];
    }
  }

  lemma ReceiveKeeps(cfg: Config, s: System)
    requires Inv(cfg, s) && s.handler.handling.Idle? && s.taken < |s.sent|
    ensures Inv(cfg, StepReceive(cfg, s))
  {
    RememberLast(s.sent, s.taken);
    assert s.sent[..s.taken + 1][..s.taken] == s.sent[..s.taken];
  }

  lemma HandlerKeeps(cfg: Config, s: System, step: Step)
    requires Inv(cfg, s) && (step.RaiseFlag? || step.MarkHeight? || step.LowerFlag? || step.EraseHeight?)
    ensures Inv(cfg, Next(cfg, s, step))
  {
  }

  // ---- Every step, every run ----

  lemma SameCalls(cfg: Config, s: System, s': System)
    requires Inv(cfg, s) && s' == s.(c := s'.c) && s'.c.stored == s.c.stored
    ensures Inv(cfg, s')
  {
    forall h | h in s'.c.stored
      ensures Pending(s', h) || (Seen(s'.checks, h).Some? && Seen(s'.checks, h).value.atts == s'.c.stored[h])
    {
      if Pending(s, h) {
        var i :| i in s.calls && s.calls[i] == AtCheck(h);
        assert s'.calls[i] == AtCheck(h);
      }
    }
    assert forall h :: StoredAt(s'.c, h) == StoredAt(s.c, h);
  }

  lemma MovedKeeps(cfg: Config, s: System, id: nat, p: Phase)
    requires Inv(cfg, s) && (id in s.calls ==> !s.calls[id].AtCheck?)
    ensures Inv(cfg, Moved(s, id, p))
  {
    MovedPending(s, id, p);
  }

  lemma EarlyStepKeeps(cfg: Config, s: System, step: Step)
    requires Inv(cfg, s) && (step.Call? || step.CheckKnown? || step.CheckHeight?)
    ensures Inv(cfg, Next(cfg, s, step))
  {
    var s' := Next(cfg, s, step);
    if s' != s { MovedKeeps(cfg, s, step.id, s'.calls[step.id]); }
  }

  /** Every step, from every state that satisfies the invariant. */
  lemma StepKeeps(cfg: Config, s: System, step: Step)
    requires Inv(cfg, s)
    ensures Inv(cfg, Next(cfg, s, step))
  {
    var s' := Next(cfg, s, step);
    match step {
      case Call(_, _) => EarlyStepKeeps(cfg, s, step);
      case CheckKnown(_) => EarlyStepKeeps(cfg, s, step);
      case CheckHeight(_) => EarlyStepKeeps(cfg, s, step);
      case Store(id) => if id in s.calls && s.calls[id].AtStore? { StoreKeeps(cfg, s, id); }
      case Check(id) => if id in s.calls && s.calls[id].AtCheck? { StepCheckKeeps(cfg, s, id); }
      case AddValidator(_, _) => SameCalls(cfg, s, s');
      case RemoveValidator(_) => SameCalls(cfg, s, s');
      case UpdatePower(_, _) => SameCalls(cfg, s, s');
      case RecordOurs(_, _) => SameCalls(cfg, s, s');
      case Receive => if s.handler.handling.Idle? && s.taken < |s.sent| { ReceiveKeeps(cfg, s); }
      case _ => HandlerKeeps(cfg, s, step);
    }
  }

  lemma {:induction false} RunKeeps(cfg: Config, steps: seq<Step>)
    ensures Inv(cfg, Run(cfg, steps))
  {
    if steps != [] {
      RunKeeps(cfg, steps[..|steps| - 1]);
      StepKeeps(cfg, Run(cfg, steps[..|steps| - 1]), steps[|steps| - 1]);
    }
  }

  // ---- What that means ----

  /** In every reachable state each height holds at most one attestation per validator, so the power counted for
      it never exceeds the registered power. */
  lemma CountedPowerBounded(cfg: Config, steps: seq<Step>, h: nat)
    ensures var c := Run(cfg, steps).c;
      OncePerKey(StoredAt(c, h)) && Voted(StoredAt(c, h), c.validators) <= TotalPower(c.validators)
  {
    RunKeeps(cfg, steps);
    var c := Run(cfg, steps).c;
    VotedBounded(StoredAt(c, h), c.validators);
  }

  /** Once no check of a height is pending, its latest check saw every attestation ever accepted for it, as long
      as the height is within the retention of the highest accepted one; and if the validators are still those
      that check used, it sent an alert exactly when all those votes diverge. */
  lemma LastCheckSawAll(cfg: Config, steps: seq<Step>, h: nat)
    requires var s := Run(cfg, steps);
      h + cfg.retention >= Highest(s.accepted) && AcceptedAt(s.accepted, h) != [] && !Pending(s, h)
    ensures var s := Run(cfg, steps); var r := Seen(s.checks, h);
      && r.Some? && r.value.atts == AcceptedAt(s.accepted, h)
      && (r.value.validators == s.c.validators ==>
            (r.value.alert.Some? <==> Diverges(cfg.threshold, AcceptedAt(s.accepted, h), s.c.validators)))
  {
    RunKeeps(cfg, steps);
    var s := Run(cfg, steps);
    assert StoredAt(s.c, h) == AcceptedAt(s.accepted, h);
    var r := Seen(s.checks, h).value;
    SeenDecided(cfg, s.checks, h);
  }

  lemma {:induction false} SeenDecided(cfg: Config, checks: seq<Checked>, h: nat)
    requires ChecksOk(cfg, checks) && Seen(checks, h).Some?
    ensures var r := Seen(checks, h).value;
      r.height == h && r.alert == Judge(cfg.threshold, r.height, r.atts, r.validators, r.ours)
  {
    if checks[|checks| - 1].height != h { SeenDecided(cfg, checks[..|checks| - 1], h); }
  }

  lemma {:induction false} AlertFrom(cfg: Config, checks: seq<Checked>, a: Alert) returns (r: Checked)
    requires ChecksOk(cfg, checks) && a in Alerts(checks)
    ensures r in checks && OncePerKey(r.atts) && r.alert == Some(a)
    ensures r.alert == Judge(cfg.threshold, r.height, r.atts, r.validators, r.ours)
  {
    var n := |checks| - 1;
    if checks[n].alert == Some(a) {
      r := checks[n];
    } else {
      r := AlertFrom(cfg, checks[..n], a);
    }
  }

  lemma {:induction false} HaltingIn(cfg: Config, alerts: seq<Alert>, a: Alert)
    requires a in Halting(cfg, alerts)
    ensures a in alerts && Halts(cfg, a)
  {
    var n := |alerts| - 1;
    if a != alerts[n] || !Halts(cfg, alerts[n]) { HaltingIn(cfg, alerts[..n], a); }
  }

  /** The flag is up exactly when an alert raised it since it was last lowered, and every alert taken off the
      channel that calls for a halt does raise it. Under a policy that halts on minority alerts only, each such
      alert came from a check at which the attested power met the threshold, no validator was counted twice, and
      a hash other than ours had the most power. */
  lemma HaltedMeansMinority(cfg: Config, steps: seq<Step>)
    requires cfg.onlyMinority
    ensures var s := Run(cfg, steps);
      && s.lowered <= |s.raised| && (s.handler.halted <==> s.raised[s.lowered..] != [])
      && s.taken <= |s.sent|
      && (!s.handler.handling.Raising? ==> s.raised == Halting(cfg, s.sent[..s.taken]))
      && forall a :: a in s.raised ==> exists r :: r in s.checks && Justifies(cfg, r, a)
  {
    RunKeeps(cfg, steps);
    var s := Run(cfg, steps);
    if !s.handler.handling.Raising? { assert s.raised + [] == s.raised; }
    forall a | a in s.raised ensures exists r :: r in s.checks && Justifies(cfg, r, a) {
      RaisedJustified(cfg, s, a);
    }
  }

  lemma RaisedJustified(cfg: Config, s: System, a: Alert)
    requires cfg.onlyMinority && Inv(cfg, s) && a in s.raised
    ensures exists r :: r in s.checks && Justifies(cfg, r, a)
  {
    assert a in Halting(cfg, s.sent[..s.taken]);
    HaltingIn(cfg, s.sent[..s.taken], a);
    assert a in s.sent;
    var r := AlertFrom(cfg, s.checks, a);
    MinorityMeans(cfg.threshold, r.height, r.atts, r.validators, r.ours);
    assert Justifies(cfg, r, a);
  }

  ghost predicate Justifies(cfg: Config, r: Checked, a: Alert) {
    && r.alert == Some(a) && a.minority && a.height == r.height && OncePerKey(r.atts)
    && TotalPower(r.validators) > 0
    && Voted(r.atts, r.validators) as real / TotalPower(r.validators) as real >= cfg.threshold
    && r.ours.Some? && exists m :: Leads(r.atts, r.validators, m) && m != r.ours.value
  }

  lemma {:induction false} CheckDecided(cfg: Config, checks: seq<Checked>, r: Checked)
    requires ChecksOk(cfg, checks) && r in checks
    ensures r.alert == Judge(cfg.threshold, r.height, r.atts, r.validators, r.ours)
    ensures r.alert.Some? ==> r.alert.value in Alerts(checks)
  {
    var n := |checks| - 1;
    if r != checks[n] {
      assert r in checks[..n];
      CheckDecided(cfg, checks[..n], r);
    }
  }

  /** Over every run, every check that found a divergence sent an alert that reports what it saw, and told us that we
      are in the minority exactly when our hash was known and another one beat it (nobody attested ours, where only
      validators without power had attested). */
  lemma MinorityTold(cfg: Config, steps: seq<Step>, r: Checked)
    requires r in Run(cfg, steps).checks && Diverges(cfg.threshold, r.atts, r.validators)
    ensures r.alert.Some? && r.alert.value in Run(cfg, steps).sent
    ensures var a := r.alert.value;
      && Reports(a, r.height, r.atts, r.validators, r.ours)
      && (a.minority <==> r.ours.Some? && a.majority != r.ours)
      && (Voted(r.atts, r.validators) > 0 ==>
            (a.minority <==> r.ours.Some? && exists x :: Beats(r.atts, r.validators, x, r.ours.value)))
  {
    RunKeeps(cfg, steps);
    CheckDecided(cfg, Run(cfg, steps).checks, r);
    MinorityIff(cfg.threshold, r.height, r.atts, r.validators, r.ours);
  }

  lemma RunStep(cfg: Config, steps: seq<Step>, step: Step)
    ensures Run(cfg, steps + [step]) == Next(cfg, Run(cfg, steps), step)
  {
    assert (steps + [step])[..|steps|] == steps;
  }

  /** After every run: the next alert, once taken, raises the flag and notes its height if the policy halts and either
      halts on every alert or this one says that we are in the minority; and leaves flag and height alone otherwise. */
  lemma TakenHaltsIff(cfg: Config, steps: seq<Step>)
    requires var s := Run(cfg, steps); s.handler.handling.Idle? && s.taken < |s.sent|
    ensures var s := Run(cfg, steps); var a := s.sent[s.taken];
      var h := Run(cfg, steps + [Receive] + [RaiseFlag] + [MarkHeight]).handler;
      && h.handling.Idle?
      && if cfg.halting && (a.minority || !cfg.onlyMinority) then h.halted && h.at == Some(a.height)
         else h.halted == s.handler.halted && h.at == s.handler.at
  {
    RunStep(cfg, steps, Receive);
    RunStep(cfg, steps + [Receive], RaiseFlag);
    RunStep(cfg, steps + [Receive] + [RaiseFlag], MarkHeight);
  }

  /** What an uninterrupted call does up to its check: refused for the first reason that applies, and otherwise the
      attestation is stored behind those of its height, and heights further back than the retention are forgotten. */
  lemma CallOutcome(cfg: Config, s: System, id: nat, a: Att)
    requires cfg.enabled && id !in s.calls
    ensures var t := Next(cfg, Next(cfg, Next(cfg, Next(cfg, s, Call(id, a)), CheckKnown(id)), CheckHeight(id)), Store(id));
      var before := if a.height in s.c.stored then s.c.stored[a.height] else [];
      && id in t.calls
      && t.calls[id] ==
           (if !a.genuine then Done(InvalidSignature)
            else if a.key !in s.c.validators then Done(UnknownValidator)
            else if exists g :: g in s.c.ours && g > a.height + cfg.retention then Done(HeightTooOld)
            else if exists i :: 0 <= i < |before| && before[i].key == a.key then Done(DuplicateAttestation)
            else AtCheck(a.height))
      && (if t.calls[id].Done? then t.c == s.c && t.accepted == s.accepted
          else
            && t.accepted == s.accepted + [a] && t.c == s.c.(stored := t.c.stored)
            && forall h :: (h in t.c.stored <==> (h in s.c.stored || h == a.height) && h + cfg.retention >= a.height)
                 && (h in t.c.stored ==> t.c.stored[h] == if h == a.height then before + [a] else s.c.stored[h]))
  {
    HasKeyMeans(StoredAt(s.c, a.height), a.key);
  }

  lemma {:induction false} HasKeyMeans(atts: seq<Att>, k: Key)
    ensures HasKey(atts, k) <==> exists i :: 0 <= i < |atts| && atts[i].key == k
  {
    if atts != [] {
      HasKeyMeans(atts[..|atts| - 1], k);
      if HasKey(atts[..|atts| - 1], k) {
        var i :| 0 <= i < |atts| - 1 && atts[..|atts| - 1][i].key == k;
        assert atts[i].key == k;
      }
    }
  }

  /** Recording our own hash keeps what is within the retention of its height. */
  lemma RecordOutcome(cfg: Config, s: System, h: nat, x: Hash)
    ensures var t := Next(cfg, s, RecordOurs(h, x));
      && t == s.(c := s.c.(ours := t.c.ours))
      && forall g :: (g in t.c.ours <==> (g in s.c.ours || g == h) && g + cfg.retention >= h)
           && (g in t.c.ours ==> t.c.ours[g] == if g == h then x else s.c.ours[g])
  {
  }

  /** The history is the last hundred alerts taken off the channel, in order. */
  lemma HistoryIsRecent(cfg: Config, steps: seq<Step>)
    ensures var s := Run(cfg, steps);
      s.taken <= |s.sent| && s.handler.history == LastOf(s.sent[..s.taken], 100) && |s.handler.history| <= 100
  {
    RunKeeps(cfg, steps);
  }
}

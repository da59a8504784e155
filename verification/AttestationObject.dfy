/** The collector and the handler as objects; each method below is one section that holds a lock, or one call that
    nothing interrupts. */
module AttestationObject {
  import opened Options
  import opened Attestation
  import opened Protocol

  /** Keep the entries from `min` upward. */
  method Retain<T>(m: map<nat, T>, min: int) returns (r: map<nat, T>)
    ensures r == From(m, min)
  {
    r := m;
    var todo := m.Keys;
    while todo != {}
      invariant todo <= m.Keys && r.Keys <= m.Keys
      invariant forall h :: h in m && h in todo ==> h in r
      invariant forall h :: h in m && h !in todo ==> (h in r <==> h >= min)
      invariant forall h :: h in r ==> r[h] == m[h]
      decreases |todo|
    {
      var h :| h in todo;
      if h < min {
        r := r - {h};
      }
      todo := todo - {h};
    }
    assert r.Keys == From(m, min).Keys;
  }

  class AttestationCollector {
    const cfg: Config
    var stored: map<nat, seq<Att>>
    var validators: Validators
    var ours: map<nat, Hash>
    /** The channel to the handler. */
    var sent: seq<Alert>

    ghost function State(): Collector
      reads this
    {
      Collector(stored, validators, ours)
    }

    constructor (cfg: Config)
      ensures this.cfg == cfg && State() == Collector(map[], map[], map[]) && sent == []
    {
      this.cfg := cfg;
      stored, validators, ours, sent := map[], map[], map[], [];
    }

    method PutValidator(key: Key, power: nat)
      modifies `validators
      ensures validators == old(validators)[key := power]
    {
      validators := validators[key := power];
    }

    method DropValidator(key: Key)
      modifies `validators
      ensures validators == old(validators) - {key}
    {
      validators := validators - {key};
    }

    method UpdateValidatorPower(key: Key, power: nat)
      modifies `validators
      ensures validators == if power == 0 then old(validators) - {key} else old(validators)[key := power]
    {
      if power == 0 {
        validators := validators - {key};
      } else {
        validators := validators[key := power];
      }
    }

    method RecordOurHash(height: nat, hash: Hash)
      modifies `ours
      ensures State() == Recorded(cfg, old(State()), height, hash)
    {
      ours := ours[height := hash];
      ours := Retain(ours, height - cfg.retention);
    }

    /** The latest height we recorded a hash for decides what is too old. */
    method IsTooOld(height: nat) returns (tooOld: bool)
      ensures tooOld == TooOld(cfg, State(), height)
    {
      var latest := 0;
      var todo := ours.Keys;
      while todo != {}
        invariant todo <= ours.Keys
        invariant latest == 0 || latest in ours
        invariant forall h :: h in ours && h !in todo ==> h <= latest
        decreases |todo|
      {
        var h :| h in todo;
        if h > latest {
          latest := h;
        }
        todo := todo - {h};
      }
      tooOld := height + cfg.retention < latest;
    }

    method IsDuplicate(atts: seq<Att>, key: Key) returns (found: bool)
      ensures found == HasKey(atts, key)
    {
      found := false;
      for i := 0 to |atts|
        invariant found == HasKey(atts[..i], key)
      {
        assert atts[..i + 1][..i] == atts[..i];
        if atts[i].key == key {
          found := true;
        }
      }
      assert atts[..|atts|] == atts;
    }

    method StoreAttestation(a: Att) returns (ok: bool)
      modifies `stored
      ensures ok == !HasKey(StoredAt(old(State()), a.height), a.key)
      ensures State() == Stored(cfg, old(State()), a)
    {
      var here := if a.height in stored then stored[a.height] else [];
      var duplicate := IsDuplicate(here, a.key);
      if duplicate {
        return false;
      }
      stored := stored[a.height := here + [a]];
      stored := Retain(stored, a.height - cfg.retention);
      ok := true;
    }

    /** Tally the attestations of a height and send an alert if they diverge. */
    method CheckHeight(height: nat)
      modifies `sent
      ensures var alert := Verdict(cfg, State(), height);
        sent == if alert.Some? then old(sent) + [alert.value] else old(sent)
    {
      if height !in stored {
        return;
      }
      var alert := CheckDivergence(cfg.threshold, height, stored[height], validators,
                                   if height in ours then Some(ours[height]) else None);
      if alert.Some? {
        sent := sent + [alert.value];
      }
    }

    /** One attestation processed with nothing in between: refused for the first reason that applies, or stored
        and checked. */
    method ProcessAttestation(a: Att) returns (r: Result)
      modifies `stored, `sent
      ensures r == (if !cfg.enabled then Accepted
                    else if !a.genuine then InvalidSignature
                    else if a.key !in validators then UnknownValidator
                    else if TooOld(cfg, old(State()), a.height) then HeightTooOld
                    else if HasKey(StoredAt(old(State()), a.height), a.key) then DuplicateAttestation
                    else Accepted)
      ensures State() == if r == Accepted && cfg.enabled then Stored(cfg, old(State()), a) else old(State())
      ensures var alert := Verdict(cfg, State(), a.height);
        sent == if r == Accepted && cfg.enabled && alert.Some? then old(sent) + [alert.value] else old(sent)
    {
      if !cfg.enabled {
        return Accepted;
      }
      if !a.genuine {
        return InvalidSignature;
      }
      if a.key !in validators {
        return UnknownValidator;
      }
      var tooOld := IsTooOld(a.height);
      if tooOld {
        return HeightTooOld;
      }
      var ok := StoreAttestation(a);
      if !ok {
        return DuplicateAttestation;
      }
      CheckHeight(a.height);
      r := Accepted;
    }
  }

  class DivergenceHandler {
    const cfg: Config
    var halted: bool
    var divergenceHeight: Option<nat>
    var history: seq<Alert>

    /** The flag is up exactly when a height is noted, as long as alerts and clears do not overlap. */
    ghost predicate Valid()
      reads this
    {
      |history| <= HISTORY && (halted <==> divergenceHeight.Some?)
    }

    constructor (cfg: Config)
      ensures Valid() && this.cfg == cfg && !halted && history == []
    {
      this.cfg := cfg;
      halted, divergenceHeight, history := false, None, [];
    }

    method HandleAlert(a: Alert)
      requires Valid()
      modifies this
      ensures Valid() && history == Remember(old(history), a)
      ensures halted == (old(halted) || Halts(cfg, a))
      ensures divergenceHeight == if Halts(cfg, a) then Some(a.height) else old(divergenceHeight)
    {
      history := history + [a];
      if |history| > HISTORY {
        history := history[1..];
      }
      if !cfg.halting {
        return;
      }
      if cfg.onlyMinority && !a.minority {
        return;
      }
      halted := true;
      divergenceHeight := Some(a.height);
    }

    method ClearHalt()
      requires Valid()
      modifies `halted, `divergenceHeight
      ensures Valid() && !halted
    {
      halted := false;
      divergenceHeight := None;
    }
  }
}

/** Counting attested voting power at one height, and when the counts call for an alert. */
module Attestation {
  import opened Options
  import opened MapSum

  /** Public keys and application hashes are 32 bytes, ordered like the numbers they spell. */
  type Key = nat
  type Hash = nat

  /** `genuine` says that the signature verifies. */
  datatype Att = Att(height: nat, hash: Hash, key: Key, genuine: bool)

  type Validators = map<Key, nat>

  datatype Alert = Alert(height: nat, ourHash: Hash, majority: Option<Hash>, atts: seq<Att>, minority: bool,
                         votes: map<Hash, nat>)

  predicate HasKey(atts: seq<Att>, k: Key) {
    atts != [] && (atts[|atts| - 1].key == k || HasKey(atts[..|atts| - 1], k))
  }

  /** No validator is there twice. */
  predicate OncePerKey(atts: seq<Att>) {
    atts != [] ==>
      var n := |atts| - 1;
      OncePerKey(atts[..n]) && !HasKey(atts[..n], atts[n].key)
  }

  // ---- The tally ----

  function Add(votes: map<Hash, nat>, x: Hash, power: nat): map<Hash, nat> {
    votes[x := (if x in votes then votes[x] else 0) + power]
  }

  /** Power by hash, over the attestations of registered validators. */
  function Votes(atts: seq<Att>, vs: Validators): map<Hash, nat> {
    if atts == [] then map[]
    else
      var n := |atts| - 1;
      if atts[n].key in vs then Add(Votes(atts[..n], vs), atts[n].hash, vs[atts[n].key]) else Votes(atts[..n], vs)
  }

  function Voted(atts: seq<Att>, vs: Validators): nat {
    if atts == [] then 0
    else
      var n := |atts| - 1;
      Voted(atts[..n], vs) + if atts[n].key in vs then vs[atts[n].key] else 0
  }

  /** The power of the registered validators that attested `x`. */
  function PowerFor(atts: seq<Att>, vs: Validators, x: Hash): nat {
    if atts == [] then 0
    else
      var n := |atts| - 1;
      PowerFor(atts[..n], vs, x) + if atts[n].key in vs && atts[n].hash == x then vs[atts[n].key] else 0
  }

  ghost predicate Attested(atts: seq<Att>, vs: Validators, x: Hash) {
    exists i :: 0 <= i < |atts| && atts[i].key in vs && atts[i].hash == x
  }

  /** The tally lists exactly the hashes that registered validators attested, each with its power. */
  lemma {:induction false} VotesExact(atts: seq<Att>, vs: Validators, x: Hash)
    ensures x in Votes(atts, vs) <==> Attested(atts, vs, x)
    ensures PowerFor(atts, vs, x) == if x in Votes(atts, vs) then Votes(atts, vs)[x] else 0
  {
    if atts != [] {
      var n := |atts| - 1;
      VotesExact(atts[..n], vs, x);
      assert forall i :: 0 <= i < n ==> atts[..n][i] == atts[i];
      if Attested(atts[..n], vs, x) {
        var i :| 0 <= i < n && atts[..n][i].key in vs && atts[..n][i].hash == x;
        assert atts[i].hash == x;
      }
      if atts[n].key in vs && atts[n].hash == x { assert Attested(atts, vs, x); }
    }
  }

  function Ints(m: map<Hash, nat>): map<Hash, int> { map x | x in m :: m[x] }

  /** The counted power is the sum over the tally. */
  lemma {:induction false} VotesSum(atts: seq<Att>, vs: Validators)
    ensures Sum(Ints(Votes(atts, vs))) == Voted(atts, vs)
  {
    if atts == [] {
      assert Ints(map[]) == map[];
    } else {
      var n := |atts| - 1;
      VotesSum(atts[..n], vs);
      if atts[n].key in vs {
        var votes, x := Votes(atts[..n], vs), atts[n].hash;
        var more := Add(votes, x, vs[atts[n].key]);
        SumUpdate(Ints(votes), x, more[x]);
        assert Ints(more) == Ints(votes)[x := more[x]];
      }
    }
  }

  function Powers(vs: Validators): map<Key, int> { map k | k in vs :: vs[k] }

  ghost function TotalPower(vs: Validators): int { Sum(Powers(vs)) }

  lemma {:induction false} SumNonNegative<K(!new)>(m: map<K, int>)
    requires forall k :: k in m ==> m[k] >= 0
    ensures Sum(m) >= 0
    decreases |m|
  {
    if m != map[] {
      var k :| k in m;
      SumSplit(m, k);
      assert (m - {k}).Keys == m.Keys - {k};
      SumNonNegative(m - {k});
    }
  }

  lemma {:induction false} VotedWithout(atts: seq<Att>, vs: Validators, k: Key)
    requires !HasKey(atts, k)
    ensures Voted(atts, vs - {k}) == Voted(atts, vs)
  {
    if atts != [] { VotedWithout(atts[..|atts| - 1], vs, k); }
  }

  /** If no validator is counted twice, the counted power is at most the registered power. */
  lemma {:induction false} VotedBounded(atts: seq<Att>, vs: Validators)
    requires OncePerKey(atts)
    ensures Voted(atts, vs) <= TotalPower(vs)
    decreases |atts|
  {
    if atts == [] {
      SumNonNegative(Powers(vs));
    } else {
      var n := |atts| - 1;
      var k := atts[n].key;
      if k in vs {
        VotedWithout(atts[..n], vs, k);
        VotedBounded(atts[..n], vs - {k});
        SumSplit(Powers(vs), k);
        assert Powers(vs - {k}) == Powers(vs) - {k};
      } else {
        VotedBounded(atts[..n], vs);
      }
    }
  }

  // ---- The verdict ----

  /** Enough power has attested, and not all of it to one hash. */
  ghost predicate Diverges(threshold: real, atts: seq<Att>, vs: Validators) {
    && TotalPower(vs) > 0
    && Voted(atts, vs) as real / TotalPower(vs) as real >= threshold
    && exists x, y :: x != y && Attested(atts, vs, x) && Attested(atts, vs, y)
  }

  /** Of the hashes with the most power, the last. */
  ghost predicate IsMajority(votes: map<Hash, nat>, m: Hash) {
    m in votes && forall x :: x in votes ==> votes[x] < votes[m] || (votes[x] == votes[m] && x <= m)
  }

  lemma {:induction false} MajorityExists(votes: map<Hash, nat>) returns (m: Hash)
    requires votes != map[]
    ensures IsMajority(votes, m)
    decreases |votes|
  {
    var a :| a in votes;
    var rest := votes - {a};
    assert rest.Keys == votes.Keys - {a};
    assert forall x :: x in votes ==> x == a || x in rest;
    m := a;
    if rest != map[] {
      var b := MajorityExists(rest);
      if votes[a] < votes[b] || (votes[a] == votes[b] && a <= b) { m := b; }
    }
  }

  ghost function Majority(votes: map<Hash, nat>): (m: Hash)
    requires votes != map[]
    ensures IsMajority(votes, m)
  {
    assert exists m :: IsMajority(votes, m) by { var m := MajorityExists(votes); }
    var m :| IsMajority(votes, m);
    m
  }

  lemma MajorityUnique(votes: map<Hash, nat>, m: Hash)
    requires IsMajority(votes, m)
    ensures votes != map[] && Majority(votes) == m
  {
    assert m in votes;
    var n := Majority(votes);
    assert n in votes;
  }

  ghost function AlertOf(height: nat, atts: seq<Att>, vs: Validators, ours: Option<Hash>): Alert
    requires Votes(atts, vs) != map[]
  {
    var votes := Votes(atts, vs);
    var m := Majority(votes);
    Alert(height, if ours.Some? then ours.value else 0, Some(m), atts, ours.Some? && ours.value != m, votes)
  }

  lemma DivergesVotes(threshold: real, atts: seq<Att>, vs: Validators)
    requires Diverges(threshold, atts, vs)
    ensures |Votes(atts, vs)| > 1 && Votes(atts, vs) != map[]
  {
    var x, y :| x != y && Attested(atts, vs, x) && Attested(atts, vs, y);
    VotesExact(atts, vs, x);
    VotesExact(atts, vs, y);
    var votes := Votes(atts, vs);
    assert {x, y} <= votes.Keys;
    SubsetSize({x, y}, votes.Keys);
    assert |{x, y}| == 2;
  }

  lemma {:induction false} SubsetSize<T(!new)>(a: set<T>, b: set<T>)
    requires a <= b
    ensures |a| <= |b|
    decreases |a|
  {
    if a != {} {
      var x :| x in a;
      SubsetSize(a - {x}, b - {x});
    }
  }

  /** What a check at one height sends: an alert exactly when the attestations diverge. */
  ghost function Judge(threshold: real, height: nat, atts: seq<Att>, vs: Validators, ours: Option<Hash>): Option<Alert> {
    if Diverges(threshold, atts, vs) then
      DivergesVotes(threshold, atts, vs);
      Some(AlertOf(height, atts, vs, ours))
    else None
  }

  /** The hash is attested, and none has more power. */
  ghost predicate Leads(atts: seq<Att>, vs: Validators, m: Hash) {
    Attested(atts, vs, m) && forall x :: PowerFor(atts, vs, x) <= PowerFor(atts, vs, m)
  }

  /** A minority alert means: enough power attested, our hash is known, and another hash has at least as much
      power as any. */
  lemma MinorityMeans(threshold: real, height: nat, atts: seq<Att>, vs: Validators, ours: Option<Hash>)
    requires var a := Judge(threshold, height, atts, vs, ours); a.Some? && a.value.minority
    ensures TotalPower(vs) > 0 && Voted(atts, vs) as real / TotalPower(vs) as real >= threshold
    ensures ours.Some? && exists m :: Leads(atts, vs, m) && m != ours.value
  {
    DivergesVotes(threshold, atts, vs);
    var votes := Votes(atts, vs);
    var m := Majority(votes);
    VotesExact(atts, vs, m);
    forall x ensures PowerFor(atts, vs, x) <= PowerFor(atts, vs, m) { VotesExact(atts, vs, x); }
    assert Leads(atts, vs, m);
  }

  lemma RatioMeans(v: real, total: real, threshold: real)
    requires total > 0.0
    ensures v / total >= threshold <==> v >= threshold * total
  {
    assert v == (v / total) * total;
  }

  /** Two registered validators attested two hashes. */
  ghost predicate TwoHashes(atts: seq<Att>, vs: Validators) {
    exists i, j :: 0 <= i < |atts| && 0 <= j < |atts| && atts[i].key in vs && atts[j].key in vs && atts[i].hash != atts[j].hash
  }

  lemma TwoHashesIff(atts: seq<Att>, vs: Validators)
    ensures TwoHashes(atts, vs) <==> exists x, y :: x != y && Attested(atts, vs, x) && Attested(atts, vs, y)
  {
    if TwoHashes(atts, vs) {
      var i, j :| 0 <= i < |atts| && 0 <= j < |atts| && atts[i].key in vs && atts[j].key in vs && atts[i].hash != atts[j].hash;
      assert Attested(atts, vs, atts[i].hash) && Attested(atts, vs, atts[j].hash);
    }
  }

  /** A check alerts exactly when some power is registered, the power that attested is at least the threshold's share of
      it, and the registered validators attested two hashes. */
  lemma AlertedIff(threshold: real, height: nat, atts: seq<Att>, vs: Validators, ours: Option<Hash>)
    ensures Judge(threshold, height, atts, vs, ours).Some? <==>
      TotalPower(vs) > 0 && Voted(atts, vs) as real >= threshold * TotalPower(vs) as real && TwoHashes(atts, vs)
  {
    TwoHashesIff(atts, vs);
    if TotalPower(vs) > 0 { RatioMeans(Voted(atts, vs) as real, TotalPower(vs) as real, threshold); }
  }

  /** `x` beats `y`: more power attests it, or as much and it is the larger hash. */
  ghost predicate Beats(atts: seq<Att>, vs: Validators, x: Hash, y: Hash) {
    Attested(atts, vs, x) &&
    (PowerFor(atts, vs, x) > PowerFor(atts, vs, y) || (PowerFor(atts, vs, x) == PowerFor(atts, vs, y) && x > y))
  }

  /** An alert reports the tally of what was attested and the hash that no other beats. */
  ghost predicate Reports(a: Alert, height: nat, atts: seq<Att>, vs: Validators, ours: Option<Hash>) {
    && a.height == height && a.atts == atts && (ours.Some? ==> a.ourHash == ours.value) && (ours.None? ==> a.ourHash == 0)
    && (forall x :: x in a.votes <==> Attested(atts, vs, x))
    && (forall x :: x in a.votes ==> a.votes[x] == PowerFor(atts, vs, x))
    && a.majority.Some? && Attested(atts, vs, a.majority.value)
    && (forall x :: !Beats(atts, vs, x, a.majority.value))
  }

  /** A hash that leads, and is the last to, is beaten by none; any other attested or unattested hash is beaten by it. */
  lemma MajorityBeats(atts: seq<Att>, vs: Validators, m: Hash, y: Hash)
    requires IsMajority(Votes(atts, vs), m)
    ensures !Beats(atts, vs, y, m) && Attested(atts, vs, m)
    ensures (y != m && PowerFor(atts, vs, m) > 0) || Attested(atts, vs, y) ==> (Beats(atts, vs, m, y) <==> y != m)
  {
    VotesExact(atts, vs, m);
    VotesExact(atts, vs, y);
  }

  /** If any power was counted, some attested hash has some. */
  lemma {:induction false} SomePower(atts: seq<Att>, vs: Validators) returns (x: Hash)
    requires Voted(atts, vs) > 0
    ensures Attested(atts, vs, x) && PowerFor(atts, vs, x) > 0
  {
    var n := |atts| - 1;
    if atts[n].key in vs && vs[atts[n].key] > 0 {
      x := atts[n].hash;
    } else {
      x := SomePower(atts[..n], vs);
      var i :| 0 <= i < n && atts[..n][i].key in vs && atts[..n][i].hash == x;
      assert atts[i].hash == x;
    }
  }

  /** Whom an alert tells it is in the minority, exactly: a node whose own hash is known and is not the one reported;
      that is, a node whose hash another one beats or, where no power at all counts, nobody attested. */
  lemma MinorityIff(threshold: real, height: nat, atts: seq<Att>, vs: Validators, ours: Option<Hash>)
    requires Judge(threshold, height, atts, vs, ours).Some?
    ensures var a := Judge(threshold, height, atts, vs, ours).value;
      && Reports(a, height, atts, vs, ours)
      && (a.minority <==> ours.Some? && a.majority != ours)
      && (Voted(atts, vs) > 0 || (ours.Some? && Attested(atts, vs, ours.value)) ==>
            (a.minority <==> ours.Some? && exists x :: Beats(atts, vs, x, ours.value)))
  {
    DivergesVotes(threshold, atts, vs);
    var m := Majority(Votes(atts, vs));
    forall x ensures !Beats(atts, vs, x, m) && Attested(atts, vs, m) { MajorityBeats(atts, vs, m, x); }
    forall x ensures (x in Votes(atts, vs) <==> Attested(atts, vs, x)) &&
      PowerFor(atts, vs, x) == if x in Votes(atts, vs) then Votes(atts, vs)[x] else 0 { VotesExact(atts, vs, x); }
    if ours.Some? {
      if Voted(atts, vs) > 0 { var x := SomePower(atts, vs); }
      MajorityBeats(atts, vs, m, ours.value);
    }
  }

  // ---- The check as code ----

  method CountVotes(atts: seq<Att>, vs: Validators) returns (votes: map<Hash, nat>, voted: nat)
    ensures votes == Votes(atts, vs) && voted == Voted(atts, vs)
  {
    votes, voted := map[], 0;
    for i := 0 to |atts|
      invariant votes == Votes(atts[..i], vs) && voted == Voted(atts[..i], vs)
    {
      assert atts[..i + 1][..i] == atts[..i];
      if atts[i].key in vs {
        var power := vs[atts[i].key];
        votes := Add(votes, atts[i].hash, power);
        voted := voted + power;
      }
    }
    assert atts[..|atts|] == atts;
  }

  method SumPower(vs: Validators) returns (total: nat)
    ensures total == TotalPower(vs)
  {
    total := 0;
    var rest := vs;
    while rest != map[]
      invariant total + TotalPower(rest) == TotalPower(vs)
      decreases |rest|
    {
      var k :| k in rest;
      SumSplit(Powers(rest), k);
      assert Powers(rest - {k}) == Powers(rest) - {k};
      assert (rest - {k}).Keys == rest.Keys - {k};
      total := total + rest[k];
      rest := rest - {k};
    }
    assert Powers(map[]) == map[];
  }

  lemma {:induction false} LeastExists(s: set<nat>) returns (x: nat)
    requires s != {}
    ensures x in s && forall y :: y in s ==> x <= y
    decreases |s|
  {
    var a :| a in s;
    var rest := s - {a};
    assert forall y :: y in s ==> y == a || y in rest;
    x := a;
    if rest != {} {
      var b := LeastExists(rest);
      if b < a { x := b; }
    }
  }

  /** Scan the tally in hash order and keep the last hash with the most power. */
  method FindMajority(votes: map<Hash, nat>) returns (m: Option<Hash>)
    ensures m == if votes == map[] then None else Some(Majority(votes))
  {
    m := None;
    var rest := votes.Keys;
    while rest != {}
      invariant rest <= votes.Keys
      invariant forall x, y :: x in votes && x !in rest && y in rest ==> x < y
      invariant m.None? <==> rest == votes.Keys
      invariant m.Some? ==> m.value in votes && m.value !in rest
      invariant m.Some? ==> forall x :: x in votes && x !in rest ==>
        votes[x] < votes[m.value] || (votes[x] == votes[m.value] && x <= m.value)
      decreases |rest|
    {
      var least := LeastExists(rest);
      var x :| x in rest && forall y :: y in rest ==> x <= y;
      if m.None? || votes[x] >= votes[m.value] {
        m := Some(x);
      }
      rest := rest - {x};
    }
    if m.Some? {
      MajorityUnique(votes, m.value);
    } else {
      assert votes.Keys == {};
    }
  }

  lemma ManyHashes(atts: seq<Att>, vs: Validators)
    ensures |Votes(atts, vs)| > 1 <==> exists x, y :: x != y && Attested(atts, vs, x) && Attested(atts, vs, y)
  {
    var keys := Votes(atts, vs).Keys;
    if |keys| > 1 {
      var x :| x in keys;
      assert |keys - {x}| > 0;
      var y :| y in keys - {x};
      VotesExact(atts, vs, x);
      VotesExact(atts, vs, y);
      assert x != y && Attested(atts, vs, x) && Attested(atts, vs, y);
    }
    if x: Hash, y: Hash :| x != y && Attested(atts, vs, x) && Attested(atts, vs, y) {
      VotesExact(atts, vs, x);
      VotesExact(atts, vs, y);
      SubsetSize({x, y}, keys);
      assert |{x, y}| == 2;
    }
  }

  method CheckDivergence(threshold: real, height: nat, atts: seq<Att>, vs: Validators, ours: Option<Hash>)
    returns (alert: Option<Alert>)
    ensures alert == Judge(threshold, height, atts, vs, ours)
  {
    var votes, voted := CountVotes(atts, vs);
    var total := SumPower(vs);
    if total == 0 {
      return None;
    }
    ManyHashes(atts, vs);
    if voted as real / total as real < threshold {
      return None;
    }
    var majority := FindMajority(votes);
    if |votes| <= 1 {
      return None;
    }
    assert votes != map[];
    var minority := ours.Some? && majority.Some? && ours.value != majority.value;
    alert := Some(Alert(height, if ours.Some? then ours.value else 0, majority, atts, minority, votes));
  }
}

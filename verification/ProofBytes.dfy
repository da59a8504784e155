/** The byte form of a Merkle proof: leaf, index, count, then one sibling and one direction byte per step. */
module ProofBytes {
  import opened Options
  import opened Bytes
  import opened Merkle

  function DirectionByte(d: Direction): Byte { match d case Left => 0 case Right => 1 }

  function StepBytes(s: Step): (r: seq<Byte>)
    ensures |r| == 33
  {
    Join(s.sibling, [DirectionByte(s.direction)])
  }

  function StepsBytes(steps: seq<Step>): (r: seq<Byte>)
    ensures |r| == 33 * |steps|
  {
    if steps == [] then [] else StepBytes(steps[0]) + StepsBytes(steps[1..])
  }

  function Header(p: Proof): (r: seq<Byte>)
    ensures |r| == 40
  {
    Join(p.leaf, ToLe(p.index, 4) + ToLe(|p.siblings|, 4))
  }

  function Encoded(p: Proof): seq<Byte> { Header(p) + StepsBytes(Steps(p)) }

  /** The step in the first 33 bytes, unless its direction byte is neither 0 nor 1. */
  function ReadStep(bs: seq<Byte>): Option<Step>
    requires |bs| >= 33
  {
    if bs[32] == 0 then Some(Step(bs[..32], Left))
    else if bs[32] == 1 then Some(Step(bs[..32], Right))
    else None
  }

  /** Read `n` steps, or nothing if the bytes run out or a direction is unknown. */
  function ReadSteps(n: nat, bs: seq<Byte>): (r: Option<seq<Step>>)
    ensures r.Some? ==> |r.value| == n
  {
    if n == 0 then Some([])
    else if |bs| < 33 then None
    else
      match ReadStep(bs)
      case None => None
      case Some(s) =>
        match ReadSteps(n - 1, bs[33..])
        case None => None
        case Some(rest) => Some([s] + rest)
  }

  function Unzipped(leaf: Digest, steps: seq<Step>, index: nat): (p: Proof)
    ensures |p.siblings| == |p.directions| == |steps|
  {
    Proof(leaf, seq<Digest>(|steps|, i requires 0 <= i < |steps| => steps[i].sibling),
          seq(|steps|, i requires 0 <= i < |steps| => steps[i].direction), index)
  }

  function Decoded(bs: seq<Byte>): Option<Proof> {
    if |bs| < 40 then None
    else
      match ReadSteps(FromLe(bs[36..40]), bs[40..])
      case None => None
      case Some(steps) => Some(Unzipped(bs[..32], steps, FromLe(bs[32..36])))
  }

  lemma StepBack(s: Step, rest: seq<Byte>)
    ensures var bs := StepBytes(s) + rest; ReadStep(bs) == Some(s) && bs[33..] == rest
  {
    assert (StepBytes(s) + rest)[..32] == s.sibling;
  }

  lemma {:induction false} StepsBack(steps: seq<Step>, rest: seq<Byte>)
    ensures ReadSteps(|steps|, StepsBytes(steps) + rest) == Some(steps)
  {
    if steps != [] {
      var more := StepsBytes(steps[1..]) + rest;
      StepsBack(steps[1..], rest);
      StepBack(steps[0], more);
      assert StepsBytes(steps) + rest == StepBytes(steps[0]) + more;
      assert steps == [steps[0]] + steps[1..];
    }
  }

  lemma {:induction false} ReadStepsPrefix(n: nat, bs: seq<Byte>)
    requires ReadSteps(n, bs).Some?
    ensures StepsBytes(ReadSteps(n, bs).value) <= bs
  {
    if n > 0 {
      ReadStepsPrefix(n - 1, bs[33..]);
      var s, rest := ReadStep(bs).value, ReadSteps(n - 1, bs[33..]).value;
      assert ([s] + rest)[1..] == rest;
      assert StepBytes(s) == bs[..33];
      assert bs == bs[..33] + bs[33..];
    }
  }

  /** The widths of the two counters. */
  predicate Narrow(p: Proof) { p.index < 0x1_0000_0000 && |p.siblings| < 0x1_0000_0000 }

  lemma HeaderParts(p: Proof, rest: seq<Byte>)
    ensures var bs := Header(p) + rest;
      && bs[..32] == p.leaf && bs[32..36] == ToLe(p.index, 4)
      && bs[36..40] == ToLe(|p.siblings|, 4) && bs[40..] == rest
  {
  }

  lemma UnzippedSteps(p: Proof)
    requires |p.siblings| == |p.directions|
    ensures Unzipped(p.leaf, Steps(p), p.index) == p
  {
    var q := Unzipped(p.leaf, Steps(p), p.index);
    assert q.siblings == p.siblings && q.directions == p.directions;
  }

  lemma StepsUnzipped(leaf: Digest, steps: seq<Step>, index: nat)
    ensures Steps(Unzipped(leaf, steps, index)) == steps
  {
  }

  /** Reading back what was written gives the same proof, whatever follows it, exactly when siblings and
      directions are equally many and the counters fit into 32 bits. */
  lemma EncodeDecodeIff(p: Proof, rest: seq<Byte>)
    ensures Decoded(Encoded(p) + rest) == Some(p) <==> |p.siblings| == |p.directions| && Narrow(p)
  {
    var bs := Encoded(p) + rest;
    assert bs == Header(p) + (StepsBytes(Steps(p)) + rest);
    HeaderParts(p, StepsBytes(Steps(p)) + rest);
    Width4();
    LeRoundTripIff(p.index, 4);
    LeRoundTripIff(|p.siblings|, 4);
    if |p.siblings| == |p.directions| && Narrow(p) {
      StepsBack(Steps(p), rest);
      UnzippedSteps(p);
    }
  }

  /** Whatever bytes are accepted, they begin with the encoding of the proof they give. */
  lemma DecodeEncode(bs: seq<Byte>)
    requires Decoded(bs).Some?
    ensures Encoded(Decoded(bs).value) <= bs
  {
    var n, index := FromLe(bs[36..40]), FromLe(bs[32..36]);
    var steps := ReadSteps(n, bs[40..]).value;
    var p := Decoded(bs).value;
    ReadStepsPrefix(n, bs[40..]);
    StepsUnzipped(bs[..32], steps, index);
    ToFromLe(bs[32..36]);
    ToFromLe(bs[36..40]);
    HeaderIs(bs, p);
    assert bs == bs[..40] + bs[40..];
  }

  lemma HeaderIs(bs: seq<Byte>, p: Proof)
    requires |bs| >= 40 && p.leaf == bs[..32]
    requires ToLe(p.index, 4) == bs[32..36] && ToLe(|p.siblings|, 4) == bs[36..40]
    ensures Header(p) == bs[..40]
  {
    assert bs[..40] == bs[..32] + (bs[32..36] + bs[36..40]);
  }

  // ---- The loops ----

  lemma {:induction false} StepsBytesMore(steps: seq<Step>, s: Step)
    ensures StepsBytes(steps + [s]) == StepsBytes(steps) + StepBytes(s)
  {
    if steps == [] {
      assert steps + [s] == [s] && [s][1..] == [];
    } else {
      StepsBytesMore(steps[1..], s);
      assert (steps + [s])[1..] == steps[1..] + [s];
      assert StepBytes(steps[0]) + (StepsBytes(steps[1..]) + StepBytes(s)) ==
             StepBytes(steps[0]) + StepsBytes(steps[1..]) + StepBytes(s);
    }
  }

  method ToBytes(p: Proof) returns (bytes: seq<Byte>)
    ensures bytes == Encoded(p)
  {
    bytes := p.leaf;
    bytes := bytes + ToLe(p.index, 4);
    bytes := bytes + ToLe(|p.siblings|, 4);
    assert bytes == Header(p);
    var i := 0;
    ghost var steps := Steps(p);
    while i < |p.siblings| && i < |p.directions|
      invariant 0 <= i <= |steps|
      invariant bytes == Header(p) + StepsBytes(steps[..i])
    {
      StepsBytesMore(steps[..i], steps[i]);
      assert steps[..i] + [steps[i]] == steps[..i + 1];
      bytes := bytes + p.siblings[i];
      bytes := bytes + [DirectionByte(p.directions[i])];
      assert bytes == Header(p) + (StepsBytes(steps[..i]) + StepBytes(steps[i]));
      i := i + 1;
    }
    assert steps[..i] == steps;
  }

  method FromBytes(bytes: seq<Byte>) returns (p: Option<Proof>)
    ensures p == Decoded(bytes)
  {
    if |bytes| < 40 {
      return None;
    }
    var count := FromLe(bytes[36..40]);
    var offset := 40;
    var siblings: seq<Digest> := [];
    var directions: seq<Direction> := [];
    ghost var steps: seq<Step> := [];
    ghost var all := ReadSteps(count, bytes[40..]);
    assert all.Some? ==> [] + all.value == all.value;
    for i := 0 to count
      invariant offset == 40 + 33 * i <= |bytes|
      invariant |steps| == i && Zipped(siblings, directions, steps)
      invariant all == Then(steps, ReadSteps(count - i, bytes[offset..]))
    {
      if offset + 33 > |bytes| {
        return None;
      }
      assert bytes[offset..][..32] == bytes[offset..offset + 32];
      assert bytes[offset..][33..] == bytes[offset + 33..];
      var sibling := bytes[offset..offset + 32];
      offset := offset + 32;
      var direction;
      match bytes[offset] {
        case 0 => direction := Left;
        case 1 => direction := Right;
        case _ => return None;
      }
      offset := offset + 1;
      siblings := siblings + [sibling];
      directions := directions + [direction];
      ThenThen(steps, Step(sibling, direction), ReadSteps(count - i - 1, bytes[offset..]));
      steps := steps + [Step(sibling, direction)];
    }
    assert steps + [] == steps;
    p := Some(Proof(bytes[..32], siblings, directions, FromLe(bytes[32..36])));
    assert siblings == Unzipped(bytes[..32], steps, 0).siblings;
    assert directions == Unzipped(bytes[..32], steps, 0).directions;
  }

  function Then(steps: seq<Step>, more: Option<seq<Step>>): Option<seq<Step>> {
    match more case None => None case Some(rest) => Some(steps + rest)
  }

  lemma ThenThen(steps: seq<Step>, s: Step, more: Option<seq<Step>>)
    ensures Then(steps, Then([s], more)) == Then(steps + [s], more)
  {
    if more.Some? { assert steps + ([s] + more.value) == steps + [s] + more.value; }
  }
}

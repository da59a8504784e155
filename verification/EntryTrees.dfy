/** Merkle trees whose leaves are hashes of entries. As long as no entry is 64 bytes long, an entry cannot be
    mistaken for a pair of nodes, and the length of a proof or of the leaf list no longer matters. */
module EntryTrees {
  import opened Bytes
  import opened Merkle

  function Leaves(h: Hasher, entries: seq<seq<Byte>>): (r: seq<Digest>)
    ensures |r| == |entries|
  {
    seq<Digest>(|entries|, i requires 0 <= i < |entries| => h(entries[i]))
  }

  /** No entry has the width of two digests. */
  ghost predicate NoPairs(entries: seq<seq<Byte>>) { forall i :: 0 <= i < |entries| ==> |entries[i]| != 64 }

  ghost function Members(entries: seq<seq<Byte>>): set<seq<Byte>> { set e | e in entries }

  /** Everything hashed to commit to the entries. */
  ghost function Hashed(h: Hasher, entries: seq<seq<Byte>>): set<seq<Byte>> {
    Members(entries) + if entries == [] then {[]} else TreeInputs(h, Leaves(h, entries))
  }

  /** Whatever a proof shorter than the tree is deep accepts is an inner node. */
  lemma {:induction false} ShortProof(h: Hasher, xs: seq<Digest>, x: Digest, steps: seq<Step>) returns (z: seq<Byte>)
    requires xs != [] && |steps| < Depth(|xs|) && Fold(h, x, steps) == Root(h, xs)
    requires InjectiveOn(h, TreeInputs(h, xs) + PathInputs(h, x, steps))
    ensures z in TreeInputs(h, xs) && |z| == 64 && x == h(z)
    decreases |xs|
  {
    if |xs| <= 2 {
      z := PairInput(xs, 0);
      PairIn(xs, 0);
    } else {
      var ys := NextLevel(h, xs);
      InjectiveOnPart(h, TreeInputs(h, xs) + PathInputs(h, x, steps), TreeInputs(h, ys) + PathInputs(h, x, steps));
      if |steps| < Depth(|ys|) {
        z := ShortProof(h, ys, x, steps);
      } else {
        Sound(h, ys, x, steps);
        var p := Position(|ys|, steps);
        z := PairInput(xs, p);
        PairIn(xs, p);
      }
    }
  }

  lemma {:induction false} FoldSplit(h: Hasher, x: Digest, steps: seq<Step>, k: nat)
    requires 0 < k <= |steps|
    ensures var y := Fold(h, x, steps[..k]);
      && Fold(h, y, steps[k..]) == Fold(h, x, steps)
      && PathInputs(h, y, steps[k..]) <= PathInputs(h, x, steps)
      && exists z :: z in PathInputs(h, x, steps) && |z| == 64 && y == h(z)
    decreases |steps|
  {
    var x' := h(StepInput(x, steps[0]));
    assert steps[..k][1..] == steps[1..][..k - 1];
    assert steps[k..] == steps[1..][k - 1..];
    if k > 1 {
      FoldSplit(h, x', steps[1..], k - 1);
    } else {
      assert steps[1..][..0] == [];
      assert Fold(h, x, steps[..1]) == x';
      assert StepInput(x, steps[0]) in PathInputs(h, x, steps);
    }
  }

  /** Whatever a proof longer than the tree is deep accepts stands below a leaf that is a pair of nodes. */
  lemma LongProof(h: Hasher, xs: seq<Digest>, x: Digest, steps: seq<Step>) returns (i: nat, z: seq<Byte>)
    requires xs != [] && |steps| > Depth(|xs|) && Fold(h, x, steps) == Root(h, xs)
    requires InjectiveOn(h, TreeInputs(h, xs) + PathInputs(h, x, steps))
    ensures i < |xs| && z in PathInputs(h, x, steps) && |z| == 64 && xs[i] == h(z)
  {
    var k := |steps| - Depth(|xs|);
    FoldSplit(h, x, steps, k);
    var y := Fold(h, x, steps[..k]);
    InjectiveOnPart(h, TreeInputs(h, xs) + PathInputs(h, x, steps), TreeInputs(h, xs) + PathInputs(h, y, steps[k..]));
    Sound(h, xs, y, steps[k..]);
    i := Position(|xs|, steps[k..]);
    z :| z in PathInputs(h, x, steps) && |z| == 64 && y == h(z);
  }

  lemma Distinct(h: Hasher, inputs: set<seq<Byte>>, x: seq<Byte>, y: seq<Byte>)
    requires InjectiveOn(h, inputs) && x in inputs && y in inputs && x != y
    ensures h(x) != h(y)
  {
  }

  /** Soundness for entries: an entry accepted by a proof of any length is one that was committed, and the
      proof is as long as the tree is deep. */
  lemma EntrySound(h: Hasher, entries: seq<seq<Byte>>, entry: seq<Byte>, steps: seq<Step>)
    requires NoPairs(entries) && |entry| != 64 && entries != []
    requires Fold(h, h(entry), steps) == Root(h, Leaves(h, entries))
    requires InjectiveOn(h, Hashed(h, entries) + PathInputs(h, h(entry), steps) + {entry})
    ensures |steps| == Depth(|entries|) && entry == entries[Position(|entries|, steps)]
  {
    var xs, x := Leaves(h, entries), h(entry);
    var inputs := Hashed(h, entries) + PathInputs(h, x, steps) + {entry};
    InjectiveOnPart(h, inputs, TreeInputs(h, xs) + PathInputs(h, x, steps));
    if |steps| < Depth(|xs|) {
      var z := ShortProof(h, xs, x, steps);
      Distinct(h, inputs, entry, z);
    } else if |steps| > Depth(|xs|) {
      var i, z := LongProof(h, xs, x, steps);
      MemberIn(h, entries, i);
      Distinct(h, inputs, entries[i], z);
    } else {
      Sound(h, xs, x, steps);
      MemberIn(h, entries, Position(|entries|, steps));
    }
  }

  lemma MemberIn(h: Hasher, entries: seq<seq<Byte>>, i: nat)
    requires i < |entries|
    ensures entries[i] in Members(entries)
  {
  }

  lemma {:induction false} PathInputsInTree(h: Hasher, xs: seq<Digest>, i: nat)
    requires i < |xs|
    ensures PathInputs(h, xs[i], Path(h, xs, i)) <= TreeInputs(h, xs)
    decreases |xs|
  {
    StepUp(h, xs, i);
    assert StepInput(xs[i], StepAt(xs, i)) == PairInput(xs, i / 2);
    PairIn(xs, i / 2);
    if |xs| <= 2 {
      assert Path(h, xs, i)[1..] == [];
    } else {
      PathInputsInTree(h, NextLevel(h, xs), i / 2);
      assert Path(h, xs, i)[1..] == Path(h, NextLevel(h, xs), i / 2);
    }
  }

  lemma CommittedInBoth(h: Hasher, a: seq<seq<Byte>>, b: seq<seq<Byte>>, i: nat)
    requires NoPairs(a) && NoPairs(b) && i < |a| && b != []
    requires Root(h, Leaves(h, a)) == Root(h, Leaves(h, b)) && InjectiveOn(h, Hashed(h, a) + Hashed(h, b))
    ensures a[i] in b
  {
    var xs := Leaves(h, a);
    Complete(h, xs, i);
    PathInputsInTree(h, xs, i);
    MemberIn(h, a, i);
    InjectiveOnPart(h, Hashed(h, a) + Hashed(h, b), Hashed(h, b) + PathInputs(h, xs[i], Path(h, xs, i)) + {a[i]});
    EntrySound(h, b, a[i], Path(h, xs, i));
  }

  /** The root of a non-empty list is the hash of a pair. */
  lemma {:induction false} RootIsPair(h: Hasher, xs: seq<Digest>) returns (z: seq<Byte>)
    requires xs != []
    ensures z in TreeInputs(h, xs) && |z| == 64 && Root(h, xs) == h(z)
    decreases |xs|
  {
    if |xs| <= 2 {
      z := PairInput(xs, 0);
      PairIn(xs, 0);
    } else {
      z := RootIsPair(h, NextLevel(h, xs));
    }
  }

  lemma EmptyRootDiffers(h: Hasher, a: seq<seq<Byte>>)
    requires a != [] && InjectiveOn(h, Hashed(h, a) + Hashed(h, []))
    ensures RootOf(h, Leaves(h, a)) != RootOf(h, Leaves(h, []))
  {
    var z := RootIsPair(h, Leaves(h, a));
    assert [] in Hashed(h, []);
    Distinct(h, Hashed(h, a) + Hashed(h, []), z, []);
  }

  /** Two entry lists with the same root have the same entries, whatever their lengths. */
  lemma EntryRootBinds(h: Hasher, a: seq<seq<Byte>>, b: seq<seq<Byte>>)
    requires NoPairs(a) && NoPairs(b)
    requires RootOf(h, Leaves(h, a)) == RootOf(h, Leaves(h, b)) && InjectiveOn(h, Hashed(h, a) + Hashed(h, b))
    ensures forall e :: e in a <==> e in b
  {
    assert Hashed(h, a) + Hashed(h, b) == Hashed(h, b) + Hashed(h, a);
    assert Leaves(h, []) == [];
    if a != [] && b == [] { EmptyRootDiffers(h, a); }
    if a == [] && b != [] { EmptyRootDiffers(h, b); }
    forall i | 0 <= i < |a| ensures a[i] in b { CommittedInBoth(h, a, b, i); }
    forall i | 0 <= i < |b| ensures b[i] in a { CommittedInBoth(h, b, a, i); }
  }
}

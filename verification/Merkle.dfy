/** Binary Merkle trees over 32-byte hashes: an odd level pairs its last node with itself, and a single leaf
    is hashed with itself. The hash is any function; where a result needs that it has no collisions, it needs
    so only of the byte strings actually hashed. */
module Merkle {
  import opened Options
  import opened Bytes

  type Digest = d: seq<Byte> | |d| == 32 witness seq(32, _ => 0)

  type Hasher = seq<Byte> -> Digest

  ghost predicate InjectiveOn(h: Hasher, inputs: set<seq<Byte>>) {
    forall x, y :: x in inputs && y in inputs && h(x) == h(y) ==> x == y
  }

  lemma InjectiveOnPart(h: Hasher, inputs: set<seq<Byte>>, part: set<seq<Byte>>)
    requires InjectiveOn(h, inputs) && part <= inputs
    ensures InjectiveOn(h, part)
  {
  }

  function Join(a: seq<Byte>, b: seq<Byte>): seq<Byte> { a + b }

  lemma JoinedApart(a: Digest, b: Digest, c: Digest, d: Digest)
    requires Join(a, b) == Join(c, d)
    ensures a == c && b == d
  {
    assert a == Join(a, b)[..32] && b == Join(a, b)[32..];
    assert c == Join(c, d)[..32] && d == Join(c, d)[32..];
  }

  // ---- Levels ----

  /** The right child of pair `i`: the left one again when a level is odd and this is its last pair. */
  function RightOf(n: nat, i: nat): (r: nat)
    requires 2 * i < n
    ensures r < n
  {
    if 2 * i + 1 < n then 2 * i + 1 else 2 * i
  }

  function PairInput(xs: seq<Digest>, i: nat): seq<Byte>
    requires 2 * i < |xs|
  {
    Join(xs[2 * i], xs[RightOf(|xs|, i)])
  }

  function NextLevel(h: Hasher, xs: seq<Digest>): (r: seq<Digest>)
    ensures |r| == (|xs| + 1) / 2
  {
    seq<Digest>((|xs| + 1) / 2, i requires 0 <= i < (|xs| + 1) / 2 => h(PairInput(xs, i)))
  }

  /** All levels, leaves first. */
  function Levels(h: Hasher, xs: seq<Digest>): (r: seq<seq<Digest>>)
    requires xs != []
    ensures |r| == Depth(|xs|) + 1 && r[0] == xs && |r[|r| - 1]| == 1
    decreases |xs|
  {
    if |xs| <= 2 then [xs, NextLevel(h, xs)] else [xs] + Levels(h, NextLevel(h, xs))
  }

  /** The number of levels above the leaves. */
  function Depth(n: nat): (d: nat)
    ensures d >= 1
    decreases n
  {
    if n <= 2 then 1 else 1 + Depth((n + 1) / 2)
  }

  function Root(h: Hasher, xs: seq<Digest>): Digest
    requires xs != []
    decreases |xs|
  {
    if |xs| <= 2 then NextLevel(h, xs)[0] else Root(h, NextLevel(h, xs))
  }

  /** The root of any leaf list; the empty one has the hash of nothing. */
  function RootOf(h: Hasher, xs: seq<Digest>): Digest { if xs == [] then h([]) else Root(h, xs) }

  lemma {:induction false} LastLevelIsRoot(h: Hasher, xs: seq<Digest>)
    requires xs != []
    ensures var ls := Levels(h, xs); ls[|ls| - 1] == [Root(h, xs)]
    decreases |xs|
  {
    if |xs| > 2 { LastLevelIsRoot(h, NextLevel(h, xs)); }
  }

  function Pow2(k: nat): (p: nat)
    ensures p > 0
  {
    if k == 0 then 1 else 2 * Pow2(k - 1)
  }

  lemma HalveCeil(n: nat, p: nat)
    requires p > 0
    ensures ((n + 1) / 2 + p - 1) / p == (n + 2 * p - 1) / (2 * p)
  {
    var q := (n + 2 * p - 1) / (2 * p);
    var m := (n + 1) / 2 + p - 1;
    assert 2 * p * q <= n + 2 * p - 1 < 2 * p * q + 2 * p;
    assert 2 * (p * q) == 2 * p * q;
    assert p * q <= m < p * q + p;
    assert p * q <= m < p * (q + 1);
    DivideBetween(m, p, q);
  }

  lemma NextMultiple(p: nat, a: nat, b: nat)
    ensures a < b ==> p * a + p <= p * b
  {
    if a < b { assert p * (a + 1) <= p * b; }
  }

  lemma DivideBetween(m: nat, p: nat, q: nat)
    requires p > 0 && p * q <= m < p * q + p
    ensures m / p == q
  {
    NextMultiple(p, m / p, q);
    NextMultiple(p, q, m / p);
  }

  /** Level `k` has the number of leaves over two to the `k`, rounded up. */
  lemma {:induction false} LevelSizes(h: Hasher, xs: seq<Digest>, k: nat)
    requires xs != [] && k <= Depth(|xs|)
    ensures |Levels(h, xs)[k]| == (|xs| + Pow2(k) - 1) / Pow2(k)
    decreases |xs|
  {
    if k > 0 {
      HalveCeil(|xs|, Pow2(k - 1));
      if |xs| > 2 {
        LevelSizes(h, NextLevel(h, xs), k - 1);
      } else {
        assert k == 1 && Pow2(0) == 1;
      }
    }
  }

  /** The depth is the number of doublings that reach the number of leaves, but never less than one. */
  lemma {:induction false} DepthIsLog(n: nat)
    requires n >= 1
    ensures n <= Pow2(Depth(n)) && (n > 1 ==> Pow2(Depth(n) - 1) < n)
    decreases n
  {
    if n > 2 { DepthIsLog((n + 1) / 2); }
  }

  // ---- Proofs ----

  datatype Direction = Left | Right

  /** One step up: the sibling and the side it stands on. */
  datatype Step = Step(sibling: Digest, direction: Direction)

  datatype Proof = Proof(leaf: Digest, siblings: seq<Digest>, directions: seq<Direction>, index: nat)

  /** The steps that are used: siblings and directions in pairs, as far as both go. */
  function Steps(p: Proof): (r: seq<Step>)
    ensures |r| == if |p.siblings| <= |p.directions| then |p.siblings| else |p.directions|
  {
    var n := if |p.siblings| <= |p.directions| then |p.siblings| else |p.directions|;
    seq(n, i requires 0 <= i < n => Step(p.siblings[i], p.directions[i]))
  }

  function StepInput(x: Digest, s: Step): seq<Byte> {
    match s.direction case Left => Join(s.sibling, x) case Right => Join(x, s.sibling)
  }

  function Fold(h: Hasher, x: Digest, steps: seq<Step>): Digest
    decreases |steps|
  {
    if steps == [] then x else Fold(h, h(StepInput(x, steps[0])), steps[1..])
  }

  predicate Verifies(h: Hasher, p: Proof, root: Digest) { Fold(h, p.leaf, Steps(p)) == root }

  function SiblingIndex(n: nat, i: nat): (j: nat)
    requires i < n
    ensures j < n
  {
    if i % 2 == 1 then i - 1 else if i + 1 >= n then i else i + 1
  }

  function StepAt(xs: seq<Digest>, i: nat): Step
    requires i < |xs|
  {
    Step(xs[SiblingIndex(|xs|, i)], if i % 2 == 1 then Left else Right)
  }

  /** The steps from leaf `i` to the root. */
  function Path(h: Hasher, xs: seq<Digest>, i: nat): (r: seq<Step>)
    requires i < |xs|
    ensures |r| == Depth(|xs|)
    decreases |xs|
  {
    [StepAt(xs, i)] + if |xs| <= 2 then [] else Path(h, NextLevel(h, xs), i / 2)
  }

  lemma StepUp(h: Hasher, xs: seq<Digest>, i: nat)
    requires i < |xs|
    ensures h(StepInput(xs[i], StepAt(xs, i))) == NextLevel(h, xs)[i / 2]
  {
    assert StepInput(xs[i], StepAt(xs, i)) == PairInput(xs, i / 2);
  }

  /** Completeness: from every leaf, its path leads to the root. */
  lemma {:induction false} Complete(h: Hasher, xs: seq<Digest>, i: nat)
    requires i < |xs|
    ensures Fold(h, xs[i], Path(h, xs, i)) == Root(h, xs)
    decreases |xs|
  {
    StepUp(h, xs, i);
    if |xs| <= 2 {
      assert Path(h, xs, i)[1..] == [];
    } else {
      Complete(h, NextLevel(h, xs), i / 2);
      assert Path(h, xs, i)[1..] == Path(h, NextLevel(h, xs), i / 2);
    }
  }

  // ---- Soundness ----

  ghost function PairInputs(xs: seq<Digest>): set<seq<Byte>> {
    set i | 0 <= i < (|xs| + 1) / 2 :: PairInput(xs, i)
  }

  /** Everything hashed when the tree is built. */
  ghost function TreeInputs(h: Hasher, xs: seq<Digest>): set<seq<Byte>>
    decreases |xs|
  {
    PairInputs(xs) + if |xs| <= 2 then {} else TreeInputs(h, NextLevel(h, xs))
  }

  /** Everything hashed when a proof is folded. */
  ghost function PathInputs(h: Hasher, x: Digest, steps: seq<Step>): set<seq<Byte>>
    decreases |steps|
  {
    if steps == [] then {} else {StepInput(x, steps[0])} + PathInputs(h, h(StepInput(x, steps[0])), steps[1..])
  }

  /** The child that a direction leads to: the second one of pair `p`, if there is one, when the sibling is on
      the left. */
  function Child(n: nat, p: nat, d: Direction): (i: nat)
    requires 2 * p < n
    ensures i < n && i / 2 == p
  {
    match d case Left => RightOf(n, p) case Right => 2 * p
  }

  /** The leaf that the directions of a proof lead to, in a tree of `n` leaves. */
  function Position(n: nat, steps: seq<Step>): (i: nat)
    requires n >= 1 && |steps| == Depth(n)
    ensures i < n
    decreases n
  {
    Child(n, if n <= 2 then 0 else Position((n + 1) / 2, steps[1..]), steps[0].direction)
  }

  lemma PairIn(xs: seq<Digest>, i: nat)
    requires 2 * i < |xs|
    ensures PairInput(xs, i) in PairInputs(xs)
  {
  }

  lemma SoundStep(h: Hasher, xs: seq<Digest>, x: Digest, s: Step, p: nat, inputs: set<seq<Byte>>)
    requires 2 * p < |xs| && InjectiveOn(h, inputs) && StepInput(x, s) in inputs && PairInputs(xs) <= inputs
    requires h(StepInput(x, s)) == NextLevel(h, xs)[p]
    ensures x == xs[Child(|xs|, p, s.direction)]
  {
    PairIn(xs, p);
    assert StepInput(x, s) == PairInput(xs, p);
    match s.direction {
      case Left => JoinedApart(s.sibling, x, xs[2 * p], xs[RightOf(|xs|, p)]);
      case Right => JoinedApart(x, s.sibling, xs[2 * p], xs[RightOf(|xs|, p)]);
    }
  }

  /** Soundness: if a proof as long as the tree is deep leads to the root, and nothing hashed by tree or proof
      collides, then its leaf hash is the leaf its directions lead to. */
  lemma {:induction false} Sound(h: Hasher, xs: seq<Digest>, x: Digest, steps: seq<Step>)
    requires xs != [] && |steps| == Depth(|xs|) && Fold(h, x, steps) == Root(h, xs)
    requires InjectiveOn(h, TreeInputs(h, xs) + PathInputs(h, x, steps))
    ensures x == xs[Position(|xs|, steps)]
    decreases |xs|
  {
    var y := h(StepInput(x, steps[0]));
    var inputs := TreeInputs(h, xs) + PathInputs(h, x, steps);
    if |xs| <= 2 {
      assert steps[1..] == [];
      SoundStep(h, xs, x, steps[0], 0, inputs);
    } else {
      var ys := NextLevel(h, xs);
      assert TreeInputs(h, ys) + PathInputs(h, y, steps[1..]) <= inputs;
      Sound(h, ys, y, steps[1..]);
      SoundStep(h, xs, x, steps[0], Position(|ys|, steps[1..]), inputs);
    }
  }

  /** Two leaf lists of the same length with the same root are equal, if nothing hashed for them collides. */
  lemma {:induction false} RootBinds(h: Hasher, xs: seq<Digest>, ys: seq<Digest>)
    requires |xs| == |ys| && xs != [] && Root(h, xs) == Root(h, ys)
    requires InjectiveOn(h, TreeInputs(h, xs) + TreeInputs(h, ys))
    ensures xs == ys
    decreases |xs|
  {
    var inputs := TreeInputs(h, xs) + TreeInputs(h, ys);
    if |xs| > 2 {
      var xs', ys' := NextLevel(h, xs), NextLevel(h, ys);
      InjectiveOnPart(h, inputs, TreeInputs(h, xs') + TreeInputs(h, ys'));
      RootBinds(h, xs', ys');
    }
    LevelBinds(h, xs, ys, inputs);
  }

  lemma LevelBinds(h: Hasher, xs: seq<Digest>, ys: seq<Digest>, inputs: set<seq<Byte>>)
    requires |xs| == |ys| && InjectiveOn(h, inputs)
    requires PairInputs(xs) <= inputs && PairInputs(ys) <= inputs
    requires forall p :: 0 <= p < |NextLevel(h, xs)| ==> NextLevel(h, xs)[p] == NextLevel(h, ys)[p]
    ensures xs == ys
  {
    forall i | 0 <= i < |xs| ensures xs[i] == ys[i] {
      SamePair(h, xs, ys, i / 2, inputs);
    }
  }

  lemma SamePair(h: Hasher, xs: seq<Digest>, ys: seq<Digest>, p: nat, inputs: set<seq<Byte>>)
    requires |xs| == |ys| && 2 * p < |xs| && InjectiveOn(h, inputs)
    requires PairInputs(xs) <= inputs && PairInputs(ys) <= inputs
    requires NextLevel(h, xs)[p] == NextLevel(h, ys)[p]
    ensures xs[2 * p] == ys[2 * p] && xs[RightOf(|xs|, p)] == ys[RightOf(|xs|, p)]
  {
    PairIn(xs, p);
    PairIn(ys, p);
    var r := RightOf(|xs|, p);
    assert h(PairInput(xs, p)) == h(PairInput(ys, p));
    JoinedApart(xs[2 * p], xs[r], ys[2 * p], ys[r]);
  }

  // ---- What the length conditions are for ----

  /** Whatever the hash, an odd list and the same list with its last leaf repeated have one root: the equal
      length in `RootBinds` is needed. */
  lemma RepeatedLastLeaf(h: Hasher, xs: seq<Digest>)
    requires |xs| % 2 == 1
    ensures Root(h, xs + [xs[|xs| - 1]]) == Root(h, xs)
  {
    var ys := xs + [xs[|xs| - 1]];
    var k := |xs| / 2;
    assert |xs| == 2 * k + 1 && |ys| == 2 * k + 2;
    forall i | 0 <= i < k + 1 ensures PairInput(ys, i) == PairInput(xs, i) {
      RepeatedPair(xs, i);
    }
    SameLevel(h, xs, ys, k + 1);
  }

  lemma RepeatedPair(xs: seq<Digest>, i: nat)
    requires |xs| % 2 == 1 && 2 * i < |xs|
    ensures PairInput(xs + [xs[|xs| - 1]], i) == PairInput(xs, i)
  {
    var ys := xs + [xs[|xs| - 1]];
    assert ys[2 * i] == xs[2 * i] && ys[RightOf(|ys|, i)] == xs[RightOf(|xs|, i)];
  }

  lemma SameLevel(h: Hasher, xs: seq<Digest>, ys: seq<Digest>, n: nat)
    requires xs != [] && ys != [] && (|xs| + 1) / 2 == n == (|ys| + 1) / 2
    requires forall i :: 0 <= i < n ==> PairInput(ys, i) == PairInput(xs, i)
    ensures Root(h, ys) == Root(h, xs)
  {
    assert NextLevel(h, ys) == NextLevel(h, xs);
  }

  /** Whatever the hash, an inner node is accepted as a leaf by a proof that is one step shorter for every
      level it stands above the leaves: the proof length in `Sound` is needed. */
  lemma {:induction false} InnerNodeAccepted(h: Hasher, xs: seq<Digest>, k: nat, i: nat)
    requires xs != [] && k <= Depth(|xs|) && i < |Levels(h, xs)[k]|
    ensures exists steps: seq<Step> ::
      |steps| == Depth(|xs|) - k && Fold(h, Levels(h, xs)[k][i], steps) == Root(h, xs)
    decreases |xs|
  {
    if k == 0 {
      Complete(h, xs, i);
    } else if |xs| <= 2 {
      var none: seq<Step> := [];
      assert |none| == Depth(|xs|) - k && Fold(h, Levels(h, xs)[k][i], none) == Root(h, xs);
    } else {
      InnerNodeAccepted(h, NextLevel(h, xs), k - 1, i);
    }
  }

  // ---- The loops ----

  datatype Tree = Tree(levels: seq<seq<Digest>>)

  /** One level of the tree. */
  method BuildLevel(h: Hasher, current: seq<Digest>) returns (next: seq<Digest>)
    ensures next == NextLevel(h, current)
  {
    next := [];
    var i := 0;
    while i < |current|
      invariant i % 2 == 0 && 0 <= i <= |current| + 1
      invariant |next| == i / 2
      invariant next == NextLevel(h, current)[..|next|]
      decreases |current| - i
    {
      var left := current[i];
      var right := if i + 1 < |current| then current[i + 1] else left;
      assert Join(left, right) == PairInput(current, i / 2);
      next := next + [h(Join(left, right))];
      i := i + 2;
    }
  }

  /** Build level on level until one node is left; even a single leaf is hashed once. */
  method FromLeaves(h: Hasher, leaves: seq<Digest>) returns (t: Tree)
    ensures leaves == [] ==> t == Tree([[], [h([])]])
    ensures leaves != [] ==> t == Tree(Levels(h, leaves))
  {
    if leaves == [] {
      return Tree([[], [h([])]]);
    }
    var levels := [leaves];
    ghost var below: seq<seq<Digest>> := [];
    while true
      invariant levels != [] && levels[|levels| - 1] != []
      invariant levels == below + [levels[|levels| - 1]]
      invariant below + Levels(h, levels[|levels| - 1]) == Levels(h, leaves)
      invariant |levels| > 1 ==> |levels[|levels| - 1]| > 1
      decreases |levels[|levels| - 1]|
    {
      var current := levels[|levels| - 1];
      var next := BuildLevel(h, current);
      LevelsStep(h, below, current);
      below := levels;
      levels := levels + [next];
      if |next| == 1 {
        break;
      }
    }
    t := Tree(levels);
  }

  lemma LevelsStep(h: Hasher, below: seq<seq<Digest>>, current: seq<Digest>)
    requires current != []
    ensures var next := NextLevel(h, current);
      below + Levels(h, current) == (below + [current]) + if |next| == 1 then [next] else Levels(h, next)
  {
    var next := NextLevel(h, current);
    if |next| == 1 {
      assert Levels(h, current) == [current] + [next];
    } else {
      assert Levels(h, current) == [current] + Levels(h, next);
    }
  }

  /** The root stored in the last level. */
  function TreeRoot(h: Hasher, t: Tree): Digest {
    if t.levels == [] || t.levels[|t.levels| - 1] == [] then h([]) else t.levels[|t.levels| - 1][0]
  }

  lemma TreeRootIsRoot(h: Hasher, xs: seq<Digest>)
    requires xs != []
    ensures TreeRoot(h, Tree(Levels(h, xs))) == Root(h, xs)
  {
    LastLevelIsRoot(h, xs);
  }

  method ComputeRoot(h: Hasher, p: Proof) returns (root: Digest)
    ensures root == Fold(h, p.leaf, Steps(p))
  {
    var steps := Steps(p);
    root := p.leaf;
    var i := 0;
    assert steps[0..] == steps;
    while i < |p.siblings| && i < |p.directions|
      invariant 0 <= i <= |steps|
      invariant Fold(h, root, steps[i..]) == Fold(h, p.leaf, steps)
    {
      assert steps[i..][1..] == steps[i + 1..];
      match p.directions[i] {
        case Left => root := h(Join(p.siblings[i], root));
        case Right => root := h(Join(root, p.siblings[i]));
      }
      i := i + 1;
    }
  }

  /** The index of leaf `i`'s ancestor in level `k`. */
  function Ancestor(i: nat, k: nat): nat { if k == 0 then i else Ancestor(i, k - 1) / 2 }

  lemma {:induction false} AncestorHalf(i: nat, k: nat)
    ensures Ancestor(i / 2, k) == Ancestor(i, k + 1)
  {
    if k > 0 { AncestorHalf(i, k - 1); }
  }

  /** Step `k` of a path reads level `k` at the ancestor of the leaf. */
  lemma {:induction false} PathAt(h: Hasher, xs: seq<Digest>, i: nat, k: nat)
    requires i < |xs| && k < Depth(|xs|)
    ensures var level := Levels(h, xs)[k];
      Ancestor(i, k) < |level| && Path(h, xs, i)[k] == StepAt(level, Ancestor(i, k))
    decreases |xs|
  {
    if k > 0 {
      var up := NextLevel(h, xs);
      PathAt(h, up, i / 2, k - 1);
      AncestorHalf(i, k - 1);
      assert Levels(h, xs)[k] == Levels(h, up)[k - 1];
      assert Path(h, xs, i)[k] == Path(h, up, i / 2)[k - 1];
    }
  }

  ghost predicate Zipped(siblings: seq<Digest>, directions: seq<Direction>, steps: seq<Step>) {
    && |siblings| == |directions| == |steps|
    && forall k :: 0 <= k < |steps| ==> Step(siblings[k], directions[k]) == steps[k]
  }

  lemma ZippedMore(siblings: seq<Digest>, directions: seq<Direction>, steps: seq<Step>, k: nat, x: Digest, d: Direction)
    requires k < |steps| && Zipped(siblings, directions, steps[..k]) && steps[k] == Step(x, d)
    ensures Zipped(siblings + [x], directions + [d], steps[..k + 1])
  {
    assert steps[..k + 1] == steps[..k] + [Step(x, d)];
  }

  /** The neighbour of a node in its level, and the side it is on; the node itself if it has none. */
  method SiblingOf(current: seq<Digest>, index: nat) returns (x: Digest, d: Direction)
    requires index < |current|
    ensures Step(x, d) == StepAt(current, index)
  {
    var isRight := index % 2 == 1;
    var siblingIndex := if isRight then index - 1 else if index + 1 >= |current| then index else index + 1;
    x, d := current[siblingIndex], if isRight then Left else Right;
  }

  /** A proof for every leaf there is, and for no other index. It verifies against the root. */
  method Prove(h: Hasher, ghost leaves: seq<Digest>, t: Tree, leafIndex: nat) returns (p: Option<Proof>)
    requires t == Tree(if leaves == [] then [[], [h([])]] else Levels(h, leaves))
    ensures p.Some? <==> leafIndex < |leaves|
    ensures p.Some? ==>
      && p.value.leaf == leaves[leafIndex] && p.value.index == leafIndex
      && |p.value.siblings| == |p.value.directions| == Depth(|leaves|)
      && Steps(p.value) == Path(h, leaves, leafIndex)
      && Verifies(h, p.value, TreeRoot(h, t))
  {
    if t.levels == [] || leafIndex >= |t.levels[0]| {
      return None;
    }
    var siblings, directions := Climb(h, leaves, t.levels, leafIndex);
    p := Some(Proof(t.levels[0][leafIndex], siblings, directions, leafIndex));
    PathVerifies(h, leaves, leafIndex, p.value);
  }

  /** The neighbours on the way up, level by level. */
  method Climb(h: Hasher, ghost leaves: seq<Digest>, levels: seq<seq<Digest>>, leafIndex: nat)
    returns (siblings: seq<Digest>, directions: seq<Direction>)
    requires leafIndex < |leaves| && levels == Levels(h, leaves)
    ensures Zipped(siblings, directions, Path(h, leaves, leafIndex))
  {
    siblings, directions := [], [];
    var index := leafIndex;
    ghost var path := Path(h, leaves, leafIndex);
    for level := 0 to |levels| - 1
      invariant index == Ancestor(leafIndex, level) && Zipped(siblings, directions, path[..level])
    {
      PathAt(h, leaves, leafIndex, level);
      var sibling, direction := SiblingOf(levels[level], index);
      ZippedMore(siblings, directions, path, level, sibling, direction);
      siblings, directions := siblings + [sibling], directions + [direction];
      index := index / 2;
    }
    assert path[..|path|] == path;
  }

  lemma PathVerifies(h: Hasher, leaves: seq<Digest>, i: nat, p: Proof)
    requires i < |leaves| && p.leaf == leaves[i] && Zipped(p.siblings, p.directions, Path(h, leaves, i))
    ensures Steps(p) == Path(h, leaves, i) && Verifies(h, p, TreeRoot(h, Tree(Levels(h, leaves))))
  {
    assert Steps(p) == Path(h, leaves, i);
    Complete(h, leaves, i);
    TreeRootIsRoot(h, leaves);
  }
}

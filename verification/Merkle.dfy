/** Merkle trees over record hashes: the level-by-level builder, its inclusion
    proofs and their verifier. SHA-256 is an arbitrary function `h`; soundness
    says "the claim holds, or two of the inputs actually hashed collide". */
module Merkle {
  import opened Text
  import Lists

  type Hash = seq<byte> -> Digest

  function LeafInput(value: seq<byte>): seq<byte> {
    [0] + value
  }

  function NodeInput(left: Digest, right: Digest): seq<byte> {
    [1] + left + right
  }

  function LeafHash(h: Hash, value: seq<byte>): Digest {
    h(LeafInput(value))
  }

  function NodeHash(h: Hash, left: Digest, right: Digest): Digest {
    h(NodeInput(left, right))
  }

  datatype Position = Left | Right

  datatype ProofStep = ProofStep(position: Position, hash: Digest)

  datatype InclusionProof = InclusionProof(leafIndex: nat, totalLeaves: nat, steps: seq<ProofStep>)

  // ----- specification -----

  /** The parent of the pair at `j`; an odd last node is paired with itself. */
  function Parent(h: Hash, level: seq<Digest>, j: nat): Digest
    requires 2 * j < |level|
  {
    NodeHash(h, level[2 * j], if 2 * j + 1 < |level| then level[2 * j + 1] else level[2 * j])
  }

  function NextLevel(h: Hash, level: seq<Digest>): (next: seq<Digest>)
    ensures |next| == (|level| + 1) / 2
  {
    seq((|level| + 1) / 2, j requires 0 <= j < (|level| + 1) / 2 => Parent(h, level, j))
  }

  function Levels(h: Hash, leaves: seq<Digest>): (levels: seq<seq<Digest>>)
    requires leaves != []
    ensures levels != [] && levels[0] == leaves && |levels[|levels| - 1]| == 1
    decreases |leaves|
  {
    if |leaves| == 1 then [leaves] else [leaves] + Levels(h, NextLevel(h, leaves))
  }

  ghost predicate IsChain(h: Hash, levels: seq<seq<Digest>>) {
    forall k :: 0 <= k < |levels| - 1 ==> |levels[k]| > 1 && levels[k + 1] == NextLevel(h, levels[k])
  }

  lemma {:induction false} LevelsChain(h: Hash, leaves: seq<Digest>)
    requires leaves != []
    ensures IsChain(h, Levels(h, leaves))
    decreases |leaves|
  {
    if |leaves| > 1 {
      LevelsChain(h, NextLevel(h, leaves));
    }
  }

  function SiblingStep(level: seq<Digest>, index: nat): ProofStep
    requires index < |level|
  {
    var sibling := if index % 2 == 0 then index + 1 else index - 1;
    ProofStep(if index % 2 == 0 then Right else Left, if sibling < |level| then level[sibling] else level[index])
  }

  function ApplyStep(h: Hash, cur: Digest, step: ProofStep): Digest {
    match step.position
    case Left => NodeHash(h, step.hash, cur)
    case Right => NodeHash(h, cur, step.hash)
  }

  function Fold(h: Hash, cur: Digest, steps: seq<ProofStep>): Digest {
    if steps == [] then cur
    else ApplyStep(h, Fold(h, cur, steps[..|steps| - 1]), steps[|steps| - 1])
  }

  /** The path from leaf `index` up, over the levels of a tree with these leaves. */
  function PathOf(h: Hash, leaves: seq<Digest>, index: nat): seq<ProofStep>
    requires index < |leaves|
    decreases |leaves|
  {
    if |leaves| == 1 then []
    else [SiblingStep(leaves, index)] + PathOf(h, NextLevel(h, leaves), index / 2)
  }

  lemma PathStep(h: Hash, leaves: seq<Digest>, index: nat)
    requires index < |leaves| && |leaves| > 1
    ensures index / 2 < |NextLevel(h, leaves)|
    ensures PathOf(h, leaves, index) == [SiblingStep(leaves, index)] + PathOf(h, NextLevel(h, leaves), index / 2)
  {
  }

  lemma SiblingIs(level: seq<Digest>, index: nat)
    requires index < |level|
    ensures var sibling := if index % 2 == 0 then index + 1 else index - 1;
            SiblingStep(level, index)
            == ProofStep(if index % 2 == 0 then Right else Left,
                         if sibling < |level| then level[sibling] else level[index])
  {
  }

  lemma PathEnds(h: Hash, leaves: seq<Digest>, index: nat)
    requires index < |leaves| == 1
    ensures PathOf(h, leaves, index) == []
  {
  }

  // ----- the implementation -----

  datatype MerkleTree = MerkleTree(levels: seq<seq<Digest>>) {
    predicate Valid() {
      levels != [] && forall i :: 0 <= i < |levels| ==> levels[i] != []
    }

    function Root(): Digest
      requires Valid()
    {
      levels[|levels| - 1][0]
    }

    /** The inner loop of the builder: one level from the one below. */
    static method BuildLevel(h: Hash, prev: seq<Digest>) returns (next: seq<Digest>)
      ensures next == NextLevel(h, prev)
    {
      next := [];
      var i := 0;
      while i < |prev|
        invariant i % 2 == 0 && 2 * |next| == i <= |prev| + 1
        invariant forall j :: 0 <= j < |next| ==> next[j] == Parent(h, prev, j)
      {
        var left := prev[i];
        var right := if i + 1 < |prev| then prev[i + 1] else left;
        next := next + [NodeHash(h, left, right)];
        i := i + 2;
      }
    }

    static method FromHashedLeaves(h: Hash, hashedLeaves: seq<Digest>) returns (tree: MerkleTree)
      ensures tree.levels == if hashedLeaves == [] then [[ZERO_DIGEST]] else Levels(h, hashedLeaves)
      ensures tree.Valid()
    {
      if hashedLeaves == [] {
        return MerkleTree([[ZERO_DIGEST]]);
      }
      var levels: seq<seq<Digest>> := [hashedLeaves];
      ghost var below: seq<seq<Digest>> := [];
      while |levels[|levels| - 1]| > 1
        invariant levels != [] && levels == below + [levels[|levels| - 1]]
        invariant forall i :: 0 <= i < |levels| ==> levels[i] != []
        invariant Levels(h, hashedLeaves) == below + Levels(h, levels[|levels| - 1])
        decreases |levels[|levels| - 1]|
      {
        var prev := levels[|levels| - 1];
        var next := BuildLevel(h, prev);
        below := levels;
        levels := levels + [next];
      }
      tree := MerkleTree(levels);
    }

    static method FromLeaves(h: Hash, leaves: seq<seq<byte>>) returns (tree: MerkleTree)
      ensures tree.Valid()
      ensures leaves != [] ==> tree.levels == Levels(h, LeafHashes(h, leaves))
    {
      var level0 := LeafHashes(h, leaves);
      tree := FromHashedLeaves(h, level0);
    }

    method InclusionProofFor(h: Hash, index: nat) returns (proof: InclusionProof)
      requires Valid() && levels == Levels(h, levels[0]) && index < |levels[0]|
      ensures proof == InclusionProof(index, |levels[0]|, PathOf(h, levels[0], index))
    {
      var total := |levels[0]|;
      var steps: seq<ProofStep> := [];
      var idx: nat := index;
      LevelsChain(h, levels[0]);
      hide Levels, NextLevel, PathOf, SiblingStep;
      for level := 0 to |levels| - 1
        invariant idx < |levels[level]|
        invariant PathOf(h, levels[0], index) == steps + PathOf(h, levels[level], idx)
      {
        var cur := levels[level];
        var siblingIdx := if idx % 2 == 0 then idx + 1 else idx - 1;
        var sibling := if siblingIdx < |cur| then cur[siblingIdx] else cur[idx];
        var position := if idx % 2 == 0 then Right else Left;
        PathStep(h, cur, idx);
        assert SiblingStep(cur, idx) == ProofStep(position, sibling) by { SiblingIs(cur, idx); }
        Lists.ConcatAssociates(steps, [SiblingStep(cur, idx)], PathOf(h, NextLevel(h, cur), idx / 2));
        steps := steps + [ProofStep(position, sibling)];
        idx := idx / 2;
      }
      PathEnds(h, levels[|levels| - 1], idx);
      proof := InclusionProof(index, total, steps);
    }
  }

  function LeafHashes(h: Hash, leaves: seq<seq<byte>>): (hashes: seq<Digest>)
    ensures |hashes| == |leaves|
  {
    seq(|leaves|, i requires 0 <= i < |leaves| => LeafHash(h, leaves[i]))
  }

  method VerifyInclusion(h: Hash, root: Digest, leaf: seq<byte>, proof: InclusionProof) returns (ok: bool)
    ensures ok == (Fold(h, LeafHash(h, leaf), proof.steps) == root)
  {
    var cur := LeafHash(h, leaf);
    for i := 0 to |proof.steps|
      invariant cur == Fold(h, LeafHash(h, leaf), proof.steps[..i])
    {
      assert proof.steps[..i + 1][..i] == proof.steps[..i];
      cur := ApplyStep(h, cur, proof.steps[i]);
    }
    assert proof.steps[..|proof.steps|] == proof.steps;
    ok := cur == root;
  }

  // ----- completeness and exact cost -----

  function RootOf(h: Hash, leaves: seq<Digest>): Digest
    requires leaves != []
  {
    Levels(h, leaves)[|Levels(h, leaves)| - 1][0]
  }

  lemma {:induction false} FoldFirst(h: Hash, cur: Digest, step: ProofStep, steps: seq<ProofStep>)
    ensures Fold(h, cur, [step] + steps) == Fold(h, ApplyStep(h, cur, step), steps)
  {
    var all := [step] + steps;
    if steps == [] {
      assert all[..0] == [];
    } else {
      assert all[..|all| - 1] == [step] + steps[..|steps| - 1];
      FoldFirst(h, cur, step, steps[..|steps| - 1]);
    }
  }

  /** Every leaf's own proof verifies, odd levels included. */
  lemma {:induction false} Completeness(h: Hash, leaves: seq<Digest>, index: nat)
    requires index < |leaves|
    ensures Fold(h, leaves[index], PathOf(h, leaves, index)) == RootOf(h, leaves)
    decreases |leaves|
  {
    if |leaves| > 1 {
      var next := NextLevel(h, leaves);
      PathStep(h, leaves, index);
      OneStepUp(h, leaves, index);
      RootUp(h, leaves);
      hide NextLevel, PathOf, Fold, RootOf, ApplyStep, SiblingStep;
      FoldFirst(h, leaves[index], SiblingStep(leaves, index), PathOf(h, next, index / 2));
      Completeness(h, next, index / 2);
    }
  }

  /** A node and its sibling give their parent. */
  lemma OneStepUp(h: Hash, leaves: seq<Digest>, index: nat)
    requires index < |leaves| && |leaves| > 1
    ensures ApplyStep(h, leaves[index], SiblingStep(leaves, index)) == NextLevel(h, leaves)[index / 2]
  {
    hide NodeHash;
  }

  function Pow2(k: nat): (p: nat)
    ensures p > 0
  {
    if k == 0 then 1 else 2 * Pow2(k - 1)
  }

  /** A proof has exactly the least `k` with `2^k >= n` steps. */
  lemma {:induction false} ProofLength(h: Hash, leaves: seq<Digest>, index: nat)
    requires index < |leaves|
    ensures var k := |PathOf(h, leaves, index)|;
            Pow2(k) >= |leaves| && (k > 0 ==> Pow2(k - 1) < |leaves|)
    decreases |leaves|
  {
    if |leaves| > 1 {
      ProofLength(h, NextLevel(h, leaves), index / 2);
    }
  }

  // ----- soundness -----

  /** Two different inputs among `inputs` have the same hash. */
  ghost predicate CollisionAmong(h: Hash, inputs: set<seq<byte>>) {
    exists x, y :: x in inputs && y in inputs && x != y && h(x) == h(y)
  }

  function PairInput(level: seq<Digest>, j: nat): seq<byte>
    requires 2 * j < |level|
  {
    NodeInput(level[2 * j], if 2 * j + 1 < |level| then level[2 * j + 1] else level[2 * j])
  }

  function LevelInputs(level: seq<Digest>): set<seq<byte>> {
    set j | 0 <= j < (|level| + 1) / 2 :: PairInput(level, j)
  }

  /** Everything hashed to build the levels above `leaves`. */
  function NodeInputs(h: Hash, leaves: seq<Digest>): set<seq<byte>>
    decreases |leaves|
  {
    if |leaves| <= 1 then {} else LevelInputs(leaves) + NodeInputs(h, NextLevel(h, leaves))
  }

  function LeafInputs(leaves: seq<seq<byte>>): set<seq<byte>> {
    set i | 0 <= i < |leaves| :: LeafInput(leaves[i])
  }

  /** Everything the verifier hashes on its way up. */
  function FoldInputs(h: Hash, leaf: seq<byte>, steps: seq<ProofStep>): set<seq<byte>> {
    if steps == [] then {LeafInput(leaf)}
    else
      var n := |steps| - 1;
      var cur, step := Fold(h, LeafHash(h, leaf), steps[..n]), steps[n];
      {if step.position == Left then NodeInput(step.hash, cur) else NodeInput(cur, step.hash)}
      + FoldInputs(h, leaf, steps[..n])
  }

  function TreeInputs(h: Hash, leaves: seq<seq<byte>>): set<seq<byte>> {
    LeafInputs(leaves) + NodeInputs(h, LeafHashes(h, leaves))
  }

  /** A node that is also some node `level` hashed: same children, or a collision. */
  lemma NodeInLevel(h: Hash, level: seq<Digest>, left: Digest, right: Digest, inputs: set<seq<byte>>)
    requires LevelInputs(level) <= inputs && NodeInput(left, right) in inputs
    requires NodeHash(h, left, right) in NextLevel(h, level)
    ensures CollisionAmong(h, inputs) || (left in level && right in level)
  {
    var j :| 0 <= j < (|level| + 1) / 2 && NextLevel(h, level)[j] == NodeHash(h, left, right);
    var l, r := level[2 * j], if 2 * j + 1 < |level| then level[2 * j + 1] else level[2 * j];
    assert PairInput(level, j) in LevelInputs(level);
    if NodeInput(l, r) == NodeInput(left, right) {
      NodeInputInjective(l, r, left, right);
    }
  }

  lemma NodeInputInjective(l: Digest, r: Digest, l': Digest, r': Digest)
    requires NodeInput(l, r) == NodeInput(l', r')
    ensures l == l' && r == r'
  {
    var w := NodeInput(l, r);
    assert l == w[1..33] && l' == NodeInput(l', r')[1..33];
    assert r == w[33..] && r' == NodeInput(l', r')[33..];
  }

  /** The level `k` above `leaves`. */
  function LevelAt(h: Hash, leaves: seq<Digest>, k: nat): seq<Digest> {
    if k == 0 then leaves else NextLevel(h, LevelAt(h, leaves, k - 1))
  }

  lemma {:induction false} LevelAtShift(h: Hash, leaves: seq<Digest>, k: nat)
    ensures LevelAt(h, leaves, k + 1) == LevelAt(h, NextLevel(h, leaves), k)
  {
    if k > 0 {
      LevelAtShift(h, leaves, k - 1);
    }
  }

  /** The root is on level `|Levels| - 1`, and the inputs of every level below
      it are among the tree's. */
  lemma {:induction false} RootLevel(h: Hash, leaves: seq<Digest>)
    requires leaves != []
    ensures var top := |Levels(h, leaves)| - 1;
            && LevelAt(h, leaves, top) == [RootOf(h, leaves)]
            && forall k :: 0 <= k < top ==> LevelInputs(LevelAt(h, leaves, k)) <= NodeInputs(h, leaves)
    decreases |leaves|
  {
    if |leaves| > 1 {
      var next, top := NextLevel(h, leaves), |Levels(h, leaves)| - 1;
      RootLevel(h, next);
      LevelAtShift(h, leaves, top - 1);
      forall k | 0 <= k < top ensures LevelInputs(LevelAt(h, leaves, k)) <= NodeInputs(h, leaves) {
        if k > 0 {
          LevelAtShift(h, leaves, k - 1);
        }
      }
    }
  }

  /** What the last step of a non-empty proof hashed. */
  function LastInput(h: Hash, leaf: seq<byte>, steps: seq<ProofStep>): (x: seq<byte>)
    requires steps != []
    ensures x in FoldInputs(h, leaf, steps) && x != [] && x[0] == 1
    ensures h(x) == Fold(h, LeafHash(h, leaf), steps)
  {
    var n := |steps| - 1;
    var cur := Fold(h, LeafHash(h, leaf), steps[..n]);
    if steps[n].position == Left then NodeInput(steps[n].hash, cur) else NodeInput(cur, steps[n].hash)
  }

  /** A value the verifier reaches that is a leaf hash. */
  lemma FoldInLeaves(h: Hash, leaves: seq<seq<byte>>, leaf: seq<byte>, steps: seq<ProofStep>, inputs: set<seq<byte>>)
    requires Fold(h, LeafHash(h, leaf), steps) in LeafHashes(h, leaves)
    requires LeafInputs(leaves) + FoldInputs(h, leaf, steps) <= inputs
    ensures leaf in leaves || CollisionAmong(h, inputs)
  {
    var i :| 0 <= i < |leaves| && LeafHashes(h, leaves)[i] == Fold(h, LeafHash(h, leaf), steps);
    var x := LeafInput(leaves[i]);
    var y := if steps == [] then LeafInput(leaf) else LastInput(h, leaf, steps);
    assert x in inputs && y in inputs && h(x) == h(y);
    assert x[1..] == leaves[i] && LeafInput(leaf)[1..] == leaf;
    if x == y {
      assert x[0] == 0;
    }
  }

  /** A leaf hash that is also a node of the tree. */
  lemma LeafIsNoNode(h: Hash, below: seq<Digest>, leaf: seq<byte>, inputs: set<seq<byte>>)
    requires LeafHash(h, leaf) in NextLevel(h, below)
    requires LevelInputs(below) <= inputs && LeafInput(leaf) in inputs
    ensures CollisionAmong(h, inputs)
  {
    var j :| 0 <= j < (|below| + 1) / 2 && NextLevel(h, below)[j] == LeafHash(h, leaf);
    var x := PairInput(below, j);
    assert x in LevelInputs(below) && x[0] == 1 && LeafInput(leaf)[0] == 0;
  }

  /** A value the verifier reaches that lies on level `k` of the tree. */
  lemma {:induction false} FoldInLevel(h: Hash, leaves: seq<seq<byte>>, leaf: seq<byte>, steps: seq<ProofStep>, k: nat,
                                       inputs: set<seq<byte>>)
    requires Fold(h, LeafHash(h, leaf), steps) in LevelAt(h, LeafHashes(h, leaves), k)
    requires LeafInputs(leaves) + FoldInputs(h, leaf, steps) <= inputs
    requires forall i :: 0 <= i < k ==> LevelInputs(LevelAt(h, LeafHashes(h, leaves), i)) <= inputs
    ensures leaf in leaves || CollisionAmong(h, inputs)
    decreases |steps|
  {
    hide LevelInputs, LeafInputs, CollisionAmong, NextLevel, LeafHashes, NodeInput;
    if k == 0 {
      FoldInLeaves(h, leaves, leaf, steps, inputs);
    } else if steps == [] {
      LeafIsNoNode(h, LevelAt(h, LeafHashes(h, leaves), k - 1), leaf, inputs);
    } else {
      var below := LevelAt(h, LeafHashes(h, leaves), k - 1);
      var n := |steps| - 1;
      var cur := Fold(h, LeafHash(h, leaf), steps[..n]);
      if steps[n].position == Left {
        NodeInLevel(h, below, steps[n].hash, cur, inputs);
      } else {
        NodeInLevel(h, below, cur, steps[n].hash, inputs);
      }
      if cur in below {
        FoldInLevel(h, leaves, leaf, steps[..n], k - 1, inputs);
      }
    }
  }

  /** Soundness for proofs of any shape: any number of steps, any positions.
      An accepted value is one of the leaves, or two of the inputs hashed by the
      builder and the verifier collide. */
  lemma Soundness(h: Hash, leaves: seq<seq<byte>>, leaf: seq<byte>, steps: seq<ProofStep>)
    requires leaves != []
    requires Fold(h, LeafHash(h, leaf), steps) == RootOf(h, LeafHashes(h, leaves))
    ensures leaf in leaves || CollisionAmong(h, TreeInputs(h, leaves) + FoldInputs(h, leaf, steps))
  {
    var level0 := LeafHashes(h, leaves);
    RootLevel(h, level0);
    FoldInLevel(h, leaves, leaf, steps, |Levels(h, level0)| - 1, TreeInputs(h, leaves) + FoldInputs(h, leaf, steps));
  }

  // ----- the root binds the leaves of a given count -----

  lemma LevelBinds(h: Hash, a: seq<Digest>, b: seq<Digest>, inputs: set<seq<byte>>)
    requires |a| == |b| && NextLevel(h, a) == NextLevel(h, b)
    requires LevelInputs(a) + LevelInputs(b) <= inputs
    ensures a == b || CollisionAmong(h, inputs)
  {
    if !CollisionAmong(h, inputs) {
      forall i | 0 <= i < |a| ensures a[i] == b[i] {
        var j := i / 2;
        var l, r := a[2 * j], if 2 * j + 1 < |a| then a[2 * j + 1] else a[2 * j];
        var l', r' := b[2 * j], if 2 * j + 1 < |b| then b[2 * j + 1] else b[2 * j];
        assert PairInput(a, j) in inputs && PairInput(b, j) in inputs;
        assert NextLevel(h, a)[j] == NextLevel(h, b)[j];
        NodeInputInjective(l, r, l', r');
      }
    }
  }

  lemma {:induction false} RootBindsHashes(h: Hash, a: seq<Digest>, b: seq<Digest>, inputs: set<seq<byte>>)
    requires a != [] && |a| == |b| && RootOf(h, a) == RootOf(h, b)
    requires NodeInputs(h, a) + NodeInputs(h, b) <= inputs
    ensures a == b || CollisionAmong(h, inputs)
    decreases |a|
  {
    if |a| > 1 {
      RootBindsHashes(h, NextLevel(h, a), NextLevel(h, b), inputs);
      if !CollisionAmong(h, inputs) {
        LevelBinds(h, a, b, inputs);
      }
    }
  }

  /** Two lists of the same length with the same root are equal, or two of the
      inputs hashed to build them collide. */
  lemma RootBindsLeaves(h: Hash, a: seq<seq<byte>>, b: seq<seq<byte>>)
    requires a != [] && |a| == |b| && RootOf(h, LeafHashes(h, a)) == RootOf(h, LeafHashes(h, b))
    ensures a == b || CollisionAmong(h, TreeInputs(h, a) + TreeInputs(h, b))
  {
    var inputs := TreeInputs(h, a) + TreeInputs(h, b);
    RootBindsHashes(h, LeafHashes(h, a), LeafHashes(h, b), inputs);
    if !CollisionAmong(h, inputs) {
      forall i | 0 <= i < |a| ensures a[i] == b[i] {
        assert LeafHashes(h, a)[i] == LeafHashes(h, b)[i];
        assert LeafInput(a[i]) in inputs && LeafInput(b[i]) in inputs;
        assert LeafInput(a[i])[1..] == a[i] && LeafInput(b[i])[1..] == b[i];
      }
    }
  }

  // ----- when two lists of any length have one root -----

  /** The number of levels above `n` leaves. */
  function Height(n: nat): nat {
    if n <= 1 then 0 else 1 + Height((n + 1) / 2)
  }

  /** The leaf that stands at place `i` of `2^Height(n)`: at every odd level the last
      block of leaves stands in for the missing one beside it. */
  function Source(n: nat, i: nat): (j: nat)
    requires n > 0
    ensures j < n
    decreases n
  {
    if n == 1 then 0
    else
      var left := 2 * Source((n + 1) / 2, i / 2);
      if left + i % 2 < n then left + i % 2 else left
  }

  /** The list of a power of two of leaves that the tree over `s` really is. */
  function Completion<T>(s: seq<T>): (r: seq<T>)
    requires s != []
    ensures |r| == Pow2(Height(|s|))
  {
    seq(Pow2(Height(|s|)), i requires 0 <= i < Pow2(Height(|s|)) => s[Source(|s|, i)])
  }

  lemma {:induction false} SourceOwn(n: nat, i: nat)
    requires i < n
    ensures Source(n, i) == i && n <= Pow2(Height(n))
    decreases n
  {
    if n > 1 {
      SourceOwn((n + 1) / 2, i / 2);
    }
  }

  /** A list is a prefix of its completion. */
  lemma CompletionExtends<T>(s: seq<T>)
    requires s != []
    ensures s <= Completion(s)
  {
    SourceOwn(|s|, 0);
    forall i | 0 <= i < |s| ensures Completion(s)[i] == s[i] {
      SourceOwn(|s|, i);
    }
  }

  lemma HeightUp(n: nat)
    requires n > 1
    ensures Pow2(Height(n)) == 2 * Pow2(Height((n + 1) / 2))
  {
  }

  lemma SourcePair(n: nat, j: nat)
    requires n > 1
    ensures var p := Source((n + 1) / 2, j);
            && Source(n, 2 * j) == 2 * p < n
            && Source(n, 2 * j + 1) == if 2 * p + 1 < n then 2 * p + 1 else 2 * p
  {
    assert 2 * j / 2 == j && (2 * j + 1) / 2 == j;
    var p := Source((n + 1) / 2, j);
    assert p < (n + 1) / 2;
  }

  /** A pair of the completion is a pair of the list, its last item doubled if odd. */
  lemma CompletionPair<T>(s: seq<T>, j: nat)
    requires |s| > 1 && 2 * j < |Completion(s)|
    ensures |Completion(s)| % 2 == 0
    ensures var p := Source((|s| + 1) / 2, j);
            && 2 * p < |s| && Completion(s)[2 * j] == s[2 * p]
            && Completion(s)[2 * j + 1] == if 2 * p + 1 < |s| then s[2 * p + 1] else s[2 * p]
  {
    hide Source, Height, Pow2, Completion;
    HeightUp(|s|);
    SourcePair(|s|, j);
    CompletionAt(s, 2 * j);
    CompletionAt(s, 2 * j + 1);
  }

  lemma CompletionAt<T>(s: seq<T>, i: nat)
    requires s != [] && i < |Completion(s)|
    ensures Completion(s)[i] == s[Source(|s|, i)]
  {
    hide Source, Height, Pow2;
  }

  /** Completing and building a level can be exchanged. */
  lemma CompletionUp(h: Hash, level: seq<Digest>)
    requires |level| > 1
    ensures NextLevel(h, Completion(level)) == Completion(NextLevel(h, level))
  {
    var full := Completion(level);
    hide NodeHash, Source, Pow2, Height;
    forall j | 0 <= j < |full| / 2
      ensures NextLevel(h, full)[j] == Completion(NextLevel(h, level))[j]
    {
      CompletionPair(level, j);
      assert Parent(h, full, j) == Parent(h, level, Source((|level| + 1) / 2, j));
    }
  }

  lemma RootUp(h: Hash, leaves: seq<Digest>)
    requires |leaves| > 1
    ensures RootOf(h, leaves) == RootOf(h, NextLevel(h, leaves))
  {
    hide NextLevel;
  }

  /** Completing a list does not change the root; so the root does not bind the
      count of any list whose length is no power of two. */
  lemma {:induction false} CompletionKeepsRoot(h: Hash, leaves: seq<Digest>)
    requires leaves != []
    ensures RootOf(h, Completion(leaves)) == RootOf(h, leaves)
    decreases |leaves|
  {
    if |leaves| > 1 {
      hide RootOf, NextLevel;
      CompletionExtends(leaves);
      CompletionUp(h, leaves);
      RootUp(h, leaves);
      RootUp(h, Completion(leaves));
      CompletionKeepsRoot(h, NextLevel(h, leaves));
    } else {
      assert Completion(leaves) == leaves;
    }
  }

  lemma CompletionOfHashes(h: Hash, leaves: seq<seq<byte>>)
    requires leaves != []
    ensures LeafHashes(h, Completion(leaves)) == Completion(LeafHashes(h, leaves))
  {
  }

  lemma SameInput(level: seq<Digest>, j: nat)
    requires |level| > 1 && 2 * j < |Completion(level)|
    ensures 2 * Source((|level| + 1) / 2, j) < |level|
    ensures PairInput(Completion(level), j) == PairInput(level, Source((|level| + 1) / 2, j))
  {
    CompletionPair(level, j);
    hide Completion, Source, NodeInput, Pow2, Height;
  }

  /** Building the completed tree hashes nothing new. */
  lemma CompletionInputs(level: seq<Digest>)
    requires |level| > 1
    ensures LevelInputs(Completion(level)) <= LevelInputs(level)
  {
    var full := Completion(level);
    hide PairInput, Completion, Source, Pow2, Height;
    forall x | x in LevelInputs(full) ensures x in LevelInputs(level) {
      var j :| 0 <= j < (|full| + 1) / 2 && x == PairInput(full, j);
      SameInput(level, j);
      assert x == PairInput(level, Source((|level| + 1) / 2, j));
    }
  }

  lemma {:induction false} CompletionNodes(h: Hash, leaves: seq<Digest>)
    requires leaves != []
    ensures NodeInputs(h, Completion(leaves)) <= NodeInputs(h, leaves)
    decreases |leaves|
  {
    if |leaves| > 1 {
      hide LevelInputs, NextLevel;
      CompletionExtends(leaves);
      CompletionUp(h, leaves);
      CompletionInputs(leaves);
      CompletionNodes(h, NextLevel(h, leaves));
    }
  }

  lemma CompletionHashes(h: Hash, leaves: seq<seq<byte>>)
    requires leaves != []
    ensures TreeInputs(h, Completion(leaves)) <= TreeInputs(h, leaves)
  {
    CompletionOfHashes(h, leaves);
    CompletionNodes(h, LeafHashes(h, leaves));
    hide NodeInputs, LeafHashes, LeafInput;
    assert LeafInputs(Completion(leaves)) <= LeafInputs(leaves);
  }

  /** A perfect tree and a higher one have different roots, or inputs collide: the
      higher tree's node where the other has a leaf would be that leaf's hash. */
  lemma {:induction false} HeightsDiffer(h: Hash, high: seq<Digest>, m: nat, low: seq<seq<byte>>, k: nat,
                                         inputs: set<seq<byte>>)
    requires |high| == Pow2(m) && |low| == Pow2(k) && m > k
    requires RootOf(h, high) == RootOf(h, LeafHashes(h, low))
    requires NodeInputs(h, high) + TreeInputs(h, low) <= inputs
    ensures CollisionAmong(h, inputs)
    decreases m
  {
    hide RootOf, NextLevel, LevelInputs, LeafHashes, CollisionAmong;
    var next := NextLevel(h, high);
    assert |high| == 2 * Pow2(m - 1);
    RootUp(h, high);
    if m - 1 > k {
      HeightsDiffer(h, next, m - 1, low, k, inputs);
    } else {
      RootBindsHashes(h, next, LeafHashes(h, low), inputs);
      if !CollisionAmong(h, inputs) {
        FirstLeafHash(h, low, inputs);
        LeafIsNoNode(h, high, low[0], inputs);
      }
    }
  }

  lemma FirstLeafHash(h: Hash, leaves: seq<seq<byte>>, inputs: set<seq<byte>>)
    requires leaves != [] && TreeInputs(h, leaves) <= inputs
    ensures LeafHash(h, leaves[0]) in LeafHashes(h, leaves) && LeafInput(leaves[0]) in inputs
  {
    assert LeafHashes(h, leaves)[0] == LeafHash(h, leaves[0]);
    assert LeafInput(leaves[0]) in LeafInputs(leaves);
  }

  lemma PerfectRootsBind(h: Hash, a: seq<seq<byte>>, m: nat, b: seq<seq<byte>>, k: nat)
    requires |a| == Pow2(m) && |b| == Pow2(k) && RootOf(h, LeafHashes(h, a)) == RootOf(h, LeafHashes(h, b))
    ensures a == b || CollisionAmong(h, TreeInputs(h, a) + TreeInputs(h, b))
  {
    hide RootOf, LeafHashes, CollisionAmong, NodeInputs, LeafInputs;
    var inputs := TreeInputs(h, a) + TreeInputs(h, b);
    if m > k {
      HeightsDiffer(h, LeafHashes(h, a), m, b, k, inputs);
    } else if k > m {
      HeightsDiffer(h, LeafHashes(h, b), k, a, m, inputs);
    } else {
      RootBindsLeaves(h, a, b);
    }
  }

  lemma CollisionAmongMore(h: Hash, some: set<seq<byte>>, more: set<seq<byte>>)
    requires some <= more && CollisionAmong(h, some)
    ensures CollisionAmong(h, more)
  {
  }

  /** Two lists of leaves, of any lengths, have one root exactly when their
      completions are equal, unless hashed inputs collide. */
  lemma RootsEqualExactly(h: Hash, a: seq<seq<byte>>, b: seq<seq<byte>>)
    requires a != [] && b != []
    ensures Completion(a) == Completion(b) ==> RootOf(h, LeafHashes(h, a)) == RootOf(h, LeafHashes(h, b))
    ensures RootOf(h, LeafHashes(h, a)) == RootOf(h, LeafHashes(h, b)) ==>
              Completion(a) == Completion(b) || CollisionAmong(h, TreeInputs(h, a) + TreeInputs(h, b))
  {
    hide RootOf, LeafHashes, CollisionAmong, TreeInputs, Completion;
    var ca, cb := Completion(a), Completion(b);
    CompletionOfHashes(h, a);
    CompletionOfHashes(h, b);
    CompletionKeepsRoot(h, LeafHashes(h, a));
    CompletionKeepsRoot(h, LeafHashes(h, b));
    if RootOf(h, LeafHashes(h, a)) == RootOf(h, LeafHashes(h, b)) {
      PerfectRootsBind(h, ca, Height(|a|), cb, Height(|b|));
      CompletionHashes(h, a);
      CompletionHashes(h, b);
      if CollisionAmong(h, TreeInputs(h, ca) + TreeInputs(h, cb)) {
        CollisionAmongMore(h, TreeInputs(h, ca) + TreeInputs(h, cb), TreeInputs(h, a) + TreeInputs(h, b));
      }
    }
  }

  /** The smallest case: an odd list and the same list with its last leaf repeated
      have the same root. */
  lemma RootIgnoresRepeatedLast(h: Hash, leaves: seq<Digest>)
    requires |leaves| > 1 && |leaves| % 2 == 1
    ensures RootOf(h, leaves + [leaves[|leaves| - 1]]) == RootOf(h, leaves)
  {
    var longer := leaves + [leaves[|leaves| - 1]];
    assert NextLevel(h, longer) == NextLevel(h, leaves);
  }
}

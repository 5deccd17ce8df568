/** RFC 6962 trees (sections 2.1 and 2.1.1), defined by recursion on the largest
    power of two below the size; the RFC 9162 verifier (section 2.1.3.2), which
    climbs from the leaf by shifting indices; and how both relate to the
    level-by-level trees of `Merkle`. */
module Rfc6962 {
  import opened Text
  import Lists
  import opened Merkle

  /** The least power of two that is at least `n`. */
  function NextPowerOfTwo(n: nat): (p: nat)
    ensures p >= n && p > 0
    ensures n > 1 ==> p % 2 == 0 && p / 2 < n
  {
    if n <= 1 then 1 else 2 * NextPowerOfTwo((n + 1) / 2)
  }

  function SplitPoint(n: nat): (k: nat)
    requires n > 1
    ensures 0 < k < n <= 2 * k
  {
    NextPowerOfTwo(n) / 2
  }

  /** Merkle tree hash. */
  function Mth(h: Hash, leaves: seq<Digest>): Digest
    requires leaves != []
    decreases |leaves|
  {
    if |leaves| == 1 then leaves[0]
    else
      var k := SplitPoint(|leaves|);
      NodeHash(h, Mth(h, leaves[..k]), Mth(h, leaves[k..]))
  }

  /** Audit path of leaf `i`, lowest sibling first. */
  function AuditPath(h: Hash, leaves: seq<Digest>, i: nat): seq<Digest>
    requires i < |leaves|
    decreases |leaves|
  {
    if |leaves| == 1 then []
    else
      var k := SplitPoint(|leaves|);
      if i < k then AuditPath(h, leaves[..k], i) + [Mth(h, leaves[k..])]
      else AuditPath(h, leaves[k..], i - k) + [Mth(h, leaves[..k])]
  }

  // ----- the same tree from the bottom up -----

  /** Pair neighbours; a lone last node moves up as it is. */
  function PairUp(h: Hash, level: seq<Digest>): (next: seq<Digest>)
    ensures |next| == (|level| + 1) / 2
  {
    seq((|level| + 1) / 2, j requires 0 <= j < (|level| + 1) / 2 =>
      if 2 * j + 1 < |level| then NodeHash(h, level[2 * j], level[2 * j + 1]) else level[2 * j])
  }

  function Sibling(level: seq<Digest>, i: nat): seq<Digest>
    requires i < |level|
  {
    if i % 2 == 1 then [level[i - 1]] else if i + 1 < |level| then [level[i + 1]] else []
  }

  lemma SplitHalves(n: nat)
    requires n > 2
    ensures SplitPoint(n) % 2 == 0 && SplitPoint((n + 1) / 2) == SplitPoint(n) / 2
  {
    assert NextPowerOfTwo(n) == 2 * NextPowerOfTwo((n + 1) / 2);
  }

  lemma PairUpAt(h: Hash, leaves: seq<Digest>, j: nat)
    requires 2 * j < |leaves|
    ensures PairUp(h, leaves)[j] ==
            if 2 * j + 1 < |leaves| then NodeHash(h, leaves[2 * j], leaves[2 * j + 1]) else leaves[2 * j]
  {
  }

  lemma PairUpOne(h: Hash, leaves: seq<Digest>)
    requires |leaves| == 1
    ensures PairUp(h, leaves) == leaves
  {
  }

  lemma PairUpSplits(h: Hash, leaves: seq<Digest>, k: nat)
    requires k <= |leaves| && k % 2 == 0
    ensures PairUp(h, leaves) == PairUp(h, leaves[..k]) + PairUp(h, leaves[k..])
  {
    hide PairUp, NodeHash;
    var whole, low, high := PairUp(h, leaves), PairUp(h, leaves[..k]), PairUp(h, leaves[k..]);
    assert |whole| == |low| + |high| && |low| == k / 2;
    forall j | 0 <= j < |whole| ensures whole[j] == (low + high)[j] {
      PairUpAt(h, leaves, j);
      if j < k / 2 {
        PairUpAt(h, leaves[..k], j);
      } else {
        PairUpAt(h, leaves[k..], j - k / 2);
      }
    }
  }

  lemma {:induction false} MthFromBelow(h: Hash, leaves: seq<Digest>)
    requires |leaves| > 1
    ensures Mth(h, leaves) == Mth(h, PairUp(h, leaves))
    decreases |leaves|
  {
    hide *;
    var n := |leaves|;
    if n == 2 {
      PairMth(h, leaves);
    } else {
      var k, up := SplitPoint(n), PairUp(h, leaves);
      SplitHalves(n);
      PairUpSplits(h, leaves, k);
      MthFromBelow(h, leaves[..k]);
      if n - k > 1 {
        MthFromBelow(h, leaves[k..]);
      } else {
        PairUpOne(h, leaves[k..]);
      }
      assert up[..k / 2] == PairUp(h, leaves[..k]) && up[k / 2..] == PairUp(h, leaves[k..]);
      MthSplits(h, leaves, k);
      MthSplits(h, up, k / 2);
    }
  }

  /** How `Mth` unfolds, with the split point named. */
  lemma MthSplits(h: Hash, leaves: seq<Digest>, k: nat)
    requires |leaves| > 1 && k == SplitPoint(|leaves|)
    ensures Mth(h, leaves) == NodeHash(h, Mth(h, leaves[..k]), Mth(h, leaves[k..]))
  {
    hide SplitPoint, NodeHash;
  }

  lemma PairMth(h: Hash, leaves: seq<Digest>)
    requires |leaves| == 2
    ensures Mth(h, leaves) == Mth(h, PairUp(h, leaves))
  {
    hide NodeHash;
    var k := SplitPoint(2);
    assert leaves[..k] == [leaves[0]] && leaves[k..] == [leaves[1]];
  }

  /** Pairing up works on the two halves of a tree of more than two leaves. */
  lemma Halves(h: Hash, leaves: seq<Digest>)
    requires |leaves| > 2
    ensures var k, up := SplitPoint(|leaves|), PairUp(h, leaves);
            && k % 2 == 0 && SplitPoint(|up|) == k / 2
            && up[..k / 2] == PairUp(h, leaves[..k]) && up[k / 2..] == PairUp(h, leaves[k..])
            && Mth(h, up[..k / 2]) == Mth(h, leaves[..k]) && Mth(h, up[k / 2..]) == Mth(h, leaves[k..])
  {
    var k, up := SplitPoint(|leaves|), PairUp(h, leaves);
    SplitHalves(|leaves|);
    hide SplitPoint, Mth, PairUp, NextPowerOfTwo;
    PairUpSplits(h, leaves, k);
    assert |PairUp(h, leaves[..k])| == k / 2;
    assert up[..k / 2] == PairUp(h, leaves[..k]) && up[k / 2..] == PairUp(h, leaves[k..]);
    MthFromBelow(h, leaves[..k]);
    if |leaves| - k > 1 {
      MthFromBelow(h, leaves[k..]);
    } else {
      SingletonPath(h, leaves[k..]);
    }
  }

  /** How `AuditPath` unfolds, with the split point named. */
  lemma AuditPathSplits(h: Hash, leaves: seq<Digest>, i: nat, k: nat)
    requires i < |leaves| && |leaves| > 1 && k == SplitPoint(|leaves|)
    ensures AuditPath(h, leaves, i) ==
            if i < k then AuditPath(h, leaves[..k], i) + [Mth(h, leaves[k..])]
            else AuditPath(h, leaves[k..], i - k) + [Mth(h, leaves[..k])]
  {
  }

  lemma SiblingInHalf(leaves: seq<Digest>, i: nat, k: nat)
    requires i < |leaves| && 0 < k < |leaves| && k % 2 == 0
    ensures Sibling(leaves, i) == if i < k then Sibling(leaves[..k], i) else Sibling(leaves[k..], i - k)
  {
  }

  lemma {:induction false} AuditPathFromBelow(h: Hash, leaves: seq<Digest>, i: nat)
    requires i < |leaves| && |leaves| > 1
    ensures AuditPath(h, leaves, i) == Sibling(leaves, i) + AuditPath(h, PairUp(h, leaves), i / 2)
    decreases |leaves|
  {
    hide AuditPath, Mth, PairUp, Sibling, SplitPoint, NextPowerOfTwo, NodeHash;
    var k, up := SplitPoint(|leaves|), PairUp(h, leaves);
    var low, high := leaves[..k], leaves[k..];
    AuditPathSplits(h, leaves, i, k);
    if |leaves| == 2 {
      PairPath(h, leaves, i);
    } else {
      Halves(h, leaves);
      AuditPathSplits(h, up, i / 2, k / 2);
      SiblingInHalf(leaves, i, k);
      var half, j, top := if i < k then low else high, if i < k then i else i - k, if i < k then Mth(h, high)
        else Mth(h, low);
      if |half| > 1 {
        AuditPathFromBelow(h, half, j);
      } else {
        SingletonPath(h, half);
      }
      Lists.ConcatAssociates(Sibling(half, j), AuditPath(h, PairUp(h, half), j / 2), [top]);
    }
  }

  lemma PairPath(h: Hash, leaves: seq<Digest>, i: nat)
    requires i < |leaves| == 2
    ensures AuditPath(h, leaves, i) == Sibling(leaves, i) + AuditPath(h, PairUp(h, leaves), i / 2)
  {
    assert leaves[..1] == [leaves[0]] && leaves[1..] == [leaves[1]];
  }

  lemma SingletonPath(h: Hash, leaves: seq<Digest>)
    requires |leaves| == 1
    ensures AuditPath(h, leaves, 0) == [] && Sibling(leaves, 0) == [] && PairUp(h, leaves) == leaves
  {
  }

  // ----- the RFC 9162 verifier -----

  /** The root a proof of leaf `i` of `n` leads to, when it has the right length. */
  function Climb(h: Hash, i: nat, n: nat, r: Digest, path: seq<Digest>): Option<Digest>
    requires i < n
    decreases n
  {
    if n == 1 then if path == [] then Some(r) else None
    else if i % 2 == 0 && i == n - 1 then Climb(h, i / 2, (n + 1) / 2, r, path)
    else if path == [] then None
    else if i % 2 == 1 then Climb(h, i / 2, (n + 1) / 2, NodeHash(h, path[0], r), path[1..])
    else Climb(h, i / 2, (n + 1) / 2, NodeHash(h, r, path[0]), path[1..])
  }

  method VerifyInclusion(h: Hash, index: nat, size: nat, leaf: Digest, path: seq<Digest>, root: Digest)
    returns (ok: bool)
    ensures ok <==> index < size && Climb(h, index, size, leaf, path) == Some(root)
  {
    if index >= size {
      return false;
    }
    var fnode, snode := index, size - 1;
    var r := leaf;
    assert path[0..] == path;
    for k := 0 to |path|
      invariant 0 <= fnode <= snode
      invariant Climb(h, index, size, leaf, path) == Climb(h, fnode, snode + 1, r, path[k..])
    {
      if snode == 0 {
        return false;
      }
      var p := path[k];
      assert path[k..][0] == p && path[k..][1..] == path[k + 1..];
      ghost var r0 := r;
      if fnode % 2 == 1 || fnode == snode {
        r := NodeHash(h, p, r);
        if fnode % 2 == 0 {
          while fnode % 2 == 0 && fnode != 0
            invariant 0 < fnode == snode
            invariant Climb(h, index, size, leaf, path) == Climb(h, fnode, snode + 1, r0, path[k..])
          {
            fnode := fnode / 2;
            snode := snode / 2;
          }
        }
      } else {
        r := NodeHash(h, r, p);
      }
      fnode := fnode / 2;
      snode := snode / 2;
    }
    assert path[|path|..] == [];
    ClimbNeedsPath(h, fnode, snode + 1, r);
    ok := snode == 0 && r == root;
  }

  lemma {:induction false} ClimbNeedsPath(h: Hash, i: nat, n: nat, r: Digest)
    requires i < n
    ensures Climb(h, i, n, r, []) == if n == 1 then Some(r) else None
    decreases n
  {
    if n > 1 && i % 2 == 0 && i == n - 1 {
      ClimbNeedsPath(h, i / 2, (n + 1) / 2, r);
    }
  }

  /** Completeness: the verifier accepts every leaf's audit path. */
  lemma {:induction false} AuditPathVerifies(h: Hash, leaves: seq<Digest>, i: nat)
    requires i < |leaves|
    ensures Climb(h, i, |leaves|, leaves[i], AuditPath(h, leaves, i)) == Some(Mth(h, leaves))
    decreases |leaves|
  {
    hide AuditPath, Mth, PairUp, Climb;
    if |leaves| == 1 {
      SingletonPath(h, leaves);
      ClimbNeedsPath(h, 0, 1, leaves[0]);
      SingletonMth(h, leaves);
    } else {
      AuditPathFromBelow(h, leaves, i);
      MthFromBelow(h, leaves);
      AuditPathVerifies(h, PairUp(h, leaves), i / 2);
      ClimbStep(h, leaves, i, AuditPath(h, PairUp(h, leaves), i / 2));
    }
  }

  lemma SingletonMth(h: Hash, leaves: seq<Digest>)
    requires |leaves| == 1
    ensures Mth(h, leaves) == leaves[0]
  {
  }

  lemma ClimbStep(h: Hash, leaves: seq<Digest>, i: nat, above: seq<Digest>)
    requires i < |leaves| && |leaves| > 1
    ensures Climb(h, i, |leaves|, leaves[i], Sibling(leaves, i) + above)
         == Climb(h, i / 2, (|leaves| + 1) / 2, PairUp(h, leaves)[i / 2], above)
  {
    PairUpAt(h, leaves, i / 2);
    hide PairUp, NodeHash;
    var path := Sibling(leaves, i) + above;
    if Sibling(leaves, i) == [] {
      assert path == above;
    } else {
      assert path[1..] == above;
    }
  }

  /** An audit path has at most ceil(log2 n) hashes. */
  lemma {:induction false} AuditPathLength(h: Hash, leaves: seq<Digest>, i: nat, k: nat)
    requires i < |leaves| <= Pow2(k)
    ensures |AuditPath(h, leaves, i)| <= k
    decreases |leaves|
  {
    hide AuditPath, PairUp;
    if |leaves| == 1 {
      SingletonPath(h, leaves);
    } else {
      AuditPathFromBelow(h, leaves, i);
      AuditPathLength(h, PairUp(h, leaves), i / 2, k - 1);
    }
  }

  // ----- soundness of the verifier: the proof binds leaf and index -----

  function PairInputs(h: Hash, leaves: seq<Digest>): set<seq<byte>>
    decreases |leaves|
  {
    if |leaves| <= 1 then {}
    else
      (set j | 0 <= j < |leaves| / 2 :: NodeInput(leaves[2 * j], leaves[2 * j + 1])) + PairInputs(h, PairUp(h, leaves))
  }

  function ClimbInputs(h: Hash, i: nat, n: nat, r: Digest, path: seq<Digest>): set<seq<byte>>
    requires i < n
    decreases n
  {
    if n == 1 then {}
    else if i % 2 == 0 && i == n - 1 then ClimbInputs(h, i / 2, (n + 1) / 2, r, path)
    else if path == [] then {}
    else
      var (left, right) := if i % 2 == 1 then (path[0], r) else (r, path[0]);
      {NodeInput(left, right)} + ClimbInputs(h, i / 2, (n + 1) / 2, NodeHash(h, left, right), path[1..])
  }

  /** An accepted proof is the audit path of that leaf at that index, whatever its
      shape, or two of the inputs hashed by the log and the verifier collide. */
  lemma {:induction false} ClimbBinds(h: Hash, leaves: seq<Digest>, i: nat, r: Digest, path: seq<Digest>,
                                      inputs: set<seq<byte>>)
    requires i < |leaves| && Climb(h, i, |leaves|, r, path) == Some(Mth(h, leaves))
    requires PairInputs(h, leaves) + ClimbInputs(h, i, |leaves|, r, path) <= inputs
    ensures (r == leaves[i] && path == AuditPath(h, leaves, i)) || CollisionAmong(h, inputs)
    decreases |leaves|
  {
    hide Mth, AuditPath, PairUp, Climb, ClimbInputs, PairInputs, CollisionAmong, NodeHash, NodeInput;
    var n := |leaves|;
    if n == 1 {
      SingletonMth(h, leaves);
      SingletonPath(h, leaves);
      ClimbEnds(h, r, path);
    } else {
      var up := PairUp(h, leaves);
      MthFromBelow(h, leaves);
      AuditPathFromBelow(h, leaves, i);
      PairInputsAbove(h, leaves);
      ClimbReads(h, i, n, r, path);
      PairUpAt(h, leaves, i / 2);
      if i % 2 == 0 && i == n - 1 {
        ClimbBinds(h, up, i / 2, r, path, inputs);
      } else {
        var (left, right) := if i % 2 == 1 then (path[0], r) else (r, path[0]);
        ClimbBinds(h, up, i / 2, NodeHash(h, left, right), path[1..], inputs);
        if !CollisionAmong(h, inputs) {
          PairBinds(h, leaves, i / 2, left, right, inputs);
          SiblingAt(leaves, i);
          assert path == [path[0]] + path[1..];
        }
      }
    }
  }

  lemma ClimbEnds(h: Hash, r: Digest, path: seq<Digest>)
    ensures Climb(h, 0, 1, r, path) == if path == [] then Some(r) else None
  {
  }

  lemma PairInputsAbove(h: Hash, leaves: seq<Digest>)
    requires |leaves| > 1
    ensures PairInputs(h, PairUp(h, leaves)) <= PairInputs(h, leaves)
  {
  }

  /** One level of a successful climb: what is hashed and what is left. */
  lemma ClimbReads(h: Hash, i: nat, n: nat, r: Digest, path: seq<Digest>)
    requires i < n && n > 1 && Climb(h, i, n, r, path).Some?
    ensures if i % 2 == 0 && i == n - 1 then
              && Climb(h, i, n, r, path) == Climb(h, i / 2, (n + 1) / 2, r, path)
              && ClimbInputs(h, i, n, r, path) == ClimbInputs(h, i / 2, (n + 1) / 2, r, path)
            else
              && path != []
              && var (left, right) := if i % 2 == 1 then (path[0], r) else (r, path[0]);
              && Climb(h, i, n, r, path) == Climb(h, i / 2, (n + 1) / 2, NodeHash(h, left, right), path[1..])
              && NodeInput(left, right) in ClimbInputs(h, i, n, r, path)
              && ClimbInputs(h, i / 2, (n + 1) / 2, NodeHash(h, left, right), path[1..])
                 <= ClimbInputs(h, i, n, r, path)
  {
  }

  lemma SiblingAt(leaves: seq<Digest>, i: nat)
    requires i < |leaves| && !(i % 2 == 0 && i == |leaves| - 1)
    ensures 2 * (i / 2) + 1 < |leaves|
    ensures Sibling(leaves, i) == [if i % 2 == 1 then leaves[2 * (i / 2)] else leaves[2 * (i / 2) + 1]]
  {
  }

  lemma PairBinds(h: Hash, leaves: seq<Digest>, j: nat, left: Digest, right: Digest, inputs: set<seq<byte>>)
    requires 2 * j + 1 < |leaves| && PairUp(h, leaves)[j] == NodeHash(h, left, right)
    requires PairInputs(h, leaves) <= inputs && NodeInput(left, right) in inputs && !CollisionAmong(h, inputs)
    ensures left == leaves[2 * j] && right == leaves[2 * j + 1]
  {
    hide NodeInput, PairInputs, PairUp;
    PairUpAt(h, leaves, j);
    PairHashed(h, leaves, j);
    var x, y := NodeInput(leaves[2 * j], leaves[2 * j + 1]), NodeInput(left, right);
    assert x in inputs && y in inputs && h(x) == h(y);
    NodeInputInjective(leaves[2 * j], leaves[2 * j + 1], left, right);
  }

  lemma PairHashed(h: Hash, leaves: seq<Digest>, j: nat)
    requires 2 * j + 1 < |leaves|
    ensures NodeInput(leaves[2 * j], leaves[2 * j + 1]) in PairInputs(h, leaves)
  {
    hide NodeInput, PairInputs, PairUp;
    PairInputsStart(h, leaves);
    assert NodeInput(leaves[2 * j], leaves[2 * j + 1]) in
      set k | 0 <= k < |leaves| / 2 :: NodeInput(leaves[2 * k], leaves[2 * k + 1]);
  }

  lemma PairInputsStart(h: Hash, leaves: seq<Digest>)
    requires |leaves| > 1
    ensures (set j | 0 <= j < |leaves| / 2 :: NodeInput(leaves[2 * j], leaves[2 * j + 1])) <= PairInputs(h, leaves)
  {
    hide NodeInput, PairUp;
  }

  /** The verifier accepts a proof for index `index` of a tree exactly when it is
      that leaf's audit path, unless hashed inputs collide. */
  lemma VerifierExact(h: Hash, leaves: seq<Digest>, index: nat, leaf: Digest, path: seq<Digest>)
    requires index < |leaves|
    requires !CollisionAmong(h, PairInputs(h, leaves) + ClimbInputs(h, index, |leaves|, leaf, path))
    ensures Climb(h, index, |leaves|, leaf, path) == Some(Mth(h, leaves))
       <==> leaf == leaves[index] && path == AuditPath(h, leaves, index)
  {
    AuditPathVerifies(h, leaves, index);
    if Climb(h, index, |leaves|, leaf, path) == Some(Mth(h, leaves)) {
      ClimbBinds(h, leaves, index, leaf, path, PairInputs(h, leaves) + ClimbInputs(h, index, |leaves|, leaf, path));
    }
  }

  // ----- agreement with the level-by-level builder -----

  function Hashes(steps: seq<ProofStep>): seq<Digest> {
    if steps == [] then [] else [steps[0].hash] + Hashes(steps[1..])
  }

  /** On a power of two of leaves the two constructions agree: same root, and the
      hashes of the builder's proof are the audit path in order. */
  lemma {:induction false} AgreeOnPowersOfTwo(h: Hash, leaves: seq<Digest>, i: nat, m: nat)
    requires |leaves| == Pow2(m) && i < |leaves|
    ensures RootOf(h, leaves) == Mth(h, leaves)
    ensures Hashes(PathOf(h, leaves, i)) == AuditPath(h, leaves, i)
    decreases m
  {
    hide *;
    TwicePow2(m);
    if m == 0 {
      AgreeOnOne(h, leaves);
    } else {
      var up := NextLevel(h, leaves);
      EvenLevel(h, leaves);
      RootUp(h, leaves);
      AgreeOnPowersOfTwo(h, up, i / 2, m - 1);
      MthFromBelow(h, leaves);
      AuditPathFromBelow(h, leaves, i);
      PathStep(h, leaves, i);
      HashesStep(leaves, i, PathOf(h, up, i / 2));
    }
  }

  lemma TwicePow2(m: nat)
    ensures Pow2(m) == if m == 0 then 1 else 2 * Pow2(m - 1)
  {
  }

  lemma AgreeOnOne(h: Hash, leaves: seq<Digest>)
    requires |leaves| == 1
    ensures RootOf(h, leaves) == Mth(h, leaves) && Hashes(PathOf(h, leaves, 0)) == AuditPath(h, leaves, 0)
  {
  }

  lemma EvenLevel(h: Hash, leaves: seq<Digest>)
    requires |leaves| % 2 == 0
    ensures NextLevel(h, leaves) == PairUp(h, leaves)
  {
    hide NodeHash;
  }

  lemma HashesStep(leaves: seq<Digest>, i: nat, above: seq<ProofStep>)
    requires i < |leaves| && |leaves| % 2 == 0
    ensures Hashes([SiblingStep(leaves, i)] + above) == Sibling(leaves, i) + Hashes(above)
  {
    var step := SiblingStep(leaves, i);
    assert ([step] + above)[1..] == above;
    assert Sibling(leaves, i) == [step.hash];
  }
}

/** The Merkle tree hash as section 2.1 of RFC 6962 writes it, over the entries'
    bytes, and how the trees of the exporter and of the log relate to it. */
module TreeHash {
  import opened Text
  import Lists
  import opened Merkle
  import opened Rfc6962

  /** The largest power of two smaller than `n`, doubling from `k`. */
  function Doubled(k: nat, n: nat): (r: nat)
    requires 0 < k < n
    ensures 0 < r < n
    decreases n - k
  {
    if 2 * k < n then Doubled(2 * k, n) else k
  }

  /** An entry is hashed after a zero byte; two subtrees, left then right, after a one. */
  function EntriesHash(h: Hash, entries: seq<seq<byte>>): Digest
    requires entries != []
    decreases |entries|
  {
    if |entries| == 1 then h([0x00] + entries[0])
    else
      var k := Doubled(1, |entries|);
      h([0x01] + (EntriesHash(h, entries[..k]) + EntriesHash(h, entries[k..])))
  }

  lemma {:induction false} DoubledTwice(k: nat, n: nat)
    requires 0 < k < n
    ensures Doubled(2 * k, 2 * n) == 2 * Doubled(k, n)
    decreases n - k
  {
    if 2 * k < n {
      DoubledTwice(2 * k, n);
    }
  }

  lemma {:induction false} DoubledOdd(k: nat, n: nat)
    requires 0 < k < n
    ensures Doubled(2 * k, 2 * n - 1) == 2 * Doubled(k, n)
    decreases n - k
  {
    if 2 * k < n {
      DoubledOdd(2 * k, n);
    }
  }

  /** Halving from above and doubling from below split at the same place. */
  lemma {:induction false} SplitPointIs(n: nat)
    requires n > 1
    ensures SplitPoint(n) == Doubled(1, n)
    decreases n
  {
    hide *;
    if n == 2 {
      SplitTwo();
    } else {
      var m := (n + 1) / 2;
      SplitPointIs(m);
      SplitHalves(n);
      DoubledFromTwo(n);
      if n % 2 == 0 {
        assert 2 * m == n;
        DoubledTwice(1, m);
      } else {
        assert 2 * m - 1 == n;
        DoubledOdd(1, m);
      }
    }
  }

  lemma SplitTwo()
    ensures SplitPoint(2) == 1 == Doubled(1, 2)
  {
    assert NextPowerOfTwo(1) == 1 && NextPowerOfTwo(2) == 2 * NextPowerOfTwo(1);
  }

  lemma DoubledFromTwo(n: nat)
    requires n > 2
    ensures Doubled(1, n) == Doubled(2, n)
  {
  }

  /** The log's tree is the one of the standard. */
  lemma {:induction false} MthIs(h: Hash, entries: seq<seq<byte>>)
    requires entries != []
    ensures Mth(h, LeafHashes(h, entries)) == EntriesHash(h, entries)
    decreases |entries|
  {
    if |entries| > 1 {
      var k := SplitPoint(|entries|);
      SplitPointIs(|entries|);
      MthIs(h, entries[..k]);
      MthIs(h, entries[k..]);
      var leaves := LeafHashes(h, entries);
      assert leaves[..k] == LeafHashes(h, entries[..k]) && leaves[k..] == LeafHashes(h, entries[k..]);
      hide LeafHashes, LeafHash;
      Lists.ConcatAssociates([1 as byte], Mth(h, leaves[..k]), Mth(h, leaves[k..]));
    }
  }

  /** The exporter's tree is the standard's tree of the entries completed to a power of
      two, whatever their number. */
  lemma RootIsCompleted(h: Hash, entries: seq<seq<byte>>)
    requires entries != []
    ensures RootOf(h, LeafHashes(h, entries)) == EntriesHash(h, Completion(entries))
  {
    hide RootOf, Mth, Completion, EntriesHash;
    CompletionKeepsRoot(h, LeafHashes(h, entries));
    CompletionOfHashes(h, entries);
    AgreeOnPowersOfTwo(h, LeafHashes(h, Completion(entries)), 0, Height(|entries|));
    MthIs(h, Completion(entries));
  }

  /** Bit `k` of a binary number. */
  predicate BitSet(n: nat, k: nat) {
    if k == 0 then n % 2 == 1 else BitSet(n / 2, k - 1)
  }

  /** Step `k` of a proof has its sibling on the left exactly when bit `k` of the leaf's
      index is set. */
  lemma {:induction false} ProofSides(h: Hash, leaves: seq<Digest>, index: nat, k: nat)
    requires index < |leaves| && k < |PathOf(h, leaves, index)|
    ensures PathOf(h, leaves, index)[k].position == Left <==> BitSet(index, k)
    decreases |leaves|
  {
    if k > 0 {
      ProofSides(h, NextLevel(h, leaves), index / 2, k - 1);
    }
  }
}

/**
 * The two verdicts the program computes over the list of blocks,
 * `check_integrity` and `recalculate_hashes_and_check`, each as the method
 * the program runs and the predicate it decides, and what they catch.
 */
module Chains {
  import opened DateTimes
  import opened Blocks

  /** Block `b` passes the three tests `check_integrity` makes against its predecessor `prev`. */
  predicate Linked(prev: Block, b: Block, digest: Hasher) {
    b.previousHash == prev.hash && b.dataHash == HashData(b, digest) && b.hash == HashBlock(b, digest)
  }

  /** What `check_integrity` decides: every block after the first is linked to its predecessor. */
  predicate IntegrityOk(chain: seq<Block>, digest: Hasher) {
    forall i :: 1 <= i < |chain| ==> Linked(chain[i - 1], chain[i], digest)
  }

  /** What `recalculate_hashes_and_check` decides: every block, the first included, has its own hash. */
  predicate HashesOk(chain: seq<Block>, digest: Hasher) {
    forall i :: 0 <= i < |chain| ==> HashCurrent(chain[i], digest)
  }

  /** The stored hash of `b` is the one `hash_block` computes now. */
  predicate HashCurrent(b: Block, digest: Hasher) {
    b.hash == HashBlock(b, digest)
  }

  /** Block `i` carries index `i`. */
  predicate Contiguous(chain: seq<Block>) {
    forall i :: 0 <= i < |chain| ==> chain[i].index == i
  }

  /** The background pass raises its alarm exactly when one of the two checks fails. */
  predicate Alarm(chain: seq<Block>, digest: Hasher) {
    !IntegrityOk(chain, digest) || !HashesOk(chain, digest)
  }

  /** `check_integrity`: pairs in order, `false` at the first failing test. */
  method CheckIntegrity(chain: seq<Block>, digest: Hasher) returns (ok: bool)
    ensures ok == IntegrityOk(chain, digest)
  {
    var i := 1;
    while i < |chain|
      invariant 1 <= i
      invariant forall j :: 1 <= j < i && j < |chain| ==> Linked(chain[j - 1], chain[j], digest)
    {
      var current := chain[i];
      var previous := chain[i - 1];
      if current.previousHash != previous.hash {
        return false;
      }
      if current.dataHash != HashData(current, digest) {
        return false;
      }
      if current.hash != HashBlock(current, digest) {
        return false;
      }
      i := i + 1;
    }
    return true;
  }

  /** `recalculate_hashes_and_check`: every block in order, `false` at the first stale hash. */
  method RecalculateHashesAndCheck(chain: seq<Block>, digest: Hasher) returns (ok: bool)
    ensures ok == HashesOk(chain, digest)
  {
    for i := 0 to |chain|
      invariant forall j :: 0 <= j < i ==> HashCurrent(chain[j], digest)
    {
      var block := chain[i];
      if block.hash != HashBlock(block, digest) {
        assert !HashCurrent(chain[i], digest);
        return false;
      }
    }
    return true;
  }

  /** A chain of at most one block passes `check_integrity`, whatever that block holds. */
  lemma ShortChainPasses(chain: seq<Block>, digest: Hasher)
    requires |chain| <= 1
    ensures IntegrityOk(chain, digest)
  {
  }

  /** The chain a fresh start builds passes both checks. */
  lemma GenesisChainPasses(now: Timestamp, digest: Hasher)
    ensures IntegrityOk([CreateGenesis(now, digest)], digest)
    ensures HashesOk([CreateGenesis(now, digest)], digest)
    ensures Contiguous([CreateGenesis(now, digest)])
  {
  }

  /** Appending `next_block` of the last block keeps both verdicts and the indices. */
  lemma AppendNextPreserves(chain: seq<Block>, data: string, now: Timestamp, digest: Hasher)
    requires |chain| > 0
    ensures var grown := chain + [NextBlock(chain[|chain| - 1], data, now, digest)];
            (IntegrityOk(chain, digest) ==> IntegrityOk(grown, digest))
            && (HashesOk(chain, digest) ==> HashesOk(grown, digest))
            && (Contiguous(chain) ==> Contiguous(grown))
  {
    var n := |chain|;
    var last := NextBlock(chain[n - 1], data, now, digest);
    var grown := chain + [last];
    assert forall i :: 0 <= i < n ==> grown[i] == chain[i];
    if IntegrityOk(chain, digest) {
      forall i | 1 <= i < |grown| ensures Linked(grown[i - 1], grown[i], digest) {
        if i < n {
          assert Linked(chain[i - 1], chain[i], digest);
        }
      }
    }
    if HashesOk(chain, digest) {
      forall i | 0 <= i < |grown| ensures HashCurrent(grown[i], digest) {
        if i < n {
          assert HashCurrent(chain[i], digest);
        }
      }
    }
  }

  /**
   * The chain after appending each `(data, now)` entry in turn, as `add_block`
   * does: block `|chain| + k` is the successor of the block before it,
   * carrying entry `k`'s data and time.
   */
  function Extend(chain: seq<Block>, entries: seq<(string, Timestamp)>, digest: Hasher): (grown: seq<Block>)
    requires |chain| > 0
    ensures |grown| == |chain| + |entries| && grown[..|chain|] == chain
    ensures forall k :: 0 <= k < |entries| ==>
              grown[|chain| + k] == NextBlock(grown[|chain| + k - 1], entries[k].0, entries[k].1, digest)
    decreases |entries|
  {
    if entries == [] then chain
    else
      var before := Extend(chain, entries[..|entries| - 1], digest);
      before + [NextBlock(before[|before| - 1], entries[|entries| - 1].0, entries[|entries| - 1].1, digest)]
  }

  /**
   * Any sequence of appends to a chain that passes both checks gives a chain
   * that still passes both, with contiguous indices if they were.
   */
  lemma {:induction false} ExtendPreserves(chain: seq<Block>, entries: seq<(string, Timestamp)>, digest: Hasher)
    requires |chain| > 0 && IntegrityOk(chain, digest) && HashesOk(chain, digest)
    ensures var grown := Extend(chain, entries, digest);
            IntegrityOk(grown, digest) && HashesOk(grown, digest)
            && (Contiguous(chain) ==> Contiguous(grown))
    decreases |entries|
  {
    if entries != [] {
      var init := entries[..|entries| - 1];
      var (data, now) := entries[|entries| - 1];
      ExtendPreserves(chain, init, digest);
      var before := Extend(chain, init, digest);
      AppendNextPreserves(before, data, now, digest);
      assert Extend(chain, entries, digest) == before + [NextBlock(before[|before| - 1], data, now, digest)];
    }
  }

  /** Every chain grown from a fresh genesis block passes both checks and is indexed 0, 1, 2, ... */
  lemma GrownFromGenesisPasses(now: Timestamp, entries: seq<(string, Timestamp)>, digest: Hasher)
    ensures var chain := Extend([CreateGenesis(now, digest)], entries, digest);
            IntegrityOk(chain, digest) && HashesOk(chain, digest) && Contiguous(chain)
            && chain[0] == CreateGenesis(now, digest)
  {
    ExtendPreserves([CreateGenesis(now, digest)], entries, digest);
  }

  /** Changing the payload of any block after the first is caught, given a collision-free digest. */
  lemma TamperedDataDetected(chain: seq<Block>, i: int, data: string, digest: Hasher)
    requires Injective(digest)
    requires IntegrityOk(chain, digest) && 1 <= i < |chain| && data != chain[i].data
    ensures !IntegrityOk(chain[i := chain[i].(data := data)], digest)
  {
    var tampered := chain[i := chain[i].(data := data)];
    assert Linked(chain[i - 1], chain[i], digest);
    assert tampered[i].dataHash == digest(chain[i].data);
    assert HashData(tampered[i], digest) == digest(data);
    assert !Linked(tampered[i - 1], tampered[i], digest);
  }

  /** Relinking any block after the first to anything but its predecessor's hash is caught. */
  lemma TamperedLinkDetected(chain: seq<Block>, i: int, previousHash: string, digest: Hasher)
    requires 1 <= i < |chain| && previousHash != chain[i - 1].hash
    ensures !IntegrityOk(chain[i := chain[i].(previousHash := previousHash)], digest)
  {
    var tampered := chain[i := chain[i].(previousHash := previousHash)];
    assert !Linked(tampered[i - 1], tampered[i], digest);
  }

  /** Overwriting the stored hash of any block, the first included, is caught by the second check. */
  lemma TamperedHashDetected(chain: seq<Block>, i: int, hash: string, digest: Hasher)
    requires HashesOk(chain, digest) && 0 <= i < |chain| && hash != chain[i].hash
    ensures !HashesOk(chain[i := chain[i].(hash := hash)], digest)
  {
    var tampered := chain[i := chain[i].(hash := hash)];
    assert HashBlock(tampered[i], digest) == HashBlock(chain[i], digest);
  }

  /**
   * Neither check looks at the payload of the first block: `check_integrity`
   * starts at the second block, and `hash_block` reads the stored data hash,
   * not the payload. Replacing that payload changes neither verdict.
   */
  lemma GenesisDataUnchecked(chain: seq<Block>, data: string, digest: Hasher)
    requires |chain| > 0
    ensures IntegrityOk(chain[0 := chain[0].(data := data)], digest) == IntegrityOk(chain, digest)
    ensures HashesOk(chain[0 := chain[0].(data := data)], digest) == HashesOk(chain, digest)
  {
    var tampered := chain[0 := chain[0].(data := data)];
    assert tampered[0].hash == chain[0].hash;
    assert HashBlock(tampered[0], digest) == HashBlock(chain[0], digest);
    assert forall i :: 1 <= i < |chain| ==> tampered[i] == chain[i];
  }
}

/**
 * A block of the ledger: its fields, the two digests it carries and the
 * three ways the program builds one (the constructor, `next_block` and
 * `create_genesis`). The SHA-256 hex digest is not modelled: every function
 * takes it as a parameter `digest`, about which nothing is assumed.
 */
module Blocks {
  import opened Decimal
  import opened DateTimes

  /** A text-to-text digest, standing for `hashlib.sha256(text.encode()).hexdigest()`. */
  type Hasher = string -> string

  /** The hypothesis of the tamper lemmas: the digest never maps two texts to one value. */
  ghost predicate Injective(digest: Hasher) {
    forall x, y :: digest(x) == digest(y) ==> x == y
  }

  /** Label of the first block. */
  const GENESIS_DATA := "Genesis Block"
  /** `previous_hash` of the first block, which has no predecessor. */
  const GENESIS_PREVIOUS_HASH := "0"

  datatype Block = Block(
    index: int,
    timestamp: Timestamp,
    data: string,
    previousHash: string,
    dataHash: string,
    hash: string)

  /** `hash_data`: the digest of the payload alone. */
  function HashData(b: Block, digest: Hasher): string {
    digest(b.data)
  }

  /**
   * `hash_block`: the digest of index, timestamp, data hash and previous
   * hash, as text, concatenated in that order. It reads the STORED data hash,
   * not the payload.
   */
  function HashBlock(b: Block, digest: Hasher): string {
    digest(IntText(b.index) + Render(b.timestamp) + b.dataHash + b.previousHash)
  }

  /** `hash_data` reads the payload alone, and with a collision-free digest it tells payloads apart. */
  lemma HashDataDecidesPayload(b: Block, c: Block, digest: Hasher)
    ensures b.data == c.data ==> HashData(b, digest) == HashData(c, digest)
    ensures Injective(digest) && HashData(b, digest) == HashData(c, digest) ==> b.data == c.data
  {
  }

  /**
   * `hash_block` reads index, timestamp, stored data hash and previous hash,
   * and neither the payload nor the stored hash. With a collision-free digest,
   * two blocks that agree on index, timestamp and previous hash get the same
   * hash only when their stored data hashes agree.
   */
  lemma HashBlockReadsHeader(b: Block, c: Block, digest: Hasher)
    ensures (b.index == c.index && b.timestamp == c.timestamp && b.dataHash == c.dataHash
             && b.previousHash == c.previousHash)
            ==> HashBlock(b, digest) == HashBlock(c, digest)
    ensures (Injective(digest) && b.index == c.index && b.timestamp == c.timestamp
             && b.previousHash == c.previousHash && HashBlock(b, digest) == HashBlock(c, digest))
            ==> b.dataHash == c.dataHash
  {
    if Injective(digest) && b.index == c.index && b.timestamp == c.timestamp
       && b.previousHash == c.previousHash && HashBlock(b, digest) == HashBlock(c, digest) {
      var header := IntText(b.index) + Render(b.timestamp);
      assert header + b.dataHash + b.previousHash == header + c.dataHash + c.previousHash;
      CancelAround(header, b.dataHash, c.dataHash, b.previousHash);
    }
  }

  lemma CancelAround(p: string, x: string, y: string, q: string)
    requires p + x + q == p + y + q
    ensures x == y
  {
    assert |x| == |y|;
    assert x == (p + x + q)[|p|..|p| + |x|];
    assert y == (p + y + q)[|p|..|p| + |y|];
  }

  /** Both stored digests agree with a fresh computation. */
  predicate Sealed(b: Block, digest: Hasher) {
    b.dataHash == HashData(b, digest) && b.hash == HashBlock(b, digest)
  }

  /**
   * `Block(index, timestamp, data, previous_hash)`: the four given fields are
   * set first, then `data_hash`, then `hash` from the fields set so far.
   */
  function NewBlock(index: int, timestamp: Timestamp, data: string, previousHash: string, digest: Hasher): (b: Block)
    ensures b.index == index && b.timestamp == timestamp && b.data == data && b.previousHash == previousHash
    ensures b.dataHash == digest(data)
    ensures Sealed(b, digest)
  {
    var fields := Block(index, timestamp, data, previousHash, "", "");
    var withDataHash := fields.(dataHash := HashData(fields, digest));
    withDataHash.(hash := HashBlock(withDataHash, digest))
  }

  /** `next_block`: the successor of `last`, stamped `now`, linked to `last.hash`. */
  function NextBlock(last: Block, data: string, now: Timestamp, digest: Hasher): (b: Block)
    ensures b.index == last.index + 1 && b.previousHash == last.hash
    ensures b.data == data && b.timestamp == now
    ensures Sealed(b, digest)
  {
    NewBlock(last.index + 1, now, data, last.hash, digest)
  }

  /** `create_genesis`: index 0, the fixed label and the sentinel previous hash. */
  function CreateGenesis(now: Timestamp, digest: Hasher): (b: Block)
    ensures b.index == 0 && b.data == GENESIS_DATA && b.previousHash == GENESIS_PREVIOUS_HASH
    ensures b.timestamp == now
    ensures Sealed(b, digest)
  {
    NewBlock(0, now, GENESIS_DATA, GENESIS_PREVIOUS_HASH, digest)
  }
}

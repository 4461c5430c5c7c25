/**
 * A block: position in its shard's chain, the transaction dicts it
 * carries, the predecessor's hash, a nonce, a creation time, the stored
 * hash, and the energy source that the consensus engine attaches once
 * the block is mined (absent until then).
 */
module Blocks {
  import opened Base
  import opened Text

  datatype Block = Block(
    index: int,
    transactions: seq<Json>,
    previousHash: string,
    nonce: int,
    timestamp: real,
    hash: string,
    energySource: Option<string>)

  /** The five keys `calculate_hash` serialises. */
  const HashedKeys: set<string> := {"index", "transactions", "previous_hash", "nonce", "timestamp"}

  /** The dict `calculate_hash` serialises, for explicit field values. */
  function HashedDict(index: int, transactions: seq<Json>, previousHash: string, nonce: int, timestamp: real): (d: Json)
    ensures d.JObj? && d.fields.Keys == HashedKeys
  {
    JObj(map[
      "index" := JInt(index),
      "transactions" := JList(transactions),
      "previous_hash" := JStr(previousHash),
      "nonce" := JInt(nonce),
      "timestamp" := JNum(timestamp)])
  }

  /** The serialised dict distinguishes every one of the five fields. */
  lemma HashedDictInjective(
    i1: int, t1: seq<Json>, p1: string, n1: int, s1: real,
    i2: int, t2: seq<Json>, p2: string, n2: int, s2: real)
    ensures HashedDict(i1, t1, p1, n1, s1) == HashedDict(i2, t2, p2, n2, s2)
        <==> i1 == i2 && t1 == t2 && p1 == p2 && n1 == n2 && s1 == s2
  {
    if HashedDict(i1, t1, p1, n1, s1) == HashedDict(i2, t2, p2, n2, s2) {
      var d1, d2 := HashedDict(i1, t1, p1, n1, s1).fields, HashedDict(i2, t2, p2, n2, s2).fields;
      assert d1["index"] == d2["index"] && d1["transactions"] == d2["transactions"];
      assert d1["previous_hash"] == d2["previous_hash"] && d1["nonce"] == d2["nonce"];
      assert d1["timestamp"] == d2["timestamp"];
    }
  }

  /** The hash of `b`'s fields with the nonce replaced by `nonce`. */
  function HashAt(b: Block, nonce: int, digest: Digest): string
  {
    digest(HashedDict(b.index, b.transactions, b.previousHash, nonce, b.timestamp))
  }

  /** `calculate_hash`. */
  function CalculateHash(b: Block, digest: Digest): string
  {
    HashAt(b, b.nonce, digest)
  }

  /** The stored hash is the digest of the current field values. */
  predicate Consistent(b: Block, digest: Digest)
  {
    b.hash == CalculateHash(b, digest)
  }

  /** The hash ignores the stored hash and the energy source: only the five serialised fields matter. */
  lemma HashIgnoresHashAndSource(a: Block, b: Block, digest: Digest)
    requires a.index == b.index && a.transactions == b.transactions && a.previousHash == b.previousHash
    requires a.nonce == b.nonce && a.timestamp == b.timestamp
    ensures CalculateHash(a, digest) == CalculateHash(b, digest)
  {
  }

  /** `Block(index, transactions, previous_hash, nonce)`, where `now` is the `time.time()` reading. */
  function NewBlock(index: int, transactions: seq<Json>, previousHash: string, nonce: int, now: real, digest: Digest): (b: Block)
    ensures b.index == index && b.transactions == transactions && b.previousHash == previousHash
    ensures b.nonce == nonce && b.timestamp == now && b.energySource == None
    ensures Consistent(b, digest)
  {
    var b := Block(index, transactions, previousHash, nonce, now, "", None);
    b.(hash := CalculateHash(b, digest))
  }

  /**
   * `mine_block`: bumps the nonce and rehashes until the stored hash starts
   * with `difficulty` zeros. The loop tests the stored hash first, so a block
   * that already qualifies is returned untouched. The search is unbounded in
   * the source; here a nonce `hit` beyond the start that qualifies must
   * exist, which bounds the loop.
   */
  method MineBlock(b: Block, difficulty: int, digest: Digest, ghost hit: int) returns (mined: Block)
    requires StartsWith(b.hash, Zeros(difficulty))
          || (b.nonce < hit && StartsWith(HashAt(b, hit, digest), Zeros(difficulty)))
    ensures StartsWith(mined.hash, Zeros(difficulty))
    ensures mined == b.(nonce := mined.nonce, hash := mined.hash)
    ensures mined.nonce >= b.nonce
    ensures mined.nonce > b.nonce ==> Consistent(mined, digest)
    ensures Consistent(b, digest) ==> Consistent(mined, digest)
    ensures StartsWith(b.hash, Zeros(difficulty)) ==> mined == b
    ensures difficulty <= 0 ==> mined == b
    ensures forall n :: b.nonce < n < mined.nonce ==> !StartsWith(HashAt(b, n, digest), Zeros(difficulty))
  {
    var target := Zeros(difficulty);
    mined := b;
    while !StartsWith(mined.hash, target)
      invariant mined == b.(nonce := mined.nonce, hash := mined.hash)
      invariant mined.nonce >= b.nonce
      invariant mined.nonce == b.nonce ==> mined == b
      invariant StartsWith(b.hash, target) ==> mined == b
      invariant mined.nonce > b.nonce ==> mined.hash == HashAt(b, mined.nonce, digest)
      invariant !StartsWith(mined.hash, target) ==> mined.nonce < hit && StartsWith(HashAt(b, hit, digest), target)
      invariant forall n :: b.nonce < n < mined.nonce ==> !StartsWith(HashAt(b, n, digest), target)
      decreases hit - mined.nonce
    {
      var next := mined.nonce + 1;
      mined := mined.(nonce := next, hash := HashAt(b, next, digest));
    }
  }
}

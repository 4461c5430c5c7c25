/**
 * A shard: an identifier, a chain of blocks that starts with a genesis
 * block, and a FIFO queue of pending transactions.
 */
module Shards {
  import opened Base
  import opened Blocks
  import opened Transactions

  /** The `previous_hash` of every genesis block. */
  const GenesisPreviousHash: string := "0"

  datatype Shard = Shard(id: int, chain: seq<Block>, pending: seq<Transaction>)

  /**
   * Index and linkage: the chain starts at index 0 with the sentinel
   * previous hash, and every later block sits at its own index and names
   * the stored hash of its predecessor.
   */
  predicate ValidChain(chain: seq<Block>)
  {
    && |chain| > 0
    && chain[0].index == 0
    && chain[0].previousHash == GenesisPreviousHash
    && forall i :: 0 < i < |chain| ==> chain[i].index == i && chain[i].previousHash == chain[i - 1].hash
  }

  /** `Shard(shard_id)`: one genesis block and an empty queue; `now` is the genesis timestamp. */
  function NewShard(id: int, now: real, digest: Digest): (s: Shard)
    ensures s.id == id && s.pending == []
    ensures |s.chain| == 1
    ensures s.chain[0].index == 0 && s.chain[0].transactions == [] && s.chain[0].previousHash == "0"
    ensures s.chain[0].nonce == 0 && Consistent(s.chain[0], digest)
    ensures ValidChain(s.chain)
  {
    Shard(id, [NewBlock(0, [], GenesisPreviousHash, 0, now, digest)], [])
  }

  /** `get_latest_block`: the chain's tail. Every shard is built with a genesis block and only ever appended to, so the chain is never empty. */
  function LatestBlock(s: Shard): (b: Block)
    requires |s.chain| > 0
    ensures b in s.chain
    ensures ValidChain(s.chain) ==> b.index == |s.chain| - 1
  {
    s.chain[|s.chain| - 1]
  }

  /** `add_block`: appends without any linkage check; the queue is untouched. */
  function AddBlock(s: Shard, b: Block): (r: Shard)
    ensures |r.chain| == |s.chain| + 1
    ensures r.chain[..|s.chain|] == s.chain && r.chain[|s.chain|] == b
    ensures r.id == s.id && r.pending == s.pending
  {
    s.(chain := s.chain + [b])
  }

  /** `add_transaction`: enqueues at the back, without validation. */
  function AddTransaction(s: Shard, t: Transaction): (r: Shard)
    ensures |r.pending| == |s.pending| + 1
    ensures r.pending[..|s.pending|] == s.pending && r.pending[|s.pending|] == t
    ensures r.id == s.id && r.chain == s.chain
  {
    s.(pending := s.pending + [t])
  }

  /**
   * `create_block`: with nothing pending, no block and no change; otherwise
   * drains the whole queue, in order, into an unmined block that extends
   * the current tail. The chain itself is not extended here.
   */
  function CreateBlock(s: Shard, now: real, digest: Digest): (r: (Option<Block>, Shard))
    requires |s.chain| > 0
    ensures s.pending == [] <==> r.0 == None
    ensures s.pending == [] ==> r.1 == s
    ensures s.pending != [] ==> r.1 == s.(pending := [])
    ensures r.0.Some? ==>
      var b := r.0.value;
      && b.index == |s.chain|
      && b.previousHash == LatestBlock(s).hash
      && b.transactions == Dicts(s.pending)
      && b.nonce == 0 && b.timestamp == now && b.energySource == None
      && Consistent(b, digest)
  {
    if s.pending == [] then (None, s)
    else
      var b := NewBlock(|s.chain|, Dicts(s.pending), LatestBlock(s).hash, 0, now, digest);
      (Some(b), s.(pending := []))
  }

  /**
   * A block built by `create_block`, then mined (which may change only its
   * nonce, stored hash and energy source), then added, keeps the chain valid.
   */
  lemma {:induction false} CreateThenAddKeepsChainValid(s: Shard, now: real, digest: Digest, mined: Block)
    requires ValidChain(s.chain)
    requires CreateBlock(s, now, digest).0.Some?
    requires mined.index == CreateBlock(s, now, digest).0.value.index
    requires mined.previousHash == CreateBlock(s, now, digest).0.value.previousHash
    ensures ValidChain(AddBlock(CreateBlock(s, now, digest).1, mined).chain)
  {
    var c := AddBlock(CreateBlock(s, now, digest).1, mined).chain;
    forall i | 0 < i < |c|
      ensures c[i].index == i && c[i].previousHash == c[i - 1].hash
    {
      if i < |s.chain| {
        assert c[i] == s.chain[i] && c[i - 1] == s.chain[i - 1];
      } else {
        assert c[i] == mined && c[i - 1] == LatestBlock(s);
      }
    }
  }
}

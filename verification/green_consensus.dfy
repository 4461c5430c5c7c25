/**
 * The green consensus layer: block validation and mining delegate to the
 * proof-of-work engine; the miner's reward halves every 210000 blocks
 * and is issued as a transaction from the "Network" address through the
 * ledger's `add_transaction`.
 */
module GreenConsensus {
  import opened Base
  import opened Balances
  import opened Text
  import opened Transactions
  import opened Blocks
  import opened Shards
  import opened GreenPow
  import Ledger
  import Coordinator

  const BlockReward: nat := 50
  const HalvingInterval: nat := 210000

  /** The sender of every reward transaction. */
  const NetworkAddress: string := "Network"

  function Pow2(n: nat): (p: nat)
    ensures p >= 1
  {
    if n == 0 then 1 else 2 * Pow2(n - 1)
  }

  lemma {:induction false} Pow2Monotone(a: nat, b: nat)
    requires a <= b
    ensures Pow2(a) <= Pow2(b)
    decreases b
  {
    if a < b {
      Pow2Monotone(a, b - 1);
    }
  }

  /** `reward_miner`'s formula: `max(1, 50 // 2 ** (height // 210000))`. */
  function Reward(height: nat): (r: nat)
    ensures 1 <= r <= BlockReward
    ensures height < HalvingInterval ==> r == BlockReward
  {
    var halvings := height / HalvingInterval;
    var halved := BlockReward / Pow2(halvings);
    if 1 >= halved then 1 else halved
  }

  /** Dividing by a larger positive number gives no more. */
  lemma DivAntitone(a: nat, d1: nat, d2: nat)
    requires 0 < d1 <= d2
    ensures a / d2 <= a / d1
  {
    var q, q1 := a / d2, a / d1;
    assert q * d2 + a % d2 == a;
    assert q1 * d1 + a % d1 == a && a % d1 < d1;
    MulLeq(q, d1, d2);
    if q > q1 {
      MulLeq(d1, q1 + 1, q);
    }
  }

  lemma MulLeq(k: nat, x: nat, y: nat)
    requires x <= y
    ensures k * x <= k * y
  {
    assert k * y == k * x + k * (y - x);
  }

  /** The reward never grows with the height. */
  lemma RewardNonIncreasing(h1: nat, h2: nat)
    requires h1 <= h2
    ensures Reward(h2) <= Reward(h1)
  {
    assert h1 / HalvingInterval <= h2 / HalvingInterval;
    Pow2Monotone(h1 / HalvingInterval, h2 / HalvingInterval);
    DivAntitone(BlockReward, Pow2(h1 / HalvingInterval), Pow2(h2 / HalvingInterval));
  }

  /** 50 at the start, 25 after one halving, 12 after two, and the floor of 1 from the sixth on. */
  lemma RewardSchedule()
    ensures Reward(0) == 50 && Reward(209999) == 50
    ensures Reward(210000) == 25 && Reward(420000) == 12 && Reward(630000) == 6
    ensures Reward(1260000) == 1
  {
    assert Pow2(1) == 2 && Pow2(2) == 4 && Pow2(3) == 8;
    assert Pow2(6) == 64 by {
      assert Pow2(4) == 16 && Pow2(5) == 32;
    }
  }

  /** The reward transaction: `Transaction("Network", miner, reward, "QFC")`. */
  function RewardTransaction(miner: string, height: nat, now: real): (t: Transaction)
    ensures t.sender == NetworkAddress && t.recipient == miner && t.asset == NativeAsset
    ensures t.amount == Reward(height) as real && t.amount >= 1.0
  {
    NewTransaction(NetworkAddress, miner, Reward(height) as real, NativeAsset, now)
  }

  /**
   * `reward_miner`, with the height given explicitly: submits the reward
   * transaction through the ledger and returns nothing (Python's `None`),
   * so only the ledger it leaves behind is modelled. The reward is never
   * credited: unless "Network" holds the full cost the ledger rejects it,
   * and if it does, routing the sender raises `ValueError`, because 'N' is
   * not a hex digit.
   */
  function RewardMiner(l: Ledger.Ledger, miner: string, height: nat, now: real): (r: Result<Ledger.Ledger>)
    ensures Ledger.Balance(l, NetworkAddress) < TotalCost(RewardTransaction(miner, height, now)) ==> r == Ok(l)
    ensures Ledger.Balance(l, NetworkAddress) >= TotalCost(RewardTransaction(miner, height, now)) ==> r == Raised(ValueError)
    ensures r.Ok? ==> r.value == l
  {
    var t := RewardTransaction(miner, height, now);
    assert !IsHexDigit(t.sender[0]);
    match Ledger.AddTransaction(l, t)
    case Raised(e) => Raised(e)
    case Ok((_, l')) => Ok(l')
  }

  /** `mine_block`: hands the serialised block to the engine's `mine` unchanged. */
  method MineBlock(st: PowState, blockData: string, miner: string, pick: nat, elapsed: real, powHash: PowHash, ghost hit: nat)
    returns (nonce: nat, hash: string, source: string, st': PowState)
    requires pick < |Renewables|
    requires StartsWith(GreenPow.CalculateHash(powHash, blockData, hit, Renewables[pick]), Zeros(st.difficulty))
    ensures source == Renewables[pick]
    ensures hash == GreenPow.CalculateHash(powHash, blockData, nonce, source)
    ensures StartsWith(hash, Zeros(st.difficulty))
    ensures forall n :: 0 <= n < nonce ==> !StartsWith(GreenPow.CalculateHash(powHash, blockData, n, source), Zeros(st.difficulty))
    ensures st' == AwardCarbonCredits(AdjustDifficulty(st.(blockTimes := st.blockTimes + [elapsed])), miner, source)
  {
    nonce, hash, source, st' := Mine(st, blockData, miner, pick, elapsed, powHash, hit);
  }

  /**
   * `validate_block` as written: the block's energy source is read first
   * (an unmined block has none: `AttributeError`), then `verify` calls
   * `to_dict()` on each of the block's transactions, which are already
   * dicts (`AttributeError` again). Only a block without transactions
   * gets a verdict.
   */
  function ValidateBlockAsWritten(st: PowState, dumps: Dumps, powHash: PowHash, b: Block): (r: Result<bool>)
    ensures r.Ok? <==> b.energySource.Some? && b.transactions == []
    ensures r.Raised? ==> r.exc == AttributeError
    ensures r.Ok? ==> r.value == Verify(st, dumps, powHash, [], b.nonce, b.hash, b.energySource.value)
  {
    if b.energySource.None? then Raised(AttributeError)
    else if |b.transactions| > 0 then Raised(AttributeError)
    else Ok(Verify(st, dumps, powHash, [], b.nonce, b.hash, b.energySource.value))
  }

  /**
   * `validate_block` as evidently intended: the block's transaction dicts
   * are serialised as they are, and a block without an energy source is
   * invalid. For a block built from pending transactions this is exactly
   * `verify` applied to those transactions and the block's nonce, hash and
   * energy source.
   */
  function ValidateBlock(st: PowState, dumps: Dumps, powHash: PowHash, b: Block): (ok: bool)
    ensures b.energySource.None? ==> !ok
    ensures forall txs: seq<Transaction> :: b.transactions == Dicts(txs) && b.energySource.Some? ==>
      (ok <==> Verify(st, dumps, powHash, txs, b.nonce, b.hash, b.energySource.value))
  {
    b.energySource.Some? && VerifyData(st, powHash, dumps(JList(b.transactions)), b.nonce, b.hash, b.energySource.value)
  }

  /**
   * The discrepancy: every block `create_block` builds carries the drained
   * transactions, so once mined (energy source attached) the as-written
   * validation raises on it, while the intended one gives `verify`'s verdict
   * on the drained transactions.
   */
  lemma ValidateAsWrittenRaisesOnEveryBuiltBlock(
    s: Shard, now: real, digest: Digest, source: string, nonce: int, hash: string,
    st: PowState, dumps: Dumps, powHash: PowHash)
    requires |s.chain| > 0 && s.pending != []
    ensures var b := CreateBlock(s, now, digest).0.value.(energySource := Some(source), nonce := nonce, hash := hash);
      && ValidateBlockAsWritten(st, dumps, powHash, b) == Raised(AttributeError)
      && (ValidateBlock(st, dumps, powHash, b) <==> Verify(st, dumps, powHash, s.pending, nonce, hash, source))
  {
  }
}

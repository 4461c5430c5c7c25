/**
 * The green proof-of-work engine: a nonce search whose hash also covers
 * the renewable energy source picked for the attempt, a symmetric
 * difficulty retarget over a window of block times, and carbon-credit
 * accrual per source. Wall-clock time, the random source choice and
 * SHA-256 are parameters.
 */
module GreenPow {
  import opened Base
  import opened Balances
  import opened Text
  import opened Transactions

  /** `renewable_energy_sources`, in the order `random.choice` indexes them. */
  const Renewables: seq<string> := ["solar", "wind", "hydro", "geothermal"]

  const BaseCredit: real := 1.0

  /** Carbon credits per block mined on each source. */
  const Multiplier: map<string, real> := map["solar" := 1.2, "wind" := 1.1, "hydro" := 1.0, "geothermal" := 1.3]

  datatype PowState = PowState(
    difficulty: int,
    targetBlockTime: real,
    adjustmentInterval: int,
    blockTimes: seq<real>,
    carbonCredits: map<string, real>)

  /** `GreenProofOfWork(initial_difficulty, target_block_time, adjustment_interval)`. */
  function NewPow(initialDifficulty: int, targetBlockTime: real, adjustmentInterval: int): (st: PowState)
    ensures st.difficulty == initialDifficulty && st.blockTimes == [] && st.carbonCredits == map[]
    ensures st.targetBlockTime == targetBlockTime && st.adjustmentInterval == adjustmentInterval
  {
    PowState(initialDifficulty, targetBlockTime, adjustmentInterval, [], map[])
  }

  /** The constructor's defaults: difficulty 4, a 60-second target, a window of 10 blocks. */
  const DefaultPow: PowState := NewPow(4, 60.0, 10)

  /** `sha256(f"{block_data}{nonce}{energy_source}").hexdigest()`, left abstract. */
  type PowHash = (string, int, string) -> string

  /** `json.dumps` (without sorted keys), left abstract. */
  type Dumps = Json -> string

  /** `calculate_hash(block_data, nonce, energy_source)`. */
  function CalculateHash(powHash: PowHash, blockData: string, nonce: int, source: string): string
  {
    powHash(blockData, nonce, source)
  }

  function Sum(s: seq<real>): real
  {
    if |s| == 0 then 0.0 else Sum(s[..|s| - 1]) + s[|s| - 1]
  }

  /** The window holds at least `adjustment_interval` block times. */
  predicate FullWindow(st: PowState)
  {
    |st.blockTimes| >= st.adjustmentInterval
  }

  function Mean(s: seq<real>): real
    requires |s| > 0
  {
    Sum(s) / |s| as real
  }

  /**
   * `adjust_difficulty`. A full window is averaged: faster than the target
   * raises the difficulty by one, slower lowers it by one but not below 1,
   * on target keeps it; the window is then emptied. An empty window counts
   * as full only when the interval is not positive, and then the mean would
   * divide by zero, so that case is excluded.
   */
  function AdjustDifficulty(st: PowState): (r: PowState)
    requires FullWindow(st) ==> |st.blockTimes| > 0
    ensures !FullWindow(st) ==> r == st
    ensures FullWindow(st) ==>
      && r == st.(difficulty := r.difficulty, blockTimes := [])
      && (Mean(st.blockTimes) < st.targetBlockTime ==> r.difficulty == st.difficulty + 1)
      && (Mean(st.blockTimes) > st.targetBlockTime ==> r.difficulty == (if st.difficulty - 1 > 1 then st.difficulty - 1 else 1))
      && (Mean(st.blockTimes) == st.targetBlockTime ==> r.difficulty == st.difficulty)
    ensures st.difficulty >= 0 ==> st.difficulty - 1 <= r.difficulty <= st.difficulty + 1
    ensures st.difficulty >= 1 ==> r.difficulty >= 1
  {
    if FullWindow(st) then
      var average := Mean(st.blockTimes);
      var d :=
        if average < st.targetBlockTime then st.difficulty + 1
        else if average > st.targetBlockTime then (if 1 >= st.difficulty - 1 then 1 else st.difficulty - 1)
        else st.difficulty;
      st.(difficulty := d, blockTimes := [])
    else st
  }

  /** A sum of values all below (above) a bound is below (above) that bound times the count. */
  lemma {:induction false} SumBounds(s: seq<real>, bound: real)
    requires |s| > 0
    ensures (forall i :: 0 <= i < |s| ==> s[i] < bound) ==> Sum(s) < bound * |s| as real
    ensures (forall i :: 0 <= i < |s| ==> s[i] > bound) ==> Sum(s) > bound * |s| as real
  {
    if |s| > 1 {
      SumBounds(s[..|s| - 1], bound);
      assert forall i :: 0 <= i < |s| - 1 ==> s[..|s| - 1][i] == s[i];
    }
  }

  /** A full window of block times all faster than the target raises the difficulty by exactly one. */
  lemma AllFastRaises(st: PowState)
    requires FullWindow(st) && |st.blockTimes| > 0
    requires forall i :: 0 <= i < |st.blockTimes| ==> st.blockTimes[i] < st.targetBlockTime
    ensures AdjustDifficulty(st).difficulty == st.difficulty + 1
  {
    SumBounds(st.blockTimes, st.targetBlockTime);
  }

  /** A full window of block times all slower than the target lowers the difficulty by one, never below 1. */
  lemma AllSlowLowers(st: PowState)
    requires FullWindow(st) && |st.blockTimes| > 0
    requires forall i :: 0 <= i < |st.blockTimes| ==> st.blockTimes[i] > st.targetBlockTime
    ensures AdjustDifficulty(st).difficulty == (if st.difficulty - 1 > 1 then st.difficulty - 1 else 1)
  {
    SumBounds(st.blockTimes, st.targetBlockTime);
  }

  /** `verify`'s check on serialised block data, against the CURRENT difficulty. */
  predicate VerifyData(st: PowState, powHash: PowHash, blockData: string, nonce: int, hash: string, source: string)
  {
    && CalculateHash(powHash, blockData, nonce, source) == hash
    && StartsWith(hash, Zeros(st.difficulty))
    && source in Renewables
  }

  /**
   * `verify(transactions, nonce, block_hash, energy_source)`: serialises the
   * transactions' dicts and checks the hash, the prefix and the source. It
   * reads nothing of the state but the difficulty, and changes nothing.
   */
  function Verify(st: PowState, dumps: Dumps, powHash: PowHash, txs: seq<Transaction>, nonce: int, hash: string, source: string): (ok: bool)
    ensures ok <==> VerifyData(st, powHash, dumps(JList(Dicts(txs))), nonce, hash, source)
    ensures forall other: PowState :: other.difficulty == st.difficulty ==>
      (ok <==> VerifyData(other, powHash, dumps(JList(Dicts(txs))), nonce, hash, source))
  {
    VerifyData(st, powHash, dumps(JList(Dicts(txs))), nonce, hash, source)
  }

  /** A hash that meets a difficulty meets every lower one. */
  lemma {:induction false} PrefixWeakens(hash: string, d: int, lower: int)
    requires StartsWith(hash, Zeros(d)) && lower <= d
    ensures StartsWith(hash, Zeros(lower))
  {
    var z, zl := Zeros(d), Zeros(lower);
    assert |zl| <= |z|;
    forall i | 0 <= i < |zl|
      ensures hash[i] == zl[i]
    {
      assert hash[..|z|][i] == z[i];
    }
    assert hash[..|zl|] == zl;
  }

  /**
   * `award_carbon_credits`: credits the miner with the source's multiplier
   * (the account starts at zero) and leaves every other account alone, so
   * no account ever loses credits here. An unknown source raises `KeyError`
   * in the source; it is excluded.
   */
  function AwardCarbonCredits(st: PowState, miner: string, source: string): (r: PowState)
    requires source in Multiplier
    ensures r == st.(carbonCredits := r.carbonCredits)
    ensures r.carbonCredits.Keys == st.carbonCredits.Keys + {miner}
    ensures r.carbonCredits[miner] == Get(st.carbonCredits, miner) + Multiplier[source]
    ensures forall a :: a in st.carbonCredits && a != miner ==> r.carbonCredits[a] == st.carbonCredits[a]
    ensures forall a :: a in r.carbonCredits ==> r.carbonCredits[a] >= Get(st.carbonCredits, a)
  {
    var credits := BaseCredit * Multiplier[source];
    st.(carbonCredits := st.carbonCredits[miner := Get(st.carbonCredits, miner) + credits])
  }

  /** The multiplier table covers exactly the renewable sources `mine` can pick. */
  lemma MultipliersCoverRenewables()
    ensures forall s :: s in Renewables <==> s in Multiplier
  {
  }

  /**
   * `mine`: picks the source (`pick` stands for `random.choice`), then tries
   * nonces 0, 1, 2, ... until the hash has `difficulty` leading zeros, the
   * difficulty being read once, before the search. It then records the
   * elapsed time, retargets and awards credits. The unbounded search is
   * bounded here by a qualifying nonce `hit` that must exist.
   */
  method Mine(st: PowState, blockData: string, miner: string, pick: nat, elapsed: real, powHash: PowHash, ghost hit: nat)
    returns (nonce: nat, hash: string, source: string, st': PowState)
    requires pick < |Renewables|
    requires StartsWith(CalculateHash(powHash, blockData, hit, Renewables[pick]), Zeros(st.difficulty))
    ensures source == Renewables[pick] && source in Renewables
    ensures hash == CalculateHash(powHash, blockData, nonce, source)
    ensures StartsWith(hash, Zeros(st.difficulty))
    ensures nonce <= hit
    ensures forall n :: 0 <= n < nonce ==> !StartsWith(CalculateHash(powHash, blockData, n, source), Zeros(st.difficulty))
    ensures st' == AwardCarbonCredits(AdjustDifficulty(st.(blockTimes := st.blockTimes + [elapsed])), miner, source)
    ensures 1 <= st.adjustmentInterval && |st.blockTimes| < st.adjustmentInterval
            ==> |st'.blockTimes| < st'.adjustmentInterval
    ensures VerifyData(st', powHash, blockData, nonce, hash, source) <==> StartsWith(hash, Zeros(st'.difficulty))
    ensures st'.difficulty <= st.difficulty ==> VerifyData(st', powHash, blockData, nonce, hash, source)
  {
    var target := Zeros(st.difficulty);
    source := Renewables[pick];
    nonce := 0;
    hash := CalculateHash(powHash, blockData, nonce, source);
    while !StartsWith(hash, target)
      invariant nonce <= hit
      invariant hash == CalculateHash(powHash, blockData, nonce, source)
      invariant forall n :: 0 <= n < nonce ==> !StartsWith(CalculateHash(powHash, blockData, n, source), target)
      decreases hit - nonce
    {
      nonce := nonce + 1;
      hash := CalculateHash(powHash, blockData, nonce, source);
    }
    var recorded := st.(blockTimes := st.blockTimes + [elapsed]);
    var adjusted := AdjustDifficulty(recorded);
    st' := AwardCarbonCredits(adjusted, miner, source);
    if st'.difficulty <= st.difficulty {
      PrefixWeakens(hash, st.difficulty, st'.difficulty);
    }
  }
}

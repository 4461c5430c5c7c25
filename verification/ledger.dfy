/**
 * The ledger (`Blockchain`): its shards and the native-asset balance
 * table. A transaction is validated against the sender's balance, queued
 * on the sender's shard, and applied to the balance table; the fee is
 * burnt, not credited to anyone.
 */
module Ledger {
  import opened Base
  import opened Balances
  import opened Transactions
  import opened Shards
  import Blocks
  import Coordinator

  /** The supply recorded for the native asset (recorded, never enforced). */
  const TotalSupply: int := 1_000_000_000

  datatype Ledger = Ledger(numShards: nat, difficulty: int, shards: seq<Shard>, balances: map<string, real>)

  /**
   * `Blockchain(num_shards, difficulty)`: fresh shards `0 .. num_shards-1`
   * and no balances. Each shard's genesis block reads the clock on its
   * own; `clock(i)` is the reading taken while shard `i` is built.
   */
  function NewLedger(numShards: nat, difficulty: int, clock: nat -> real, digest: Base.Digest): (l: Ledger)
    ensures |l.shards| == numShards && l.balances == map[]
    ensures forall i: nat :: i < numShards ==> l.shards[i] == NewShard(i, clock(i), digest)
  {
    Ledger(numShards, difficulty, seq(numShards, i requires 0 <= i => NewShard(i, clock(i), digest)), map[])
  }

  /** `get_latest_block`: the tail of shard 0, taken as the main shard. */
  function LatestBlock(l: Ledger): (b: Blocks.Block)
    requires |l.shards| > 0 && |l.shards[0].chain| > 0
    ensures b == Shards.LatestBlock(l.shards[0])
  {
    Shards.LatestBlock(l.shards[0])
  }

  /** `get_qfc_balance`: zero for an unknown address, never fails. */
  function Balance(l: Ledger, address: string): (b: real)
    ensures address !in l.balances ==> b == 0.0
    ensures address in l.balances ==> b == l.balances[address]
  {
    Get(l.balances, address)
  }

  /** `verify_transaction`. */
  function VerifyTransaction(l: Ledger, t: Transaction): (ok: bool)
    ensures ok <==> t.amount > 0.0 && Balance(l, t.sender) >= TotalCost(t)
  {
    if t.amount <= 0.0 then false
    else if Balance(l, t.sender) < TotalCost(t) then false
    else true
  }

  /**
   * `update_qfc_balances`. Both balances are read before either is
   * written, so when sender and recipient coincide the second write wins
   * and the address ends at its old balance plus the amount.
   */
  function UpdateBalances(balances: map<string, real>, t: Transaction): (r: map<string, real>)
    ensures Get(balances, t.sender) < TotalCost(t) ==> r == balances
    ensures Get(balances, t.sender) >= TotalCost(t) ==>
      && r.Keys == balances.Keys + {t.sender, t.recipient}
      && (t.sender != t.recipient ==> r[t.sender] == Get(balances, t.sender) - TotalCost(t))
      && r[t.recipient] == Get(balances, t.recipient) + t.amount
      && (forall a :: a in balances && a != t.sender && a != t.recipient ==> r[a] == balances[a])
  {
    var senderBalance := Get(balances, t.sender);
    var recipientBalance := Get(balances, t.recipient);
    var cost := TotalCost(t);
    if senderBalance >= cost then
      balances[t.sender := senderBalance - cost][t.recipient := recipientBalance + t.amount]
    else balances
  }

  /**
   * `add_transaction`: a rejected transaction returns `false` and changes
   * nothing; an accepted one is queued on the sender's shard and applied to
   * the balances. Routing the sender can raise after validation passed (a
   * sender that does not start with a hex digit), before anything changed.
   */
  function AddTransaction(l: Ledger, t: Transaction): (r: Result<(bool, Ledger)>)
    ensures !VerifyTransaction(l, t) ==> r == Ok((false, l))
    ensures VerifyTransaction(l, t) && Coordinator.ShardIndex(t.sender, |l.shards|).Raised?
            ==> r == Raised(Coordinator.ShardIndex(t.sender, |l.shards|).exc)
    ensures VerifyTransaction(l, t) && Coordinator.ShardIndex(t.sender, |l.shards|).Ok? ==> r.Ok? && r.value.0
    ensures r.Ok? && r.value.0 ==>
      var i := Coordinator.ShardIndex(t.sender, |l.shards|).value;
      var l' := r.value.1;
      && VerifyTransaction(l, t)
      && |l'.shards| == |l.shards|
      && l'.shards[i].pending == l.shards[i].pending + [t]
      && l'.shards[i].chain == l.shards[i].chain
      && (forall j :: 0 <= j < |l.shards| && j != i ==> l'.shards[j] == l.shards[j])
      && l'.balances == UpdateBalances(l.balances, t)
      && l'.numShards == l.numShards && l'.difficulty == l.difficulty
  {
    if !VerifyTransaction(l, t) then Ok((false, l))
    else
      match Coordinator.ShardIndex(t.sender, |l.shards|)
      case Raised(e) => Raised(e)
      case Ok(i) =>
        var shards := l.shards[i := Shards.AddTransaction(l.shards[i], t)];
        Ok((true, l.(shards := shards, balances := UpdateBalances(l.balances, t))))
  }

  /**
   * An applied transfer between two distinct addresses moves `amount`
   * from sender to recipient and burns the fee: the sender loses the total
   * cost, the recipient gains the amount, and the sum of all balances
   * falls by exactly the fee.
   */
  lemma {:induction false} TransferBurnsFee(balances: map<string, real>, t: Transaction)
    requires Get(balances, t.sender) >= TotalCost(t)
    requires t.sender != t.recipient
    ensures Total(UpdateBalances(balances, t)) == Total(balances) - t.fee
  {
    TotalCreditTwiceAt(balances, t.sender, -TotalCost(t), t.recipient, t.amount, UpdateBalances(balances, t));
  }

  /**
   * An applied self-transfer charges nothing: the stale recipient read
   * overwrites the debit, so the address simply gains `amount`.
   */
  lemma SelfTransferCredits(balances: map<string, real>, t: Transaction)
    requires Get(balances, t.sender) >= TotalCost(t)
    requires t.sender == t.recipient
    ensures UpdateBalances(balances, t) == balances[t.sender := Get(balances, t.sender) + t.amount]
  {
  }

  /** Hence an applied self-transfer grows the sum of all balances by `amount`. */
  lemma {:induction false} SelfTransferMints(balances: map<string, real>, t: Transaction)
    requires Get(balances, t.sender) >= TotalCost(t)
    requires t.sender == t.recipient
    ensures Total(UpdateBalances(balances, t)) == Total(balances) + t.amount
  {
    SelfTransferCredits(balances, t);
    TotalCredit(balances, t.sender, t.amount);
  }

  /**
   * The balance update as evidently intended: the recipient's balance is
   * read after the sender's debit, so a self-transfer pays the fee like
   * any other transfer. Between distinct addresses it is the update above.
   */
  function UpdateBalancesFresh(balances: map<string, real>, t: Transaction): (r: map<string, real>)
    ensures Get(balances, t.sender) < TotalCost(t) ==> r == balances
    ensures t.sender != t.recipient ==> r == UpdateBalances(balances, t)
    ensures Get(balances, t.sender) >= TotalCost(t) && t.sender == t.recipient ==>
      r == balances[t.sender := Get(balances, t.sender) - t.fee]
  {
    var cost := TotalCost(t);
    if Get(balances, t.sender) >= cost then
      var debited := balances[t.sender := Get(balances, t.sender) - cost];
      debited[t.recipient := Get(debited, t.recipient) + t.amount]
    else balances
  }

  /** With the fresh read every applied transfer, a self-transfer included, burns exactly the fee. */
  lemma {:induction false} FreshUpdateBurnsFee(balances: map<string, real>, t: Transaction)
    requires Get(balances, t.sender) >= TotalCost(t)
    ensures Total(UpdateBalancesFresh(balances, t)) == Total(balances) - t.fee
  {
    TotalCreditTwiceAt(balances, t.sender, -TotalCost(t), t.recipient, t.amount, UpdateBalancesFresh(balances, t));
  }

  /** Starting from non-negative balances, `add_transaction` never drives a balance below zero. */
  lemma {:induction false} BalancesStayNonNegative(l: Ledger, t: Transaction)
    requires NonNegative(l.balances)
    requires AddTransaction(l, t).Ok?
    ensures NonNegative(AddTransaction(l, t).value.1.balances)
  {
    if AddTransaction(l, t).value.0 {
      var b := UpdateBalances(l.balances, t);
      assert AddTransaction(l, t).value.1.balances == b;
      assert t.amount > 0.0;
      forall a | a in b
        ensures b[a] >= 0.0
      {
        if a == t.recipient {
          assert b[a] == Get(l.balances, t.recipient) + t.amount;
        } else if a == t.sender {
          assert b[a] == Get(l.balances, t.sender) - TotalCost(t);
        }
      }
    }
  }
}

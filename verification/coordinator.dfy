/**
 * The cross-shard coordinator: routes an address to a shard by its first
 * hex digit, and places a transaction on the pending queues of the shards
 * involved. `prepare` is a stub that always votes yes, so a cross-shard
 * transfer always commits; `abort` is never reached. No balance is
 * reserved, read or changed here.
 */
module Coordinator {
  import opened Base
  import opened Text
  import opened Transactions
  import opened Shards

  /**
   * `get_shard_for_address`: `int(address[0], 16) % len(shards)`. An empty
   * address raises `IndexError`, a first character that is not a hex digit
   * raises `ValueError`, and an empty shard list raises `ZeroDivisionError`.
   * Only ASCII hex digits are routed: a non-ASCII decimal digit, which
   * `int` would also accept, is treated as `ValueError` here.
   */
  function ShardIndex(address: string, numShards: nat): (r: Result<nat>)
    ensures r.Ok? <==> |address| > 0 && IsHexDigit(address[0]) && numShards > 0
    ensures r.Ok? ==> r.value < numShards && r.value == HexValue(address[0]) % numShards
    ensures |address| == 0 ==> r == Raised(IndexError)
    ensures |address| > 0 && !IsHexDigit(address[0]) ==> r == Raised(ValueError)
    ensures |address| > 0 && IsHexDigit(address[0]) && numShards == 0 ==> r == Raised(ZeroDivisionError)
  {
    if |address| == 0 then Raised(IndexError)
    else if !IsHexDigit(address[0]) then Raised(ValueError)
    else if numShards == 0 then Raised(ZeroDivisionError)
    else Ok(HexValue(address[0]) % numShards)
  }

  /** Routing only looks at the first character. */
  lemma RoutingByFirstCharacter(a: string, b: string, numShards: nat)
    requires |a| > 0 && |b| > 0 && a[0] == b[0]
    ensures ShardIndex(a, numShards) == ShardIndex(b, numShards)
  {
  }

  /** `prepare_transaction`: a stub that always votes yes. */
  function Prepare(t: Transaction, shards: seq<Shard>, source: nat, destination: nat): (ok: bool)
    ensures ok
  {
    true
  }

  /** `commit_transaction`: enqueues on the source shard, then on the destination shard, and reports success. */
  function Commit(t: Transaction, shards: seq<Shard>, source: nat, destination: nat): (r: (bool, seq<Shard>))
    requires source < |shards| && destination < |shards| && source != destination
    ensures r.0
    ensures |r.1| == |shards|
    ensures r.1[source].pending == shards[source].pending + [t]
    ensures r.1[destination].pending == shards[destination].pending + [t]
    ensures forall i :: 0 <= i < |shards| && i != source && i != destination ==> r.1[i] == shards[i]
    ensures forall i :: 0 <= i < |shards| ==> r.1[i].chain == shards[i].chain && r.1[i].id == shards[i].id
  {
    var afterSource := shards[source := Shards.AddTransaction(shards[source], t)];
    (true, afterSource[destination := Shards.AddTransaction(afterSource[destination], t)])
  }

  /** `abort_transaction`: reports failure and changes nothing. */
  function Abort(t: Transaction, shards: seq<Shard>, source: nat, destination: nat): (r: (bool, seq<Shard>))
    ensures !r.0 && r.1 == shards
  {
    (false, shards)
  }

  /**
   * `initiate_cross_shard_transaction`. The result's first component is
   * the Python return value: `None` for a same-shard transfer (the value of
   * `add_transaction`), otherwise the commit or abort verdict.
   */
  function Initiate(shards: seq<Shard>, t: Transaction): (r: Result<(Option<bool>, seq<Shard>)>)
    ensures ShardIndex(t.sender, |shards|).Raised? ==> r == Raised(ShardIndex(t.sender, |shards|).exc)
    ensures ShardIndex(t.sender, |shards|).Ok? && ShardIndex(t.recipient, |shards|).Raised?
            ==> r == Raised(ShardIndex(t.recipient, |shards|).exc)
    ensures r.Ok? <==> ShardIndex(t.sender, |shards|).Ok? && ShardIndex(t.recipient, |shards|).Ok?
    ensures r.Ok? ==>
      var src, dst := ShardIndex(t.sender, |shards|).value, ShardIndex(t.recipient, |shards|).value;
      var out := r.value.1;
      && |out| == |shards|
      && out[src].pending == shards[src].pending + [t]
      && out[dst].pending == shards[dst].pending + [t]
      && (src == dst <==> r.value.0 == None)
      && (src != dst <==> r.value.0 == Some(true))
      && (forall i :: 0 <= i < |shards| && i != src && i != dst ==> out[i] == shards[i])
      && (forall i :: 0 <= i < |shards| ==> out[i].chain == shards[i].chain)
  {
    match ShardIndex(t.sender, |shards|)
    case Raised(e) => Raised(e)
    case Ok(src) =>
      match ShardIndex(t.recipient, |shards|)
      case Raised(e) => Raised(e)
      case Ok(dst) =>
        if src == dst then
          Ok((None, shards[src := Shards.AddTransaction(shards[src], t)]))
        else if Prepare(t, shards, src, dst) then
          var (ok, out) := Commit(t, shards, src, dst);
          Ok((Some(ok), out))
        else
          var (ok, out) := Abort(t, shards, src, dst);
          Ok((Some(ok), out))
  }

  /** Because `prepare` always votes yes, no transaction ever ends in an abort. */
  lemma NeverAborts(shards: seq<Shard>, t: Transaction)
    ensures Initiate(shards, t).Ok? ==> Initiate(shards, t).value.0 != Some(false)
  {
  }
}

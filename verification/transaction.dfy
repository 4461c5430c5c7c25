/**
 * A transfer instruction: sender, recipient, amount, asset, creation time,
 * a fee of one percent of the amount, and a hex signature that starts
 * empty. Hashing and RSA-PSS signing are abstract parameters.
 */
module Transactions {
  import opened Base
  import opened Text

  /** The ledger's native asset and the default asset of a transaction. */
  const NativeAsset: string := "QFC"

  /** The fee rate: one percent of the amount. */
  const FeeRate: real := 0.01

  datatype Transaction = Transaction(
    sender: string,
    recipient: string,
    amount: real,
    asset: string,
    timestamp: real,
    fee: real,
    signature: string)

  /** Signs the encoded hash with a private key (randomised PSS padding included). */
  type Signer = string -> seq<byte>

  /** Checks decoded signature bytes against the encoded hash with a public key. */
  type Checker = (seq<byte>, string) -> bool

  /** `Transaction(sender, recipient, amount, asset)`, where `now` is the `time.time()` reading. */
  function NewTransaction(sender: string, recipient: string, amount: real, asset: string, now: real): (t: Transaction)
    ensures t.sender == sender && t.recipient == recipient && t.asset == asset
    ensures t.amount == amount && t.timestamp == now
    ensures t.fee == amount / 100.0
    ensures t.signature == ""
  {
    Transaction(sender, recipient, amount, asset, now, FeeRate * amount, "")
  }

  /** The constructor with the asset argument left at its default. */
  function NewNativeTransaction(sender: string, recipient: string, amount: real, now: real): (t: Transaction)
    ensures t.asset == "QFC"
  {
    NewTransaction(sender, recipient, amount, NativeAsset, now)
  }

  /** `calculate_total_cost`: what the sender is charged. */
  function TotalCost(t: Transaction): real
  {
    t.amount + t.fee
  }

  /** A freshly built transaction costs 1.01 times its amount, strictly more than the amount when it is positive. */
  lemma NewTransactionCost(sender: string, recipient: string, amount: real, asset: string, now: real)
    ensures TotalCost(NewTransaction(sender, recipient, amount, asset, now)) == amount * 101.0 / 100.0
    ensures amount > 0.0 ==> TotalCost(NewTransaction(sender, recipient, amount, asset, now)) > amount
  {
  }

  /** The seven keys `to_dict` produces. */
  const DictKeys: set<string> := {"sender", "recipient", "amount", "asset", "timestamp", "fee", "signature"}

  /** `to_dict`. */
  function ToDict(t: Transaction): (d: Json)
    ensures d.JObj? && d.fields.Keys == DictKeys
  {
    JObj(map[
      "sender" := JStr(t.sender),
      "recipient" := JStr(t.recipient),
      "amount" := JNum(t.amount),
      "asset" := JStr(t.asset),
      "timestamp" := JNum(t.timestamp),
      "fee" := JNum(t.fee),
      "signature" := JStr(t.signature)])
  }

  /** Reads a transaction back out of a dict of the shape `to_dict` produces. */
  function FromDict(d: Json): Option<Transaction>
  {
    if d.JObj? && DictKeys <= d.fields.Keys
       && d.fields["sender"].JStr? && d.fields["recipient"].JStr?
       && d.fields["amount"].JNum? && d.fields["asset"].JStr?
       && d.fields["timestamp"].JNum? && d.fields["fee"].JNum?
       && d.fields["signature"].JStr?
    then Some(Transaction(
      d.fields["sender"].str, d.fields["recipient"].str, d.fields["amount"].num,
      d.fields["asset"].str, d.fields["timestamp"].num, d.fields["fee"].num,
      d.fields["signature"].str))
    else None
  }

  /** `to_dict` loses nothing: every field, the signature included, can be read back. */
  lemma ToDictRoundTrip(t: Transaction)
    ensures FromDict(ToDict(t)) == Some(t)
  {
  }

  /** Two transactions have the same dict exactly when they are equal in all seven fields. */
  lemma ToDictInjective(a: Transaction, b: Transaction)
    ensures ToDict(a) == ToDict(b) <==> a == b
  {
    if ToDict(a) == ToDict(b) {
      ToDictRoundTrip(a);
      ToDictRoundTrip(b);
    }
  }

  /** `[tx.to_dict() for tx in txs]`. */
  function Dicts(txs: seq<Transaction>): (ds: seq<Json>)
    ensures |ds| == |txs|
    ensures forall i :: 0 <= i < |txs| ==> ds[i] == ToDict(txs[i])
  {
    seq(|txs|, i requires 0 <= i < |txs| => ToDict(txs[i]))
  }

  /** `calculate_hash`: the digest of the sorted-key JSON of `to_dict`, signature included. */
  function Hash(t: Transaction, digest: Digest): string
  {
    digest(ToDict(t))
  }

  /**
   * Under a collision-free digest the hash identifies the transaction:
   * two transactions hash alike exactly when all seven fields agree. In
   * particular signing, which changes only the signature, changes the hash
   * whenever it changes the signature.
   */
  lemma HashIdentifies(a: Transaction, b: Transaction, digest: Digest, signer: Signer)
    requires CollisionFree(digest)
    ensures Hash(a, digest) == Hash(b, digest) <==> a == b
    ensures Sign(a, digest, signer).signature != a.signature ==> Hash(Sign(a, digest, signer), digest) != Hash(a, digest)
  {
    ToDictInjective(a, b);
    ToDictInjective(Sign(a, digest, signer), a);
  }

  /** `sign_transaction`: signs the current hash and stores the signature as hex. */
  function Sign(t: Transaction, digest: Digest, signer: Signer): (r: Transaction)
    ensures r.sender == t.sender && r.recipient == t.recipient && r.amount == t.amount
    ensures r.asset == t.asset && r.timestamp == t.timestamp && r.fee == t.fee
    ensures FromHex(r.signature) == Some(signer(Hash(t, digest)))
  {
    FromHexToHex(signer(Hash(t, digest)));
    t.(signature := ToHex(signer(Hash(t, digest))))
  }

  /**
   * `verify_signature`. A signature that checks out false gives `false`;
   * text that `bytes.fromhex` cannot decode escapes as `ValueError`, because
   * only `InvalidSignature` is caught.
   */
  function VerifySignature(t: Transaction, digest: Digest, check: Checker): (r: Result<bool>)
    ensures r.Raised? <==> FromHex(t.signature).None?
    ensures r.Raised? ==> r.exc == ValueError
    ensures r.Ok? ==> r.value == check(FromHex(t.signature).value, Hash(t, digest))
  {
    match FromHex(t.signature)
    case None => Raised(ValueError)
    case Some(bytes) => Ok(check(bytes, Hash(t, digest)))
  }

  /**
   * Verifying a signed transaction always returns a boolean. The message it
   * checks is the hash of the SIGNED transaction, whose dict differs from the
   * one that was signed whenever the signature changed.
   */
  lemma SignedVerifyReturns(t: Transaction, digest: Digest, signer: Signer, check: Checker)
    ensures VerifySignature(Sign(t, digest, signer), digest, check).Ok?
    ensures VerifySignature(Sign(t, digest, signer), digest, check).value
         == check(signer(Hash(t, digest)), Hash(Sign(t, digest, signer), digest))
    ensures Sign(t, digest, signer).signature != t.signature ==> ToDict(Sign(t, digest, signer)) != ToDict(t)
  {
    ToDictInjective(Sign(t, digest, signer), t);
  }

  /** An unsigned transaction (empty signature) verifies to a boolean rather than raising. */
  lemma UnsignedVerifyReturns(t: Transaction, digest: Digest, check: Checker)
    requires t.signature == ""
    ensures VerifySignature(t, digest, check) == Ok(check([], Hash(t, digest)))
  {
  }
}

/**
 * The compliance service: a KYC check that approves users whose document
 * list is non-empty and holds only strings, an AML keyword scan over a
 * transaction's description, and the Ethereum-style address pattern
 * `^0x[a-fA-F0-9]{40}$` as Python's `re.match` applies it.
 */
module Compliance {
  import opened Base
  import opened Text

  /** The service's only state: the ids of KYC-approved users. */
  datatype Compliance = Compliance(approved: set<string>)

  const NewCompliance: Compliance := Compliance({})

  /** `all(isinstance(doc, str) for doc in documents)`, short-circuiting left to right. */
  function AllStrings(documents: seq<Json>): (all: bool)
    ensures all <==> forall i :: 0 <= i < |documents| ==> documents[i].JStr?
  {
    if |documents| == 0 then true
    else if !documents[0].JStr? then false
    else AllStrings(documents[1..])
  }

  /**
   * `perform_kyc`: approves the user exactly when the document list is
   * non-empty and every document is a string; a refusal changes nothing.
   */
  function PerformKyc(c: Compliance, user: string, documents: seq<Json>): (r: (bool, Compliance))
    ensures r.0 <==> |documents| > 0 && forall i :: 0 <= i < |documents| ==> documents[i].JStr?
    ensures r.0 ==> r.1.approved == c.approved + {user}
    ensures !r.0 ==> r.1 == c
  {
    if |documents| > 0 && AllStrings(documents) then (true, Compliance(c.approved + {user}))
    else (false, c)
  }

  /** Approving a user twice leaves the state as approving once did. */
  lemma KycIdempotent(c: Compliance, user: string, documents: seq<Json>)
    ensures var once := PerformKyc(c, user, documents);
      PerformKyc(once.1, user, documents) == once
  {
  }

  /** Approval is never withdrawn: every approved user stays approved, whatever the outcome. */
  lemma KycOnlyGrows(c: Compliance, user: string, documents: seq<Json>, other: string)
    requires other in c.approved
    ensures other in PerformKyc(c, user, documents).1.approved
  {
  }

  const SuspiciousKeywords: seq<string> := ["terrorism", "laundering", "fraud"]

  /** The keyword loop: `true` when no keyword occurs in the description. */
  function Scan(description: string, keywords: seq<string>): (clean: bool)
    ensures clean <==> forall i :: 0 <= i < |keywords| ==> !Contains(description, keywords[i])
  {
    if |keywords| == 0 then true
    else if Contains(description, keywords[0]) then false
    else Scan(description, keywords[1..])
  }

  /**
   * `aml_check`: the description defaults to the empty string; a
   * description that is not a string has no `lower()` (`AttributeError`);
   * otherwise the check passes exactly when none of the suspicious
   * keywords occurs in the lowercased description.
   */
  function AmlCheck(details: map<string, Json>): (r: Result<bool>)
    ensures "description" !in details ==> r == Ok(true)
    ensures r.Raised? <==> "description" in details && !details["description"].JStr?
    ensures r.Raised? ==> r.exc == AttributeError
    ensures "description" in details && details["description"].JStr? ==>
      (r == Ok(true) <==>
        forall i :: 0 <= i < |SuspiciousKeywords| ==> !Contains(Lower(details["description"].str), SuspiciousKeywords[i]))
  {
    if "description" !in details then
      assert forall i :: 0 <= i < |SuspiciousKeywords| ==> !Contains("", SuspiciousKeywords[i]);
      Ok(Scan("", SuspiciousKeywords))
    else match details["description"]
      case JStr(s) => Ok(Scan(Lower(s), SuspiciousKeywords))
      case _ => Raised(AttributeError)
  }

  lemma {:induction false} LowerIdempotent(s: string)
    ensures Lower(Lower(s)) == Lower(s)
  {
    forall i | 0 <= i < |s|
      ensures Lower(Lower(s))[i] == Lower(s)[i]
    {
      assert LowerChar(LowerChar(s[i])) == LowerChar(s[i]);
    }
  }

  /** The scan ignores case: a description and its lowercase get the same verdict. */
  lemma AmlIgnoresCase(s: string)
    ensures AmlCheck(map["description" := JStr(s)]) == AmlCheck(map["description" := JStr(Lower(s))])
  {
    LowerIdempotent(s);
  }

  /** A mixed-case keyword is caught. */
  lemma AmlFlagsMixedCase()
    ensures AmlCheck(map["description" := JStr("Fraud")]) == Ok(false)
  {
    assert Lower("Fraud") == "fraud";
    assert Contains("fraud", SuspiciousKeywords[2]);
  }

  /**
   * `[a-fA-F0-9]{n}` from position `i`: the position after `n` hex digits,
   * or `None` when fewer than `n` follow.
   */
  function HexRun(s: string, i: nat, n: nat): (j: Option<nat>)
    requires i <= |s|
    ensures j.Some? <==> i + n <= |s| && forall k :: i <= k < i + n ==> IsHexDigit(s[k])
    ensures j.Some? ==> j.value == i + n
    decreases n
  {
    if n == 0 then Some(i)
    else if i < |s| && IsHexDigit(s[i]) then HexRun(s, i + 1, n - 1)
    else None
  }

  /** Python's `$` without MULTILINE: the end of the string, or just before a final newline. */
  predicate AtEnd(s: string, j: nat)
  {
    j == |s| || (j + 1 == |s| && s[j] == '\n')
  }

  /** `validate_address`: `re.match(r"^0x[a-fA-F0-9]{40}$", address)` matches. */
  function ValidateAddress(address: string): bool
  {
    StartsWith(address, "0x") &&
    match HexRun(address, 2, 40)
    case Some(j) => AtEnd(address, j)
    case None => false
  }

  /**
   * The accepted addresses, in closed form: "0x", then exactly 40 hex
   * digits of either case, then nothing or a single newline.
   */
  lemma ValidateAddressShape(address: string)
    ensures ValidateAddress(address) <==>
      && (|address| == 42 || (|address| == 43 && address[42] == '\n'))
      && address[0] == '0' && address[1] == 'x'
      && forall k :: 2 <= k < 42 ==> IsHexDigit(address[k])
  {
    if |address| >= 2 && address[0] == '0' && address[1] == 'x' {
      assert address[..2] == "0x";
    }
  }

  /** Every accepted address is 42 characters long, or 43 ending in a newline. */
  lemma AcceptedLength(address: string)
    requires ValidateAddress(address)
    ensures |address| == 42 || (|address| == 43 && address[42] == '\n')
  {
    ValidateAddressShape(address);
  }

  /** "0x" followed by the hex of 20 bytes is accepted, with or without a trailing newline. */
  lemma HexOfTwentyBytesValid(b: seq<byte>)
    requires |b| == 20
    ensures ValidateAddress("0x" + ToHex(b))
    ensures ValidateAddress("0x" + ToHex(b) + "\n")
  {
    var a := "0x" + ToHex(b);
    assert forall k :: 2 <= k < 42 ==> a[k] == ToHex(b)[k - 2];
    ValidateAddressShape(a);
    var a' := a + "\n";
    assert forall k :: 2 <= k < 42 ==> a'[k] == a[k];
    ValidateAddressShape(a');
  }
}

/**
 * The carbon-credit market: buying and selling debit credits held by the
 * proof-of-work engine and log the trade at the current price; a price
 * adjustment compares buy and sell volume since the last adjustment.
 */
module CarbonMarket {
  import opened Base
  import opened Balances
  import opened GreenPow

  /** One logged trade: `{"type": "buy", ...}` or `{"type": "sell", ...}`. */
  datatype Record =
    | BuyRecord(buyer: string, amount: real, cost: real)
    | SellRecord(seller: string, amount: real, revenue: real)

  datatype Market = Market(price: real, log: seq<Record>)

  /** `CarbonCreditMarket()`: price 10 per credit, empty log. */
  const NewMarket: Market := Market(10.0, [])

  /**
   * The shared guard of `buy_credits` and `sell_credits`: a holder whose
   * credits (zero if absent) cover the amount is debited. A holder with no
   * entry passes the guard only for an amount of at most zero, and the
   * debit then raises `KeyError`.
   */
  function Debit(pow: PowState, holder: string, amount: real): (r: Result<Option<PowState>>)
    ensures Get(pow.carbonCredits, holder) < amount ==> r == Ok(None)
    ensures Get(pow.carbonCredits, holder) >= amount && holder !in pow.carbonCredits ==> r == Raised(KeyError)
    ensures Get(pow.carbonCredits, holder) >= amount && holder in pow.carbonCredits ==> r.Ok? && r.value.Some?
    ensures r.Ok? && r.value.Some? ==>
      && holder in pow.carbonCredits && pow.carbonCredits[holder] >= amount
      && r.value.value == pow.(carbonCredits := pow.carbonCredits[holder := pow.carbonCredits[holder] - amount])
  {
    if Get(pow.carbonCredits, holder) >= amount then
      if holder in pow.carbonCredits then
        Ok(Some(pow.(carbonCredits := pow.carbonCredits[holder := pow.carbonCredits[holder] - amount])))
      else Raised(KeyError)
    else Ok(None)
  }

  /**
   * `buy_credits`: succeeds exactly when the buyer holds at least `amount`
   * credits; then debits them and logs a buy costing `amount * price`.
   * A failure returns `false` and changes nothing.
   */
  function BuyCredits(m: Market, pow: PowState, buyer: string, amount: real): (r: Result<(bool, Market, PowState)>)
    ensures r.Ok? ==> (r.value.0 <==> Get(pow.carbonCredits, buyer) >= amount)
    ensures r.Raised? <==> Get(pow.carbonCredits, buyer) >= amount && buyer !in pow.carbonCredits
    ensures r.Ok? && !r.value.0 ==> r.value.1 == m && r.value.2 == pow
    ensures r.Ok? && r.value.0 ==>
      && r.value.2.carbonCredits == pow.carbonCredits[buyer := pow.carbonCredits[buyer] - amount]
      && r.value.1 == m.(log := m.log + [BuyRecord(buyer, amount, amount * m.price)])
    ensures NonNegative(pow.carbonCredits) && amount >= 0.0 && r.Ok? ==> NonNegative(r.value.2.carbonCredits)
  {
    match Debit(pow, buyer, amount)
    case Raised(e) => Raised(e)
    case Ok(None) => Ok((false, m, pow))
    case Ok(Some(pow')) =>
      Ok((true, m.(log := m.log + [BuyRecord(buyer, amount, amount * m.price)]), pow'))
  }

  /** `sell_credits`: the mirror image of `buy_credits`, logging the revenue `amount * price`. */
  function SellCredits(m: Market, pow: PowState, seller: string, amount: real): (r: Result<(bool, Market, PowState)>)
    ensures r.Ok? ==> (r.value.0 <==> Get(pow.carbonCredits, seller) >= amount)
    ensures r.Raised? <==> Get(pow.carbonCredits, seller) >= amount && seller !in pow.carbonCredits
    ensures r.Ok? && !r.value.0 ==> r.value.1 == m && r.value.2 == pow
    ensures r.Ok? && r.value.0 ==>
      && r.value.2.carbonCredits == pow.carbonCredits[seller := pow.carbonCredits[seller] - amount]
      && r.value.1 == m.(log := m.log + [SellRecord(seller, amount, amount * m.price)])
    ensures NonNegative(pow.carbonCredits) && amount >= 0.0 && r.Ok? ==> NonNegative(r.value.2.carbonCredits)
  {
    match Debit(pow, seller, amount)
    case Raised(e) => Raised(e)
    case Ok(None) => Ok((false, m, pow))
    case Ok(Some(pow')) =>
      Ok((true, m.(log := m.log + [SellRecord(seller, amount, amount * m.price)]), pow'))
  }

  /** The summed amount of the buy records. */
  function BuyVolume(log: seq<Record>): real
  {
    if |log| == 0 then 0.0
    else (if log[0].BuyRecord? then log[0].amount else 0.0) + BuyVolume(log[1..])
  }

  /** The summed amount of the sell records. */
  function SellVolume(log: seq<Record>): real
  {
    if |log| == 0 then 0.0
    else (if log[0].SellRecord? then log[0].amount else 0.0) + SellVolume(log[1..])
  }

  /** Logging one record adds its amount to the volume of its own kind only. */
  lemma {:induction false} VolumeAppend(log: seq<Record>, rec: Record)
    ensures BuyVolume(log + [rec]) == BuyVolume(log) + (if rec.BuyRecord? then rec.amount else 0.0)
    ensures SellVolume(log + [rec]) == SellVolume(log) + (if rec.SellRecord? then rec.amount else 0.0)
  {
    if |log| > 0 {
      assert (log + [rec])[1..] == log[1..] + [rec];
      VolumeAppend(log[1..], rec);
    }
  }

  /**
   * `adjust_price`: more bought than sold raises the price by 10%, more
   * sold than bought lowers it by 10%, a tie keeps it; the log is cleared
   * either way, and a positive price stays positive.
   */
  function AdjustPrice(m: Market): (r: Market)
    ensures r.log == []
    ensures BuyVolume(m.log) > SellVolume(m.log) ==> r.price == m.price * 1.1
    ensures SellVolume(m.log) > BuyVolume(m.log) ==> r.price == m.price * 0.9
    ensures BuyVolume(m.log) == SellVolume(m.log) ==> r.price == m.price
    ensures m.price > 0.0 ==> r.price > 0.0
  {
    var buyVolume := BuyVolume(m.log);
    var sellVolume := SellVolume(m.log);
    var price :=
      if buyVolume > sellVolume then m.price * 1.1
      else if sellVolume > buyVolume then m.price * 0.9
      else m.price;
    Market(price, [])
  }

  /**
   * A successful purchase of a positive amount on a freshly adjusted market
   * tips the next adjustment upwards.
   */
  lemma {:induction false} LoneBuyRaisesPrice(m: Market, pow: PowState, buyer: string, amount: real)
    requires m.log == [] && amount > 0.0
    requires BuyCredits(m, pow, buyer, amount).Ok? && BuyCredits(m, pow, buyer, amount).value.0
    ensures AdjustPrice(BuyCredits(m, pow, buyer, amount).value.1).price == m.price * 1.1
  {
    var log := BuyCredits(m, pow, buyer, amount).value.1.log;
    VolumeAppend([], BuyRecord(buyer, amount, amount * m.price));
    assert log == [] + [BuyRecord(buyer, amount, amount * m.price)];
  }
}

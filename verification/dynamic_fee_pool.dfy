/**
 * The liquidity pool with a dynamic fee: the fee is 0.3% times a
 * multiplier that volatility pushes up by 0.1 (to at most 2) and calm
 * lets down by 0.05 (to at least 1). Removing liquidity charges the
 * provider a share of the reserves left after the removal.
 */
module DynamicFeePool {
  import opened Base
  import opened Balances
  import opened Text
  import opened Pools

  /** `default_fee`. */
  const DefaultFee: real := 0.003

  /** `dynamic_fee_multiplier` starts at 1. */
  const InitialMultiplier: real := 1.0

  /** The multiplier stays within the band `adjust_fee` clamps it to. */
  predicate InBand(multiplier: real)
  {
    1.0 <= multiplier <= 2.0
  }

  /** `get_fee`: 0.3% scaled by the multiplier, so between 0.3% and 0.6% inside the band. */
  function GetFee(multiplier: real): (fee: real)
    ensures InBand(multiplier) ==> DefaultFee <= fee <= 2.0 * DefaultFee
    ensures InBand(multiplier) ==> 0.0 < 1.0 - fee < 1.0
  {
    DefaultFee * multiplier
  }

  /**
   * `adjust_fee`: volatility above 0.1 raises the multiplier by 0.1 up to
   * 2, anything else lowers it by 0.05 down to 1. Each direction moves it
   * only one way, and a multiplier inside the band stays inside it.
   */
  function AdjustFee(multiplier: real, volatility: real): (r: real)
    ensures volatility > 0.1 ==> r <= 2.0 && (multiplier <= 2.0 ==> multiplier <= r <= multiplier + 0.1)
    ensures volatility <= 0.1 ==> r >= 1.0 && (multiplier >= 1.0 ==> multiplier - 0.05 <= r <= multiplier)
    ensures volatility > 0.1 ==> r == 2.0 || r == multiplier + 0.1
    ensures volatility <= 0.1 ==> r == 1.0 || r == multiplier - 0.05
    ensures InBand(multiplier) ==> InBand(r)
  {
    if volatility > 0.1 then
      var raised := multiplier + 0.1;
      if raised < 2.0 then raised else 2.0
    else
      var lowered := multiplier - 0.05;
      if lowered > 1.0 then lowered else 1.0
  }

  /** From anywhere in the band, a volatile step followed by a calm one never ends above where it started plus 0.1. */
  lemma {:induction false} AdjustFeeSteps(multiplier: real)
    requires InBand(multiplier)
    ensures AdjustFee(AdjustFee(multiplier, 0.2), 0.0) <= multiplier + 0.05
    ensures AdjustFee(2.0, 0.2) == 2.0 && AdjustFee(1.0, 0.0) == 1.0
  {
    var up := AdjustFee(multiplier, 0.2);
    assert up <= multiplier + 0.1;
    assert up >= 1.0;
  }

  /**
   * `remove_liquidity`. A missing pool or provider changes nothing.
   * Otherwise both reserves shrink to `1 - percentage` of their value and
   * the provider's share drops by `percentage` of the reserves as they
   * stand AFTER the removal; no other pool or provider changes.
   */
  function RemoveLiquidity(pools: PoolTable, user: string, tokenA: string, tokenB: string, percentage: real): (r: PoolTable)
    ensures r.Keys == pools.Keys
    ensures var id := PoolId(tokenA, tokenB);
      id !in pools || user !in pools[id].providers ==> r == pools
    ensures var id := PoolId(tokenA, tokenB);
      id in pools && user in pools[id].providers ==>
        var p, p' := pools[id], r[id];
        && (forall other :: other in pools && other != id ==> r[other] == pools[other])
        && p'.reserveA == p.reserveA * (1.0 - percentage)
        && p'.reserveB == p.reserveB * (1.0 - percentage)
        && p'.providers.Keys == p.providers.Keys
        && p'.providers[user] == p.providers[user] - (p'.reserveA + p'.reserveB) * percentage
        && (forall u :: u in p.providers && u != user ==> p'.providers[u] == p.providers[u])
  {
    var id := PoolId(tokenA, tokenB);
    if id !in pools || user !in pools[id].providers then pools
    else
      var pool := pools[id];
      var amountA := pool.reserveA * percentage;
      var amountB := pool.reserveB * percentage;
      var reserveA := pool.reserveA - amountA;
      var reserveB := pool.reserveB - amountB;
      var share := pool.providers[user] - (reserveA + reserveB) * percentage;
      pools[id := Pool(reserveA, reserveB, pool.providers[user := share])]
  }

  /**
   * `swap`. A missing pool gives `None` and changes nothing. Otherwise the
   * input, reduced by the current fee, is priced by the constant-product
   * formula against the reserves `swap` assigns to the two tokens; a zero
   * denominator raises `ZeroDivisionError`. The full input enters the pool
   * and the output leaves it.
   */
  function Swap(pools: PoolTable, multiplier: real, user: string, tokenIn: string, tokenOut: string, input: real): (r: Result<(Option<real>, PoolTable)>)
    ensures PoolId(tokenIn, tokenOut) !in pools ==> r == Ok((None, pools))
    ensures var id := PoolId(tokenIn, tokenOut);
      var x := input * (1.0 - GetFee(multiplier));
      id in pools ==>
        && (r.Raised? <==> ReserveFor(pools[id], tokenIn, tokenOut) + x == 0.0)
        && (r.Raised? ==> r.exc == ZeroDivisionError)
        && (r.Ok? ==>
              var output := SwapOutput(ReserveFor(pools[id], tokenIn, tokenOut), ReserveOut(pools[id], tokenIn, tokenOut), x);
              && r.value.0 == Some(output)
              && r.value.1 == pools[id := ApplySwap(pools[id], tokenIn, tokenOut, input, output)])
  {
    var id := PoolId(tokenIn, tokenOut);
    if id !in pools then Ok((None, pools))
    else
      var pool := pools[id];
      var reserveIn := ReserveFor(pool, tokenIn, tokenOut);
      var reserveOut := ReserveOut(pool, tokenIn, tokenOut);
      var x := input * (1.0 - GetFee(multiplier));
      if reserveIn + x == 0.0 then Raised(ZeroDivisionError)
      else
        var output := SwapOutput(reserveIn, reserveOut, x);
        Ok((Some(output), pools[id := ApplySwap(pool, tokenIn, tokenOut, input, output)]))
  }

  /**
   * With the multiplier in its band and non-negative reserves and input,
   * a swap never lowers the product of the pool's reserves.
   */
  lemma SwapKeepsProductDynamic(pools: PoolTable, multiplier: real, user: string, tokenIn: string, tokenOut: string, input: real)
    requires InBand(multiplier) && input >= 0.0
    requires PoolId(tokenIn, tokenOut) in pools
    requires pools[PoolId(tokenIn, tokenOut)].reserveA >= 0.0 && pools[PoolId(tokenIn, tokenOut)].reserveB >= 0.0
    requires Swap(pools, multiplier, user, tokenIn, tokenOut, input).Ok?
    ensures var id := PoolId(tokenIn, tokenOut);
      var p' := Swap(pools, multiplier, user, tokenIn, tokenOut, input).value.1[id];
      p'.reserveA * p'.reserveB >= pools[id].reserveA * pools[id].reserveB
  {
    var id := PoolId(tokenIn, tokenOut);
    var p := pools[id];
    var x := input * (1.0 - GetFee(multiplier));
    ScaleBelow(input, 1.0 - GetFee(multiplier));
    var r := Swap(pools, multiplier, user, tokenIn, tokenOut, input);
    assert r.value.1 == pools[id := ApplySwap(p, tokenIn, tokenOut, input, SwapOutput(ReserveFor(p, tokenIn, tokenOut), ReserveOut(p, tokenIn, tokenOut), x))];
    SwapKeepsProduct(p, tokenIn, tokenOut, input, x);
  }

  /** With both reserves positive, a swap pays out less than the output reserve holds. */
  lemma SwapOutputBelowReserveDynamic(pools: PoolTable, multiplier: real, user: string, tokenIn: string, tokenOut: string, input: real)
    requires InBand(multiplier)
    requires PoolId(tokenIn, tokenOut) in pools
    requires pools[PoolId(tokenIn, tokenOut)].reserveA > 0.0 && pools[PoolId(tokenIn, tokenOut)].reserveB > 0.0
    requires ReserveFor(pools[PoolId(tokenIn, tokenOut)], tokenIn, tokenOut) + input * (1.0 - GetFee(multiplier)) > 0.0
    ensures var r := Swap(pools, multiplier, user, tokenIn, tokenOut, input);
      r.Ok? && r.value.0.Some? && r.value.0.value < ReserveOut(pools[PoolId(tokenIn, tokenOut)], tokenIn, tokenOut)
  {
    var p := pools[PoolId(tokenIn, tokenOut)];
    OutputBelowReserve(ReserveFor(p, tokenIn, tokenOut), ReserveOut(p, tokenIn, tokenOut), input * (1.0 - GetFee(multiplier)));
  }

  /** `get_pool_stats`: a message for a missing pool, else the reserves, their sum and the providers. */
  datatype PoolStats =
    | NoPool(message: string)
    | Stats(reserveA: real, reserveB: real, totalLiquidity: real, providers: map<string, real>)

  function GetPoolStats(pools: PoolTable, tokenA: string, tokenB: string): (r: PoolStats)
    ensures PoolId(tokenA, tokenB) !in pools <==> r == NoPool("Pool does not exist.")
    ensures PoolId(tokenA, tokenB) in pools ==>
      var p := pools[PoolId(tokenA, tokenB)];
      r.Stats? && r.reserveA == p.reserveA && r.reserveB == p.reserveB && r.providers == p.providers
      && r.totalLiquidity == r.reserveA + r.reserveB
  {
    var id := PoolId(tokenA, tokenB);
    if id !in pools then NoPool("Pool does not exist.")
    else
      var p := pools[id];
      Stats(p.reserveA, p.reserveB, p.reserveA + p.reserveB, p.providers)
  }

  /**
   * The first deposit into a pool shows up in its stats, whichever order
   * the tokens are named in: total liquidity is the sum deposited, all of
   * it credited to the depositor.
   */
  lemma FirstDepositStats(pools: PoolTable, user: string, tokenA: string, tokenB: string, amountA: real, amountB: real)
    requires PoolId(tokenA, tokenB) !in pools
    ensures var s := GetPoolStats(AddLiquidity(pools, user, tokenA, tokenB, amountA, amountB), tokenB, tokenA);
      s.Stats? && s.totalLiquidity == amountA + amountB && s.providers == map[user := amountA + amountB]
  {
    PoolIdSymmetric(tokenA, tokenB);
    var p := AddLiquidity(pools, user, tokenA, tokenB, amountA, amountB)[PoolId(tokenA, tokenB)];
    assert p.providers == map[user := amountA + amountB];
  }
}

/**
 * The liquidity pool with a fixed 0.3% fee. It differs from the dynamic
 * one in two places: the fee factor is the constant 0.997, and removing
 * liquidity charges the provider a share of the reserves as they stood
 * BEFORE the removal.
 */
module FixedFeePool {
  import opened Base
  import opened Balances
  import opened Text
  import opened Pools
  import DynamicFeePool

  /** What remains of the input after the 0.3% fee. */
  const FeeFactor: real := 0.997

  /**
   * `remove_liquidity`. A missing pool or provider changes nothing.
   * Otherwise both reserves shrink to `1 - percentage` of their value and
   * the provider's share drops by `percentage` of the reserves as they
   * stood before the removal; no other pool or provider changes.
   */
  function RemoveLiquidity(pools: PoolTable, user: string, tokenA: string, tokenB: string, percentage: real): (r: PoolTable)
    ensures r.Keys == pools.Keys
    ensures var id := PoolId(tokenA, tokenB);
      id !in pools || user !in pools[id].providers ==> r == pools
    ensures var id := PoolId(tokenA, tokenB);
      id in pools && user in pools[id].providers ==>
        var p, p' := pools[id], r[id];
        && (forall other :: other in pools && other != id ==> r[other] == pools[other])
        && p'.reserveA == p.reserveA * (1.0 - percentage)
        && p'.reserveB == p.reserveB * (1.0 - percentage)
        && p'.providers.Keys == p.providers.Keys
        && p'.providers[user] == p.providers[user] - (p.reserveA + p.reserveB) * percentage
        && (forall u :: u in p.providers && u != user ==> p'.providers[u] == p.providers[u])
  {
    var id := PoolId(tokenA, tokenB);
    if id !in pools || user !in pools[id].providers then pools
    else
      var pool := pools[id];
      var totalLiquidity := pool.reserveA + pool.reserveB;
      var amountA := pool.reserveA * percentage;
      var amountB := pool.reserveB * percentage;
      var share := pool.providers[user] - totalLiquidity * percentage;
      pools[id := Pool(pool.reserveA - amountA, pool.reserveB - amountB, pool.providers[user := share])]
  }

  /**
   * The two pools shrink the reserves alike, but the dynamic pool's charge
   * to the provider is `1 - percentage` times the fixed pool's.
   */
  lemma RemovalCharges(pools: PoolTable, user: string, tokenA: string, tokenB: string, percentage: real)
    requires PoolId(tokenA, tokenB) in pools && user in pools[PoolId(tokenA, tokenB)].providers
    ensures var id := PoolId(tokenA, tokenB);
      var old_ := pools[id].providers[user];
      var fixed := RemoveLiquidity(pools, user, tokenA, tokenB, percentage)[id];
      var dynamic := DynamicFeePool.RemoveLiquidity(pools, user, tokenA, tokenB, percentage)[id];
      && fixed.reserveA == dynamic.reserveA && fixed.reserveB == dynamic.reserveB
      && old_ - dynamic.providers[user] == (1.0 - percentage) * (old_ - fixed.providers[user])
  {
    var p := pools[PoolId(tokenA, tokenB)];
    assert (p.reserveA * (1.0 - percentage) + p.reserveB * (1.0 - percentage)) * percentage
        == (1.0 - percentage) * ((p.reserveA + p.reserveB) * percentage);
  }

  /**
   * `swap`. A missing pool gives `None` and changes nothing. Otherwise the
   * input times 0.997 is priced by the constant-product formula against
   * the reserves `swap` assigns to the two tokens; a zero denominator
   * raises `ZeroDivisionError`. The full input enters the pool and the
   * output leaves it.
   */
  function Swap(pools: PoolTable, user: string, tokenIn: string, tokenOut: string, input: real): (r: Result<(Option<real>, PoolTable)>)
    ensures PoolId(tokenIn, tokenOut) !in pools ==> r == Ok((None, pools))
    ensures var id := PoolId(tokenIn, tokenOut);
      id in pools ==>
        && (r.Raised? <==> ReserveFor(pools[id], tokenIn, tokenOut) + input * FeeFactor == 0.0)
        && (r.Raised? ==> r.exc == ZeroDivisionError)
        && (r.Ok? ==>
              var output := SwapOutput(ReserveFor(pools[id], tokenIn, tokenOut), ReserveOut(pools[id], tokenIn, tokenOut), input * FeeFactor);
              && r.value.0 == Some(output)
              && r.value.1 == pools[id := ApplySwap(pools[id], tokenIn, tokenOut, input, output)])
  {
    var id := PoolId(tokenIn, tokenOut);
    if id !in pools then Ok((None, pools))
    else
      var pool := pools[id];
      var reserveIn := ReserveFor(pool, tokenIn, tokenOut);
      var reserveOut := ReserveOut(pool, tokenIn, tokenOut);
      var x := input * FeeFactor;
      if reserveIn + x == 0.0 then Raised(ZeroDivisionError)
      else
        var output := SwapOutput(reserveIn, reserveOut, x);
        Ok((Some(output), pools[id := ApplySwap(pool, tokenIn, tokenOut, input, output)]))
  }

  /**
   * The x·y = k comment holds as a lower bound: with non-negative reserves
   * and input, a swap never lowers the product of the pool's reserves
   * (the fee kept in the pool can only raise it).
   */
  lemma SwapKeepsProductFixed(pools: PoolTable, user: string, tokenIn: string, tokenOut: string, input: real)
    requires input >= 0.0
    requires PoolId(tokenIn, tokenOut) in pools
    requires pools[PoolId(tokenIn, tokenOut)].reserveA >= 0.0 && pools[PoolId(tokenIn, tokenOut)].reserveB >= 0.0
    requires Swap(pools, user, tokenIn, tokenOut, input).Ok?
    ensures var id := PoolId(tokenIn, tokenOut);
      var p' := Swap(pools, user, tokenIn, tokenOut, input).value.1[id];
      p'.reserveA * p'.reserveB >= pools[id].reserveA * pools[id].reserveB
  {
    var id := PoolId(tokenIn, tokenOut);
    var p := pools[id];
    var x := input * FeeFactor;
    ScaleBelow(input, FeeFactor);
    var r := Swap(pools, user, tokenIn, tokenOut, input);
    assert r.value.1 == pools[id := ApplySwap(p, tokenIn, tokenOut, input, SwapOutput(ReserveFor(p, tokenIn, tokenOut), ReserveOut(p, tokenIn, tokenOut), x))];
    SwapKeepsProduct(p, tokenIn, tokenOut, input, x);
  }

  /** With both reserves positive, a swap pays out less than the output reserve holds. */
  lemma SwapOutputBelowReserveFixed(pools: PoolTable, user: string, tokenIn: string, tokenOut: string, input: real)
    requires PoolId(tokenIn, tokenOut) in pools
    requires pools[PoolId(tokenIn, tokenOut)].reserveA > 0.0 && pools[PoolId(tokenIn, tokenOut)].reserveB > 0.0
    requires ReserveFor(pools[PoolId(tokenIn, tokenOut)], tokenIn, tokenOut) + input * FeeFactor > 0.0
    ensures var r := Swap(pools, user, tokenIn, tokenOut, input);
      r.Ok? && r.value.0.Some? && r.value.0.value < ReserveOut(pools[PoolId(tokenIn, tokenOut)], tokenIn, tokenOut)
  {
    var p := pools[PoolId(tokenIn, tokenOut)];
    OutputBelowReserve(ReserveFor(p, tokenIn, tokenOut), ReserveOut(p, tokenIn, tokenOut), input * FeeFactor);
  }

  /**
   * Whenever the dynamic pool's fee is 0.3% (as at the initial multiplier
   * of 1) it quotes and applies exactly the fixed pool's swap.
   */
  lemma SameSwapAtSameFee(pools: PoolTable, multiplier: real, user: string, tokenIn: string, tokenOut: string, input: real)
    requires DynamicFeePool.GetFee(multiplier) == 1.0 - FeeFactor
    ensures DynamicFeePool.Swap(pools, multiplier, user, tokenIn, tokenOut, input)
         == Swap(pools, user, tokenIn, tokenOut, input)
  {
    var id := PoolId(tokenIn, tokenOut);
    var d := DynamicFeePool.Swap(pools, multiplier, user, tokenIn, tokenOut, input);
    var f := Swap(pools, user, tokenIn, tokenOut, input);
    var x := input * FeeFactor;
    assert input * (1.0 - DynamicFeePool.GetFee(multiplier)) == x;
    if id in pools && ReserveFor(pools[id], tokenIn, tokenOut) + x != 0.0 {
      assert d.value.0 == f.value.0 && d.value.1 == f.value.1;
    }
  }

  /** The initial multiplier gives the dynamic pool the fixed pool's 0.3% fee. */
  lemma InitialFeeIsFixedFee()
    ensures DynamicFeePool.GetFee(DynamicFeePool.InitialMultiplier) == 1.0 - FeeFactor
  {
  }
}

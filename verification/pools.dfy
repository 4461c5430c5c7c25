/**
 * What the two constant-product liquidity pools share: the pool id of a
 * token pair, the pool record, the deposit operation (identical in both
 * classes) and the constant-product price formula with its two facts.
 */
module Pools {
  import opened Balances
  import opened Text

  /** `{"reserve_a": ..., "reserve_b": ..., "liquidity_providers": {...}}`. */
  datatype Pool = Pool(reserveA: real, reserveB: real, providers: map<string, real>)

  /** The pools by pool id. */
  type PoolTable = map<string, Pool>

  /** A pool as `add_liquidity` creates it: empty reserves, no providers. */
  const EmptyPool: Pool := Pool(0.0, 0.0, map[])

  /** `_get_pool_id`: the smaller token name, a dash, the larger one. */
  function PoolId(tokenA: string, tokenB: string): string
  {
    Min(tokenA, tokenB) + "-" + Max(tokenA, tokenB)
  }

  /** The id does not depend on the order of the two tokens. */
  lemma PoolIdSymmetric(tokenA: string, tokenB: string)
    ensures PoolId(tokenA, tokenB) == PoolId(tokenB, tokenA)
  {
    LessTrichotomy(tokenA, tokenB);
  }

  /** Token names containing a dash can make two different pairs share one pool. */
  lemma PoolIdCollides()
    ensures PoolId("a-b", "c") == PoolId("a", "b-c")
  {
    assert Less("a-b", "c");
    assert Less("a", "b-c");
  }

  /** The pool stored under `id`, or a fresh empty one. */
  function PoolAt(pools: PoolTable, id: string): Pool
  {
    if id in pools then pools[id] else EmptyPool
  }

  /**
   * `add_liquidity` (the same in both classes): creates the pool if needed,
   * adds `amountA` to `reserve_a` and `amountB` to `reserve_b` in argument
   * order, and credits the user with the sum of the two amounts.
   */
  function AddLiquidity(pools: PoolTable, user: string, tokenA: string, tokenB: string, amountA: real, amountB: real): (r: PoolTable)
    ensures var id := PoolId(tokenA, tokenB);
      && r.Keys == pools.Keys + {id}
      && (forall other :: other in pools && other != id ==> r[other] == pools[other])
      && r[id].reserveA == PoolAt(pools, id).reserveA + amountA
      && r[id].reserveB == PoolAt(pools, id).reserveB + amountB
      && r[id].providers.Keys == PoolAt(pools, id).providers.Keys + {user}
      && r[id].providers[user] == Get(PoolAt(pools, id).providers, user) + amountA + amountB
      && (forall u :: u in PoolAt(pools, id).providers && u != user ==> r[id].providers[u] == PoolAt(pools, id).providers[u])
  {
    var id := PoolId(tokenA, tokenB);
    var pool := PoolAt(pools, id);
    pools[id := Pool(
      pool.reserveA + amountA,
      pool.reserveB + amountB,
      pool.providers[user := Get(pool.providers, user) + amountA + amountB])]
  }

  /**
   * The reserve `swap` reads for `token` when trading against `other`:
   * `reserve_a` when `token` is the smaller name, `reserve_b` otherwise.
   */
  function ReserveFor(p: Pool, token: string, other: string): real
  {
    if Less(token, other) then p.reserveA else p.reserveB
  }

  /** The reserve `swap` pays out of: the other one of the two. */
  function ReserveOut(p: Pool, tokenIn: string, tokenOut: string): real
  {
    if Less(tokenIn, tokenOut) then p.reserveB else p.reserveA
  }

  /**
   * The reserve update at the end of `swap`: the full input enters the
   * input reserve and the output leaves the other one.
   */
  function ApplySwap(p: Pool, tokenIn: string, tokenOut: string, input: real, output: real): (r: Pool)
    ensures r.providers == p.providers
    ensures ReserveFor(r, tokenIn, tokenOut) == ReserveFor(p, tokenIn, tokenOut) + input
    ensures ReserveOut(r, tokenIn, tokenOut) == ReserveOut(p, tokenIn, tokenOut) - output
    ensures r.reserveA * r.reserveB
         == (ReserveFor(p, tokenIn, tokenOut) + input) * (ReserveOut(p, tokenIn, tokenOut) - output)
  {
    if Less(tokenIn, tokenOut) then p.(reserveA := p.reserveA + input, reserveB := p.reserveB - output)
    else p.(reserveB := p.reserveB + input, reserveA := p.reserveA - output)
  }

  /**
   * The deposit credits `reserve_a` with the first amount whatever the
   * order of the names, so a deposit with the larger name first lands in
   * the reserves `swap` reads for the other token.
   */
  lemma AddLiquidityMisorders()
    ensures var r := AddLiquidity(map[], "u", "b", "a", 100.0, 1.0)[PoolId("b", "a")];
      ReserveFor(r, "b", "a") == 1.0 && ReserveFor(r, "a", "b") == 100.0
  {
    assert Less("a", "b");
  }

  /**
   * The deposit as evidently intended: each amount goes to the reserve that
   * `swap` reads for its own token, whichever order the names come in.
   */
  function AddLiquidityOrdered(pools: PoolTable, user: string, tokenA: string, tokenB: string, amountA: real, amountB: real): (r: PoolTable)
    ensures PoolId(tokenA, tokenB) in r
    ensures tokenA != tokenB ==>
      var id := PoolId(tokenA, tokenB);
      && ReserveFor(r[id], tokenA, tokenB) == ReserveFor(PoolAt(pools, id), tokenA, tokenB) + amountA
      && ReserveFor(r[id], tokenB, tokenA) == ReserveFor(PoolAt(pools, id), tokenB, tokenA) + amountB
    ensures Less(tokenA, tokenB) ==> r == AddLiquidity(pools, user, tokenA, tokenB, amountA, amountB)
  {
    LessTrichotomy(tokenA, tokenB);
    PoolIdSymmetric(tokenA, tokenB);
    if Less(tokenB, tokenA) then AddLiquidity(pools, user, tokenB, tokenA, amountB, amountA)
    else AddLiquidity(pools, user, tokenA, tokenB, amountA, amountB)
  }

  /** The constant-product output: `reserve_out * x / (reserve_in + x)`. */
  function SwapOutput(reserveIn: real, reserveOut: real, x: real): real
    requires reserveIn + x != 0.0
  {
    reserveOut * x / (reserveIn + x)
  }

  lemma QuotientBelowOne(x: real, d: real)
    requires 0.0 < d && x < d
    ensures x / d < 1.0
  {
    var q := x / d;
    assert q * d == x;
  }

  lemma QuotientAtLeastOne(n: real, d: real)
    requires 0.0 < d <= n
    ensures n / d >= 1.0
  {
    var q := n / d;
    assert (q - 1.0) * d == n - d;
  }

  lemma ScaleAtLeast(k: real, q: real)
    requires k >= 0.0 && q >= 1.0
    ensures k * q >= k
  {
    assert k * q - k == k * (q - 1.0);
  }

  /** A fee factor in [0, 1] leaves a non-negative input between zero and itself. */
  lemma ScaleBelow(input: real, f: real)
    requires input >= 0.0 && 0.0 <= f <= 1.0
    ensures 0.0 <= input * f <= input
  {
    assert input - input * f == input * (1.0 - f);
  }

  /** With both reserves positive the pool never pays out its whole output reserve. */
  lemma OutputBelowReserve(reserveIn: real, reserveOut: real, x: real)
    requires reserveIn > 0.0 && reserveOut > 0.0 && reserveIn + x > 0.0
    ensures SwapOutput(reserveIn, reserveOut, x) < reserveOut
  {
    var d := reserveIn + x;
    QuotientBelowOne(x, d);
    assert SwapOutput(reserveIn, reserveOut, x) == reserveOut * (x / d);
  }

  /**
   * x·y = k: when the fee-reduced input `x` is at most the full input that
   * enters the pool, the product of the reserves never decreases.
   */
  lemma ProductNonDecreasing(reserveIn: real, reserveOut: real, input: real, x: real)
    requires reserveIn >= 0.0 && reserveOut >= 0.0 && 0.0 <= x <= input
    requires reserveIn + x > 0.0
    ensures (reserveIn + input) * (reserveOut - SwapOutput(reserveIn, reserveOut, x)) >= reserveIn * reserveOut
  {
    var d := reserveIn + x;
    var left := reserveOut - SwapOutput(reserveIn, reserveOut, x);
    assert left == reserveOut * reserveIn / d by {
      assert reserveOut == reserveOut * d / d;
    }
    var k := reserveIn * reserveOut;
    var q := (reserveIn + input) / d;
    assert (reserveIn + input) * left == k * q;
    QuotientAtLeastOne(reserveIn + input, d);
    ScaleAtLeast(k, q);
  }

  /**
   * A swap priced by the constant-product formula on fee-reduced input
   * `x` never lowers the product of a pool's reserves.
   */
  lemma SwapKeepsProduct(p: Pool, tokenIn: string, tokenOut: string, input: real, x: real)
    requires p.reserveA >= 0.0 && p.reserveB >= 0.0 && 0.0 <= x <= input
    requires ReserveFor(p, tokenIn, tokenOut) + x > 0.0
    ensures var output := SwapOutput(ReserveFor(p, tokenIn, tokenOut), ReserveOut(p, tokenIn, tokenOut), x);
      ApplySwap(p, tokenIn, tokenOut, input, output).reserveA * ApplySwap(p, tokenIn, tokenOut, input, output).reserveB
        >= p.reserveA * p.reserveB
  {
    var rin, rout := ReserveFor(p, tokenIn, tokenOut), ReserveOut(p, tokenIn, tokenOut);
    ProductNonDecreasing(rin, rout, input, x);
    assert rin * rout == p.reserveA * p.reserveB;
  }
}

# QFC ledger core in Dafny

A functional model of the QFC toy sharded ledger and its feature modules.

Each Python object becomes an immutable datatype. Each method becomes a pure function (or, for the two nonce searches, a method with a loop) that takes the old state and returns the new one together with the Python return value.

A Python exception on a path the code does not guard is modelled as `Result.Raised(e)`, with `e` one of `KeyError`, `ValueError`, `IndexError`, `ZeroDivisionError` or `AttributeError`. Amounts are exact `real`s.

The following are parameters of the functions that use them:

- SHA-256 digests (`Digest`, `PowHash`);
- JSON encoding (`Dumps`);
- RSA-PSS signing and checking (`Signer`, `Checker`);
- `time.time()` readings;
- the `random.choice` of an energy source.

What is modelled, file by file:

- `base.dfy`, `balances.dfy`, `text.dfy`: shared vocabulary.
  - `Option`, `Result` and a JSON value type.
  - Python's `dict.get(k, 0)` and the sum of a balance table.
  - The string operations the code relies on: `startswith`, `"0" * n`, `in`, ASCII `lower()`, hex digits, `bytes.hex()` / `bytes.fromhex()`, and `<` / `min` / `max` on `str`.
- `transaction.py` → `Transactions`: construction with the 1% fee, total cost, `to_dict`, hash, signing and signature checking.
- `block.py` → `Blocks`: construction, the five-field hash and the `mine_block` nonce search.
- `shard.py` → `Shards`: genesis, tail, unchecked append, FIFO enqueue, and candidate-block construction that drains the queue.
- `cross_shard_coordinator.py` → `Coordinator`: first-hex-digit routing, and the stub prepare / commit / abort.
- `Blockchain.py` → `Ledger`: the native-asset balance table, transaction validation, and the balance update with its stale-read self-transfer.
- `green_pow.py` → `GreenPow`: nonce search over a chosen renewable source, windowed difficulty retargeting, `verify`, carbon-credit accrual.
- `green_consensus.py` → `GreenConsensus`: reward halving, the reward transaction, `validate_block`, `mine_block`.
- `carbon_market.py` → `CarbonMarket`: guarded credit purchases and sales, and price adjustment.
- `dex.py` → `Dex`: sorted order books with stable re-sorting, and the price-crossing matching loop with its trade log.
- `features/nft_marketplace.py` → `NftMarketplace`: mint, transfer, royalties, fractions, collections, listings and purchase with royalty settlement.
- `blockchain/liquidity_pool.py` and `liquidity_pool.py` → `Pools` (what the two share), `DynamicFeePool` and `FixedFeePool`.
- `services/compliance.py` → `Compliance`: KYC approval, the AML keyword scan and the address pattern.

The byte-identical copies elsewhere in the repository are covered by the same model:

- `src/block.py`;
- `src/cross_shard_coordinator.py`;
- `green_pow.py`, `green_consensus.py`, `carbon_market.py` and `dex.py` at the top level;
- `src/nft_marketplace.py`.

What the code does not do (and the model does not add):

- **Routing** is by the first character's hex value modulo the shard count, not by a stable hash.
- **Cross-shard commit** has no reservation-based two-phase commit. `prepare` always votes yes, so a cross-shard transfer is always enqueued on both shards and `abort` is never reached. The coordinator never touches balances.
- **Appending a block** (`add_block`) does not check linkage. Chain validity is instead proved for the create-then-append sequence (`Shards.CreateThenAddKeepsChainValid`).
- **Signatures** are taken over a hash that itself covers the signature field.
- **The reward transaction** is submitted through the ledger's own `add_transaction`. It never credits the miner (see `GreenConsensus.RewardMiner`).
- **Self-transfers:** balances are read before they are written, so a self-transfer mints its amount (see Findings).

## Model

| member | source | states |
|---|---|---|
| Transactions.NewTransaction | src/blockchain/transaction.py:10-17 | a new transaction keeps the given parties, amount, asset and time, charges a fee of one hundredth of the amount, and starts unsigned |
| Transactions.NewNativeTransaction | src/blockchain/transaction.py:10 | the asset defaults to "QFC" |
| Transactions.NewTransactionCost | src/blockchain/transaction.py:16-20 | the total cost of a new transaction is 1.01 times its amount, so strictly more than a positive amount |
| Transactions.ToDict | src/blockchain/transaction.py:22-31 | the dict has exactly the seven keys sender, recipient, amount, asset, timestamp, fee, signature |
| Transactions.ToDictRoundTrip | src/blockchain/transaction.py:22-31 | every field, the signature included, can be read back from the dict |
| Transactions.ToDictInjective | src/blockchain/transaction.py:22-31 | two transactions have equal dicts exactly when they are equal |
| Transactions.Dicts | src/blockchain/shard.py:28 | one dict per pending transaction, in queue order |
| Transactions.HashIdentifies | src/blockchain/transaction.py:33-46 | under a collision-free digest two transactions hash alike exactly when all seven fields agree, and signing changes the hash whenever it changes the signature, because the signature field is hashed |
| Transactions.Sign | src/blockchain/transaction.py:37-46 | signing changes only the signature, which decodes to the signer's output over the hash before signing |
| Transactions.VerifySignature | src/blockchain/transaction.py:48-63 | undecodable hex escapes as ValueError; otherwise the verdict is the checker's on the decoded bytes and the current hash, and never an exception |
| Transactions.SignedVerifyReturns | src/blockchain/transaction.py:37-63 | a signed transaction always verifies to a boolean, and the hash checked differs in its dict from the hash signed whenever the signature changed |
| Transactions.UnsignedVerifyReturns | src/blockchain/transaction.py:48-63 | an unsigned transaction verifies to the checker's verdict on empty bytes rather than raising |
| Text.ToHex | src/blockchain/transaction.py:46 | hex encoding writes two hex digits per byte |
| Text.FromHexToHex | src/blockchain/transaction.py:46-50 | decoding the stored hex gives back exactly the signed bytes |
| Blocks.HashedDict | src/blockchain/block.py:16-22 | the serialised dict has exactly the five keys index, transactions, previous_hash, nonce, timestamp |
| Blocks.HashedDictInjective | src/blockchain/block.py:15-23 | the serialised dict distinguishes every one of the five fields |
| Blocks.HashIgnoresHashAndSource | src/blockchain/block.py:15-23 | two blocks that agree on the five fields hash alike, whatever their stored hash or energy source |
| Blocks.NewBlock | src/blockchain/block.py:7-13 | a new block carries the given fields, no energy source, and a stored hash consistent with its fields |
| Blocks.MineBlock | src/blockchain/block.py:25-29 | the mined hash meets the target; only nonce and hash change; the nonce never decreases; consistency is kept; a block already meeting the target, or a non-positive difficulty, is returned untouched; no nonce skipped over meets the target |
| Text.Zeros | src/blockchain/block.py:26 | `"0" * n` is n zeros, empty for n <= 0 |
| Shards.NewShard | src/blockchain/shard.py:8-11 | a new shard has one consistent genesis block (index 0, no transactions, previous hash "0", nonce 0), an empty queue, and a valid chain |
| Shards.LatestBlock | src/blockchain/shard.py:14-15 | the tail is a block of the chain and, on a valid chain, the one at the last index |
| Shards.AddBlock | src/blockchain/shard.py:17-18 | the chain grows by exactly the given block at the end, without any check; the queue is untouched |
| Shards.AddTransaction | src/blockchain/shard.py:20-21 | the transaction joins the back of the queue; the chain is untouched |
| Shards.CreateBlock | src/blockchain/shard.py:23-32 | no block and no change exactly when nothing is pending; otherwise the whole queue, in order, goes into an unmined block that extends the tail, and the queue is emptied |
| Shards.CreateThenAddKeepsChainValid | src/blockchain/shard.py:17-32 | creating a block, mining it and appending it keeps every block at its index and linked to its predecessor's hash |
| Coordinator.ShardIndex | src/blockchain/cross_shard_coordinator.py:9-11 | routing succeeds exactly for a non-empty address starting with a hex digit and a non-empty shard list, giving the digit's value modulo the shard count; an empty address raises IndexError, a non-hex first character ValueError, and an empty shard list ZeroDivisionError |
| Coordinator.RoutingByFirstCharacter | src/blockchain/cross_shard_coordinator.py:10 | addresses sharing their first character go to the same shard |
| Coordinator.Prepare | src/blockchain/cross_shard_coordinator.py:25-27 | prepare always votes yes |
| Coordinator.Commit | src/blockchain/cross_shard_coordinator.py:29-32 | commit enqueues the transaction on the source and on the destination shard, reports success, and changes no other shard and no chain |
| Coordinator.Abort | src/blockchain/cross_shard_coordinator.py:34-36 | abort reports failure and changes nothing |
| Coordinator.Initiate | src/blockchain/cross_shard_coordinator.py:13-23 | a routing error propagates; otherwise the transaction is enqueued on the sender's and the recipient's shard (once when they coincide, returning None, else committing with True), and no other shard or chain changes |
| Coordinator.NeverAborts | src/blockchain/cross_shard_coordinator.py:20-27 | no transaction ever ends in an abort |
| Ledger.NewLedger | src/Blockchain.py:9-14 | a new ledger has the requested number of fresh shards, numbered in order, each with a genesis block stamped by its own clock reading, and no balances |
| Ledger.LatestBlock | src/Blockchain.py:21-22 | the ledger's latest block is shard 0's tail |
| Ledger.Balance | src/Blockchain.py:55-56 | an unknown address has balance zero; a known one its recorded balance |
| Ledger.VerifyTransaction | src/Blockchain.py:32-37 | a transaction is accepted exactly when its amount is positive and the sender's balance covers its total cost |
| Ledger.UpdateBalances | src/Blockchain.py:58-68 | an uncovered transfer changes nothing; a covered one debits the total cost from a distinct sender, credits the amount to the recipient over its old balance, and leaves every other balance alone |
| Ledger.AddTransaction | src/Blockchain.py:24-30 | a valid transaction whose sender can be routed is accepted, an invalid one returns false and changes nothing; an accepted one is queued on the sender's shard only and applied to the balances; a sender that cannot be routed raises before anything changes |
| Ledger.TransferBurnsFee | src/Blockchain.py:58-65 | a transfer between distinct addresses lowers the sum of all balances by exactly the fee |
| Ledger.SelfTransferCredits | src/Blockchain.py:59-65 | a covered self-transfer leaves the address at its old balance plus the amount |
| Ledger.SelfTransferMints | src/Blockchain.py:59-65 | a covered self-transfer raises the sum of all balances by the amount |
| Ledger.UpdateBalancesFresh | src/Blockchain.py:58-65 | the corrected update: it agrees with the original between distinct addresses, and a self-transfer costs its sender exactly the fee |
| Ledger.FreshUpdateBurnsFee | src/Blockchain.py:58-65 | with the corrected update every covered transfer, self-transfers included, lowers the sum of balances by exactly the fee |
| Ledger.BalancesStayNonNegative | src/Blockchain.py:24-65 | from non-negative balances, adding a transaction never makes a balance negative |
| GreenPow.NewPow | src/blockchain/green_pow.py:2-8 | the engine starts with the given difficulty, target and interval, no block times and no credits |
| GreenPow.AdjustDifficulty | src/blockchain/green_pow.py:36-43 | a window shorter than the interval changes nothing; a full one is emptied and raises the difficulty by one when the mean is under the target, lowers it by one but not below 1 when over, and keeps it when equal; from a non-negative difficulty it moves by at most one, and from a difficulty of at least 1 it stays at least 1 |
| GreenPow.AllFastRaises | src/blockchain/green_pow.py:37-40 | a full window of block times all under the target raises the difficulty by exactly one |
| GreenPow.AllSlowLowers | src/blockchain/green_pow.py:37-42 | a full window of block times all over the target lowers the difficulty by one, never below 1 |
| GreenPow.Verify | src/blockchain/green_pow.py:28-34 | verification holds exactly when the hash of the serialised dicts matches, meets the current difficulty and names a renewable source; it depends on the state only through the difficulty |
| GreenPow.PrefixWeakens | src/blockchain/green_pow.py:32 | a hash that meets a difficulty meets every lower one |
| GreenPow.AwardCarbonCredits | src/blockchain/green_pow.py:45-54 | the miner gains exactly the source's multiplier over its old credits (zero if new); other accounts are unchanged; no account loses credits |
| GreenPow.MultipliersCoverRenewables | src/blockchain/green_pow.py:47-52 | the multiplier table has an entry for exactly the four renewable sources |
| GreenPow.Mine | src/blockchain/green_pow.py:10-23 | the result is the least nonce from 0 whose hash over the chosen source meets the difficulty read at the start, together with that hash and source; the state records one block time, retargets and awards credits; the window stays under the interval; the mined data passes the data-level check `VerifyData` in the new state exactly when the hash meets the new difficulty, so whenever the difficulty did not rise |
| GreenConsensus.Reward | src/blockchain/green_consensus.py:27-28 | the reward lies between 1 and 50, and is 50 before the first halving |
| GreenConsensus.RewardNonIncreasing | src/blockchain/green_consensus.py:27-28 | the reward never grows with the height |
| GreenConsensus.RewardSchedule | src/blockchain/green_consensus.py:14-28 | the reward is 50 up to height 209999, 25 at 210000, 12 at 420000, 6 at 630000 and 1 from the sixth halving |
| GreenConsensus.RewardTransaction | src/blockchain/green_consensus.py:29 | the reward goes from "Network" to the miner in "QFC", for at least 1 |
| GreenConsensus.RewardMiner | src/blockchain/green_consensus.py:25-30 | the reward is never credited: when "Network" is short of the cost the call returns None and changes nothing, and otherwise routing "Network" raises ValueError |
| GreenConsensus.MineBlock | src/blockchain/green_consensus.py:22-23 | mining a block gives exactly what the engine's `mine` gives |
| GreenConsensus.ValidateBlockAsWritten | src/blockchain/green_consensus.py:17-20 | validation gives a verdict only for a mined block without transactions; anything else raises AttributeError |
| GreenConsensus.ValidateBlock | src/blockchain/green_consensus.py:17-20 | corrected validation rejects an unmined block and, for a block built from some transactions, agrees with `verify` on them |
| GreenConsensus.ValidateAsWrittenRaisesOnEveryBuiltBlock | src/blockchain/green_consensus.py:17-20 | every mined block that `create_block` built makes the original validation raise, while the corrected one gives `verify`'s verdict on the drained transactions |
| CarbonMarket.Debit | src/blockchain/carbon_market.py:7-9 | holders whose credits fall short are refused; a holder without an entry passing the guard raises KeyError; a holder with an entry and enough credits is always debited, by exactly the amount |
| CarbonMarket.BuyCredits | src/blockchain/carbon_market.py:6-12 | a purchase succeeds exactly when the buyer's credits cover the amount, then debits the amount and logs one buy costing amount times price; a refusal changes nothing; credits stay non-negative |
| CarbonMarket.SellCredits | src/blockchain/carbon_market.py:14-20 | the mirror of buying, logging the revenue amount times price |
| CarbonMarket.VolumeAppend | src/blockchain/carbon_market.py:23-24 | logging a record adds its amount to the volume of its own kind only |
| CarbonMarket.AdjustPrice | src/blockchain/carbon_market.py:22-29 | more bought than sold raises the price by 10%, more sold lowers it by 10%, a tie keeps it; the log is cleared; a positive price stays positive |
| CarbonMarket.LoneBuyRaisesPrice | src/blockchain/carbon_market.py:6-26 | one successful purchase on a freshly adjusted market raises the next price by 10% |
| Dex.Insert | src/dex.py:14-21 | stable insertion adds exactly the new order to the side's multiset |
| Dex.InsertSorted | src/dex.py:17-21 | stable insertion keeps a side sorted |
| Dex.InsertStable | src/dex.py:17-21 | after insertion the orders of any one price are in arrival order, the new one last |
| Dex.StableSort | src/dex.py:17-21 | sorting permutes the side into price order |
| Dex.StableSortStable | src/dex.py:17-21 | sorting keeps the orders of each price in their original order |
| Dex.StableSortSorted | src/dex.py:17-21 | sorting an already sorted side changes nothing |
| Dex.SortAfterAppend | src/dex.py:15-21 | appending and re-sorting a sorted side is the stable insertion of the new order |
| Dex.AppendSorted | src/dex.py:14-21 | appending and re-sorting adds exactly the new order and leaves the side sorted |
| Dex.PlaceOrder | src/dex.py:9-21 | placing an order opens the token's book if needed, adds exactly the order to its side in sorted order, and changes neither the other side nor any other token's book |
| Dex.PlaceOrderInsertsStably | src/dex.py:9-21 | on a sorted book the new order goes behind every order of its price, and price classes keep arrival order |
| Dex.MinAmount | src/dex.py:36 | the traded amount is one of the two head amounts and no larger than either |
| Dex.ReduceHead | src/dex.py:41-48 | reducing a head removes exactly the traded amount from the side, changes only the head, and pops it when it is used up |
| Dex.Match | src/dex.py:31-48 | matching ends with a book that no longer crosses, and leaves a non-crossing book alone with no trades |
| Dex.MatchRemainder | src/dex.py:41-48 | matching only drops heads and changes the amount of the surviving head, on both sides; every other remaining order is untouched and in place |
| Dex.ReduceHeadReduces | src/dex.py:36-48 | trading a non-negative amount no larger than the head from a side of non-negative amounts lowers that head, never below zero, and keeps the side non-negative |
| Dex.MatchReduces | src/dex.py:31-48 | with non-negative amounts on both sides, matching lowers the surviving head's amount, never below zero, and leaves both sides non-negative |
| Dex.MatchConserves | src/dex.py:36-42 | the amount leaving the buy side, the amount leaving the sell side and the amount traded are equal |
| Dex.MatchKeepsSorted | src/dex.py:41-48 | matching keeps each sorted side sorted |
| Dex.MatchPriceBounds | src/dex.py:31-37 | on sorted sides every trade is priced between the opening best ask and the opening best bid |
| Dex.MatchOrders | src/dex.py:24-48 | an unknown token is left alone with no trades; otherwise only that token's book changes, to a matched remainder of the old one |
| NftMarketplace.MintNft | src/features/nft_marketplace.py:10-20 | minting succeeds exactly for a new id, creating a token wholly owned by the minter, with no royalty, the minter as recipient and no listing; failure changes nothing |
| NftMarketplace.MintWhole | src/features/nft_marketplace.py:15 | a fresh token's fractions sum to one |
| NftMarketplace.TransferNft | src/features/nft_marketplace.py:23-27 | a transfer succeeds exactly when the sender owns the token, and then changes only its owner |
| NftMarketplace.TransferBack | src/features/nft_marketplace.py:23-27 | transferring back undoes a successful transfer |
| NftMarketplace.SetRoyalties | src/features/nft_marketplace.py:30-35 | royalties can be set exactly on an existing token, with any percentage, changing only percentage and recipient |
| NftMarketplace.FractionalizeNft | src/features/nft_marketplace.py:38-42 | fractions are replaced exactly when the token exists and the new ones sum to one; failure changes nothing |
| NftMarketplace.CreateCollection | src/features/nft_marketplace.py:45-49 | a collection is created exactly for a new id, empty and with the given owner |
| NftMarketplace.CreateCollectionOnce | src/features/nft_marketplace.py:45-49 | creating the same collection a second time fails |
| NftMarketplace.AddNftToCollection | src/features/nft_marketplace.py:51-55 | adding needs both token and collection, and appends the id even when it is already there |
| NftMarketplace.ListNftForSale | src/features/nft_marketplace.py:58-62 | listing succeeds exactly for an existing unlisted token, recording the price |
| NftMarketplace.ListOnce | src/features/nft_marketplace.py:58-62 | a listed token cannot be listed again |
| NftMarketplace.Move | src/features/nft_marketplace.py:71-72 | a payment changes only the payer's and the payee's entries and adds no key |
| NftMarketplace.MoveConserves | src/features/nft_marketplace.py:71-72 | a payment conserves the sum of all balances, even when payer and payee coincide |
| NftMarketplace.Settle | src/features/nft_marketplace.py:71-81 | settlement touches only buyer, seller and (with a positive percentage) the royalty recipient, and no key is added |
| NftMarketplace.SettleConserves | src/features/nft_marketplace.py:71-81 | settlement conserves the sum of all balances, whoever the parties are |
| NftMarketplace.SettlePays | src/features/nft_marketplace.py:71-81 | between distinct parties the buyer pays the price, the seller keeps the price less the royalty, and the recipient gets price times percentage over 100 |
| NftMarketplace.BuyNft | src/features/nft_marketplace.py:64-86 | a purchase goes ahead exactly for a listing with a non-zero price that the buyer's balance covers; otherwise nothing changes; on success the money is settled, the token passes to the buyer only if the seller owns it, and the listing is removed |
| NftMarketplace.BuyConserves | src/features/nft_marketplace.py:64-86 | a purchase conserves the sum of all balances, and the token can be listed again |
| NftMarketplace.BuyFromNonOwner | src/features/nft_marketplace.py:71-73 | buying from a non-owner succeeds and moves money but leaves the token with its owner |
| Text.LessTrichotomy | src/blockchain/liquidity_pool.py:52 | Python's string order is connex, asymmetric and irreflexive: of two distinct strings exactly one is smaller |
| Text.LessTransitive | src/blockchain/liquidity_pool.py:52 | the order is transitive, so together with the row above it is a strict total order |
| Pools.PoolIdSymmetric | src/blockchain/liquidity_pool.py:10-11 | the pool id does not depend on the order of the two tokens |
| Pools.PoolIdCollides | src/blockchain/liquidity_pool.py:10-11 | the pairs ("a-b", "c") and ("a", "b-c") share one pool id |
| Pools.AddLiquidity | src/blockchain/liquidity_pool.py:13-25 | a deposit creates the pool if needed, raises reserve_a and reserve_b by the amounts in argument order, credits the user with their sum, and changes no other pool or provider |
| Pools.AddLiquidityMisorders | src/blockchain/liquidity_pool.py:23-53 | a deposit naming the larger token first lands each amount in the reserve that a swap reads for the other token |
| Pools.AddLiquidityOrdered | src/blockchain/liquidity_pool.py:13-25 | the corrected deposit credits each amount to the reserve a swap reads for its own token, and equals the original when the names come in order |
| Pools.ApplySwap | src/blockchain/liquidity_pool.py:58-63 | the full input enters the input-side reserve and the output leaves the other; providers are untouched |
| Pools.OutputBelowReserve | src/blockchain/liquidity_pool.py:56 | with both reserves positive the output is below the output reserve |
| Pools.ProductNonDecreasing | src/liquidity_pool.py:62-72 | pricing a fee-reduced input by the constant-product formula never lowers the product of the reserves |
| Pools.SwapKeepsProduct | src/blockchain/liquidity_pool.py:55-63 | a swap on a pool with non-negative reserves never lowers reserve_a times reserve_b |
| DynamicFeePool.GetFee | src/blockchain/liquidity_pool.py:68-69 | inside the multiplier band [1, 2] the fee lies between 0.3% and 0.6% |
| DynamicFeePool.AdjustFee | src/blockchain/liquidity_pool.py:84-88 | high volatility sets the multiplier to its value plus 0.1, or to 2 when that is less, and never lowers it below where it was; low volatility sets it to its value minus 0.05, or to 1 when that is more; the band [1, 2] is preserved |
| DynamicFeePool.AdjustFeeSteps | src/blockchain/liquidity_pool.py:84-88 | a raise then a lowering nets at most +0.05, and the band's ends are fixed points |
| DynamicFeePool.RemoveLiquidity | src/blockchain/liquidity_pool.py:29-41 | a missing pool or provider changes nothing; otherwise both reserves scale by 1 − p and the share falls by p times the reserves after the removal; nothing else changes |
| DynamicFeePool.Swap | src/blockchain/liquidity_pool.py:45-66 | a missing pool gives None and no change; a zero denominator raises ZeroDivisionError; otherwise the output is the constant-product price of the fee-reduced input and the pool takes the full input |
| DynamicFeePool.SwapKeepsProductDynamic | src/blockchain/liquidity_pool.py:51-63 | inside the band, a swap never lowers the product of the pool's reserves |
| DynamicFeePool.SwapOutputBelowReserveDynamic | src/blockchain/liquidity_pool.py:55-56 | with positive reserves a swap pays out less than the output reserve |
| DynamicFeePool.GetPoolStats | src/blockchain/liquidity_pool.py:71-82 | a missing pool gives the message; otherwise the stats report the reserves, their sum and the providers |
| DynamicFeePool.FirstDepositStats | src/blockchain/liquidity_pool.py:13-82 | after the first deposit, looking the pool up in either token order reports the deposit's sum and the depositor alone |
| FixedFeePool.RemoveLiquidity | src/liquidity_pool.py:29-48 | a missing pool or provider changes nothing; otherwise both reserves scale by 1 − p and the share falls by p times the reserves before the removal |
| FixedFeePool.RemovalCharges | src/liquidity_pool.py:37-46 | both pools shrink the reserves alike, but the dynamic pool charges the provider 1 − p times what the fixed pool charges |
| FixedFeePool.Swap | src/liquidity_pool.py:50-75 | a missing pool gives None and no change; a zero denominator raises ZeroDivisionError; otherwise the output prices 99.7% of the input and the pool takes the full input |
| FixedFeePool.SwapKeepsProductFixed | src/liquidity_pool.py:60-72 | with non-negative reserves and input, a swap never lowers the product of the reserves |
| FixedFeePool.SwapOutputBelowReserveFixed | src/liquidity_pool.py:63-64 | with positive reserves a swap pays out less than the output reserve |
| FixedFeePool.SameSwapAtSameFee | src/liquidity_pool.py:63-64 | whenever the dynamic fee is 0.3% the two pools quote and apply the same swap |
| FixedFeePool.InitialFeeIsFixedFee | src/blockchain/liquidity_pool.py:7-8 | the dynamic pool starts at the fixed pool's 0.3% fee |
| Compliance.AllStrings | src/services/compliance.py:11 | the document check holds exactly when every document is a string |
| Compliance.PerformKyc | src/services/compliance.py:9-16 | approval happens exactly for a non-empty list of string documents and adds the user to the approved set; a refusal changes nothing |
| Compliance.KycIdempotent | src/services/compliance.py:11-14 | approving the same user twice leaves the state as approving once |
| Compliance.KycOnlyGrows | src/services/compliance.py:9-16 | an approved user stays approved whatever the outcome |
| Compliance.Scan | src/services/compliance.py:22-26 | the loop passes exactly when no keyword occurs in the description |
| Compliance.AmlCheck | src/services/compliance.py:18-26 | no description passes; a non-string description raises AttributeError; otherwise the check passes exactly when none of "terrorism", "laundering", "fraud" occurs in the lowercased description |
| Text.Lower | src/services/compliance.py:21 | lowercasing keeps the length and lowercases each ASCII letter |
| Compliance.LowerIdempotent | src/services/compliance.py:21 | lowercasing twice is lowercasing once |
| Compliance.AmlIgnoresCase | src/services/compliance.py:21-26 | a description and its lowercase get the same verdict |
| Compliance.AmlFlagsMixedCase | src/services/compliance.py:20-25 | "Fraud" is flagged |
| Compliance.HexRun | src/services/compliance.py:30 | a run of n hex digits is found exactly when n hex digits follow |
| Compliance.ValidateAddressShape | src/services/compliance.py:28-30 | an address is accepted exactly when it is "0x", 40 hex digits of either case, and then nothing or one newline |
| Compliance.AcceptedLength | src/services/compliance.py:30 | every accepted address has length 42, or 43 ending in a newline |
| Compliance.HexOfTwentyBytesValid | src/services/compliance.py:30 | "0x" followed by the hex of 20 bytes is accepted, with or without a final newline |

## Left out

- I/O: every `print`, and all logging of trades and transfers (`execute_trade`, `transfer_funds`, `transfer_tokens` in src/dex.py are kept only as a returned trade log).
- SHA-256, JSON encoding, RSA-PSS signing and verification, `time.time()` and `random.choice`: parameters, never interpreted. No sign-then-verify or mine-then-verify round trip is claimed, because the code hashes different data on the two sides.
- `Blockchain.mine_block` (src/Blockchain.py:39-53): it calls `json` without importing it, and a block has no `to_dict`, so it fails before mining; its steps are modelled separately.
- Coordinator.ShardIndex: routes only ASCII hex digits. Python's `int(c, 16)` also accepts every non-ASCII Unicode decimal digit (for example '٣', U+0663, worth 3), which the source routes and the model rejects with ValueError; the Unicode digit table is not modelled.
- `GreenConsensus.__init__` (src/blockchain/green_consensus.py:12-13) calls `GreenProofOfWork()` and `CarbonCreditMarket()`, but the file imports only `Block` and `Transaction` (lines 6-7). Constructing a `GreenConsensus` therefore raises NameError, and no instance can ever run `validate_block`, `mine_block` or `reward_miner`; those methods are modelled as if the two names were in scope.
- src/blockchain/green_pow.py has no import line at all. `mine` raises NameError at line 12 (`time`), `calculate_hash` at line 26 (`hashlib`), and `verify` at line 29 (`json`, looked up before the list comprehension runs); before Python 3.14 the `List[Transaction]` annotation at line 28 already makes importing the module fail. GreenPow.Mine, GreenPow.Verify and the rest of the proof-of-work are modelled as if `time`, `random`, `hashlib`, `json`, `List` and `Transaction` were imported.
- src/blockchain/carbon_market.py imports nothing, yet line 6 and line 14 annotate a parameter with `GreenProofOfWork`. Before Python 3.14 a parameter annotation is evaluated when the function is defined, so importing the module raises NameError; the market is modelled as if the name were in scope.
- `Blockchain.create_genesis_block` (src/Blockchain.py:18-19): unused, and the same as a shard's genesis block.
- GreenConsensus.RewardMiner: the height is a parameter, because `reward_miner` reads `.chain` on a Block (src/blockchain/green_consensus.py:26), which raises AttributeError first.
- Blocks.MineBlock: the unbounded nonce search is bounded by a ghost nonce `hit` that must qualify; a search that never ends is not modelled.
- GreenPow.Mine: the same bound as Blocks.MineBlock, with the hit nonce taken over the chosen source.
- GreenPow.AdjustDifficulty: requires a non-empty window whenever the window counts as full. The source divides by zero when the interval is not positive and no times are recorded.
- GreenPow.AwardCarbonCredits: requires a known source; `mine` only passes one of the four renewables, and an unknown one raises KeyError in the source.
- NftMarketplace.BuyNft: the KeyError the source raises when the buyer, the seller, or a royalty recipient under a positive percentage has no balance entry is excluded by a precondition rather than modelled. A buyer without an entry passes the balance check only at a negative listed price (an absent balance reads as 0), and then line 71 raises. When only the seller's entry is missing, line 71 has already debited the buyer before line 72 raises, so the source leaves a partial update that the model does not represent.
- NftMarketplace.FractionalizeNft: ghost, because summing a map's values is defined by picking keys in an unspecified order.
- Shards.LatestBlock: requires a non-empty chain, which every shard has from construction on.
- Shards.CreateBlock: the same non-empty-chain requirement.
- Ledger.LatestBlock: requires a shard 0 with a non-empty chain.
- Coordinator.Commit: requires the two indices to be distinct and in range, as its one caller guarantees.
- Dex.MatchRemainder: `place_order` (src/dex.py:9-13) accepts any amount, and a negative head amount makes the traded amount negative, which raises the other head's amount; so this lemma says only that the surviving head's amount changes, and Dex.MatchReduces states the lowering for non-negative amounts.
- Dex.Match: amounts are exact reals, so after a trade one head is exactly zero and is popped. With floats, `amount == 0` can miss a residue.
- Float rounding in general: the 1% fee, the 0.997 and 0.003 fee factors, the 1.1 and 0.9 price steps and `sum(fractions) == 1.0` are exact here.
- `str.lower()` is modelled on ASCII letters only; Unicode case mapping is not.
- KYC documents are JSON values, so "is a string" distinguishes strings from numbers, lists and objects; Python's other types (None, bool, bytes) have no counterpart.
- The pygame `Vector3` position of a shard (src/blockchain/shard.py:12): random and unused.
- The recorded total supply of one billion QFC (src/Blockchain.py:14) is a constant and is never enforced, as in the source.
- src/utilities/ai_optimizer.py, src/services/onramper.py, src/api/node_api.py, src/wallet/wallet.py and src/utilities/visualization.py: model training, HTTP calls, web routes, key generation and plotting, outside the ledger core.

## Findings

| source | as written | input that shows it | evidently intended | confidence | as-written member | corrected member |
|---|---|---|---|---|---|---|
| src/blockchain/green_consensus.py:17-20 | `validate_block` reads `block.energy_source`, which only a mined block has, then hands `verify` the block's transactions, which are already dicts; `verify` calls `to_dict()` on each | any block that `create_block` built from a non-empty queue, after mining: AttributeError (assuming the names green_consensus.py and green_pow.py fail to import are in scope; as written, a block that has an energy source reaches green_pow.py:29 and raises NameError for `json` there, before any `to_dict` call) | serialise the block's transaction dicts as they are, and treat a block without an energy source as invalid | not executed | GreenConsensus.ValidateAsWrittenRaisesOnEveryBuiltBlock | GreenConsensus.ValidateBlock |
| src/blockchain/liquidity_pool.py:23-24 | `add_liquidity` credits `reserve_a` with the first amount in argument order, while `swap` (lines 52-53) reads `reserve_a` as the reserve of the smaller token name; src/liquidity_pool.py:21-22 and 60 repeat it | `add_liquidity(u, "b", "a", 100, 1)`: the 100 "b" land in the reserve `swap` reads for "a" | credit each amount to its own token's reserve | not executed | Pools.AddLiquidityMisorders | Pools.AddLiquidityOrdered |
| src/Blockchain.py:59-65 | both balances are read before either write, so for a self-transfer the credit overwrites the debit | a self-transfer of 10 from an address holding 100: it ends at 110, and the sum of balances grows by 10 | the recipient's balance is read after the debit, so a self-transfer costs only the fee | not executed | Ledger.SelfTransferMints | Ledger.FreshUpdateBurnsFee |

# atomarb: pricing, sizing, capital and execution of two-leg circuits

atomarb looks for circuits `WSOL -> token (pool A) -> WSOL (pool B)` over two on-chain market makers, Raydium CPMM and
PumpSwap. It prices every leg off-chain with integer arithmetic that mirrors the programs, searches for the best size,
reserves capital for it, and has an on-chain executor that runs both legs in one transaction and checks the result by
balance deltas. This project models that logic in Dafny and proves what it is for: the quotes mean what they say, pools
and ledgers keep their invariants over every run, and the executor certifies exactly the profit the engine computed.

`dafny verify dfyconfig.toml` checks everything.

## How it is organised

| part | modules |
|---|---|
| arithmetic and proportional fees | `Arith`, `Outcomes`, `ProportionalFee`, `TransferFee` |
| Raydium: checked port, mathematical stages, simulations, fees, pool runs, a swap in the pool's own fields, Rust twin | `RaydiumMath`, `RaydiumExact`, `RaydiumSwap`, `RaydiumFees`, `RaydiumPool`, `RaydiumTerms`, `RaydiumRust` |
| PumpSwap: swap math, fee tiers, fees, pool runs, a trade in the pool's own fields, exact conditions | `PumpMath`, `FeeSchedule`, `PumpFees`, `PumpPool`, `PumpTerms`, `PumpConditions`, `PumpGain` |
| routing: enumeration, evaluation, sizing, what the search finds, the fee wall | `Enumerate`, `Circuit`, `Sizing`, `FeeWall` |
| capital ledger, its limits and journal in its own fields, decision policy | `Capital`, `CapitalTerms`, `Shadow` |
| RPC admission control, and the life of one call | `Rpc`, `RpcCalls` |
| population ranking, and its report in terms of the rows | `Sorting`, `Population`, `Routes`, `Shortlist`, `RowTerms`, `RouteTerms`, `PopulationTerms` |
| on-chain executor, direct two-swap circuits, a worked example | `Executor`, `Rebuild`, `Example` |

`Example` holds concrete pools on which the hypotheses of the general results are met together: a profitable circuit, its
execution up to exactly that profit, and a swap that Rust quotes and TypeScript refuses.

Two forms appear side by side. Code that computes is a function (`Checked`, `SwapOutcome`, `MathResult` and similar
datatypes carry the source's nulls, refusals and thrown overflows). Code that changes state step by step is a method or
a class (`Capital.CapitalLedger`, `Rpc.RpcClient`, `Executor.Bank`, the sizing, tier, indexing and shortlist loops),
proved equal to a function on values, about which the run-long properties are then lemmas.

The modules ending in `Terms`, with `RpcCalls` and `Sizing`, say what the results mean without the functions that compute
them: in fields, products, replies and code units, completely enough that each function is determined by its terms.

The central idea for Raydium is that an exact-in swap is five monotone stages (transfer fee in, input fee, curve, output
fee, transfer fee out), each with a least pre-image; `StagesAdjoint` composes the five adjunctions. The checked u64/u128
simulation is proved total against those stages, and exact-out is proved to be their least inverse.

## Hypotheses

* Raydium (`RaydiumExact.ValidContext`, `RaydiumPool.WellFormed`): trade plus creator rate below 1e6, protocol plus fund
  rate at most 1e6, both fee-adjusted reserves positive, u64 vaults, counters covered by the vaults, creator-fee mode 0, 1
  or 2, transfer-fee tiers at most 10000 basis points. These are what pool validation establishes
  (src/adapters/raydium_cpmm/adapter.ts:118-191). They are assumed of the first state only; every run keeps them.
* PumpSwap (`PumpPool.WellFormed`): positive base reserve, non-negative raw quote and virtual reserves, positive effective
  quote, non-empty tier lists, transfer-fee tiers at most 10000 basis points. Fee rates are arbitrary.
* RPC: a monotone clock and a non-negative rate. Tokens are exact rationals. Progress needs a rate of at least one.
* Population: equal JSON texts of two rows' hints mean equal hints. For the shortlist's greedy choice, no address is listed
  by both adapters. For the order of scores, the counts fit the four and eighteen digits they are padded to.
* Ledger: the three fractions are given in millionths, as `Math.round(x * 1e6)` leaves them.

## Where the code and its comments disagree, or a plain claim fails

* `spendableBudgetFor`'s comment says the program debits the budget or one lamport less, and that the budget found is the
  largest. Each holds for every budget and pool if and only if the fees total at most 10000 basis points
  (`PumpMath.DebitWithinOneLamport`, `PumpConditions.FindsLargestIff`). Re-deriving the budget from a quoted debit works
  at every rate all the same (`PumpPool.QuoteThenBuild`).
* A larger PumpSwap budget can buy less. It never does, on any pool, if and only if a check of 10000 amounts passes
  (`PumpConditions.BuysMonotoneIff`); with fees of at most 100% the check is whether one of the three rates is zero, and a
  zero rate is always enough (`PumpConditions.NeverDropsIff`). The effective quote falls by at most one lamport
  (`PumpMath.EffectiveQuoteAlmostMonotone`). `PumpConditions.BuyNotMonotone` gives the two accepted budgets.
* Selling more on PumpSwap can net less. It never does, on any pool, if and only if at most one of the three rates is
  non-zero or fees of 100% refuse every sell (`PumpConditions.SellsMonotoneIff`). Each rate beyond the first can cost one
  lamport and no more (`PumpConditions.PumpSellAlmostMonotone`), and does at any rates below 100%
  (`PumpConditions.SlackIsReached`). A Raydium quote never pays less for more (`Rebuild.RaydiumMonotone`).
* A PumpSwap trade can lower the product of reserves. None does, on any pool with the given transfer tiers and fees, if and
  only if the base mint never charges a transfer fee or fees of 100% refuse every sell (`PumpConditions.ProductKeptIff`).
* Traders can gain WSOL on PumpSwap without giving up base. No run on any pool with the given transfer tiers, whatever its
  fees, lets them if and only if the base mint never charges a transfer fee (`PumpGain.NeverGainsIff`);
  `PumpGain.GainingRun` gives a run for every such mint, on a pool with a fee-free schedule. Neither token is ever created,
  on any mint (`PumpPool.RunConserves`).
* A live settlement can leave the ledger above its caps. A given settlement never does, on any ledger a run reaches, if and
  only if it does not lose money (`Capital.LossIsWhatBreaksCaps`); `Capital.LiveLossBreaksCaps` gives the failing run for
  every loss. Hypothetical runs keep every cap.
* A configured rate below one request per second is accepted (src/config/schema.ts:9) and starves every call: nothing is
  ever sent (`Rpc.NothingEverSent`). A client with budget and a slot can send if and only if the rate is at least one
  (`Rpc.SendsIff`).
* The Rust quote does not look at the input vault's u64 limit: it quotes exactly the swaps the TypeScript math accepts or
  refuses for that limit (`RaydiumRust.RustQuotesIff`).
* `dedupAndIndex` is commented "first occurrence wins"; the code keeps the highest-scoring row, which is what makes the
  result order-independent (`Population.WinnersIgnoreOrder`). Another comment prefers the lexicographically smaller hint
  text among equals; the code keeps the larger (`RowTerms.RichestRowWins`).
* The queue of the RPC client is first in, first out, but not fair: a call that ends its back-off wakes the head of the
  queue and, unless the budget is spent, takes its own slot back before the woken call runs, which may send that call to the
  end of the queue (`RpcCalls.RetryKeepsSlot`, `RpcCalls.ResumeAsks`).
* Refinement never looks at the middle of a bracket two lamports wide (`Sizing.TwoWideStands`), so on a profit with a single
  peak it finds a size within one lamport of the peak (`Sizing.SizePeaked`).
* With the creator fee on the input and both trade and creator rate zero, the fee split divides zero by zero and the
  swap is refused as ZERO_TRADING_TOKENS; it is the only refusal of the curve on a valid pool (`RaydiumSwap.CurveInputExact`).

## Model

| member | source | states |
|---|---|---|
| TransferFee.NetOfAdjoint | src/adapters/raydium_cpmm/math.ts:176-183 | gross amounts that deliver at least a net amount are exactly those from its least gross amount on |
| TransferFee.NetOfGrossFor | src/adapters/raydium_cpmm/math.ts:185-196 | the least gross amount delivers the net amount exactly |
| TransferFee.InversesAgree | src/state/token.ts:93-100 | the short inverse fee equals the program's checked inverse wherever the gross fits u64; elsewhere the latter is None |
| TransferFee.InverseFeeIsLeast | src/state/token.ts:87-100 | net plus the inverse fee is the least gross amount delivering the net |
| TransferFee.GetTransferInverseFeeExact | src/adapters/raydium_cpmm/math.ts:212-226 | the checked inverse returns the least gross or overflows; TRANSFER_FEE_CALCULATE_NOT_MATCH is unreachable |
| TransferFee.GetTransferFeeExact | src/adapters/raydium_cpmm/math.ts:204-209 | on any u64 amount and valid mint the transfer fee never overflows and never exceeds the amount |
| TransferFee.SwapFeeInForce | src/adapters/raydium_cpmm/math.ts:168-209 | the fee charged is the capped ceiling share of the tier in force: the newer one from its epoch on, else the older, none for SPL mints |
| ProportionalFee.NetAdjoint | src/adapters/raydium_cpmm/math.ts:44-52 | with a rate below one, a ceiling fee and calculate_pre_fee_amount are adjoint |
| ProportionalFee.NetOfLeastGross | src/adapters/raydium_cpmm/math.ts:44-52 | charging the fee on the pre-fee amount gives back the post-fee amount |
| RaydiumExact.CurveAdjoint | src/adapters/raydium_cpmm/math.ts:57-77 | the exact-out curve input is the least exact-in curve input reaching the output |
| RaydiumExact.ConstantGain | src/adapters/raydium_cpmm/math.ts:57-64 | the product of reserves grows by exactly the remainder the curve rounds away |
| RaydiumExact.ConstantFitsU128 | src/adapters/raydium_cpmm/math.ts:299-318 | for all u64 reserves and inputs the product after the swap is at most 2^128 - 2 |
| RaydiumExact.StagesAdjoint | src/adapters/raydium_cpmm/math.ts:299-392 | inputs whose five stages deliver at least r are exactly those from the composed least pre-image on |
| RaydiumSwap.CurveInputExact | src/adapters/raydium_cpmm/math.ts:99-131 | the checked exact-in curve on any valid rates: new vaults, output and fee balance, or the one refusal |
| RaydiumSwap.CurveOutputValue | src/adapters/raydium_cpmm/math.ts:134-165 | whatever the checked exact-out curve returns, of any size, is the least pre-image of each stage, with the new vaults and fee balance |
| RaydiumSwap.CurveOutputIff | src/adapters/raydium_cpmm/math.ts:134-165 | it returns a u64 input if and only if those pre-images exist, fit, and the fee can be split |
| RaydiumSwap.ExactInIsTotal | src/adapters/raydium_cpmm/math.ts:299-337 | on a valid pool the simulation realises the stages or refuses for one of five listed reasons, in order, with no overflow |
| RaydiumSwap.U128IsEnough | src/adapters/raydium_cpmm/math.ts:299-337 | no input panics the u128 arithmetic; CONSTANT_PRODUCT_DECREASED and the post-swap INSUFFICIENT_VAULT are unreachable |
| RaydiumSwap.ExactOutAccepts | src/adapters/raydium_cpmm/math.ts:360-392 | every feasible exact-out request is accepted and asks the composed least pre-image |
| RaydiumSwap.ExactOutOnlyIfFeasible | src/adapters/raydium_cpmm/math.ts:360-392 | only feasible requests are accepted |
| RaydiumSwap.ExactOutIsLeastInput | src/adapters/raydium_cpmm/math.ts:299-392 | the input exact-out asks succeeds as exact-in, delivers at least r, and no smaller input does |
| RaydiumFees.ExactInShares | src/adapters/raydium_cpmm/math.ts:99-131 | each fee is the floor or ceiling share the program states, of the base it states |
| RaydiumFees.ExactOutShares | src/adapters/raydium_cpmm/math.ts:134-165 | exact-out charges the same shares of the amounts it works back to |
| RaydiumFees.AcceptedFeesAreShares | src/adapters/raydium_cpmm/math.ts:299-337 | an accepted quote charges, at the rates the simulation passes on, the shares of ExactInShares; which configured rate is whose is RaydiumTerms.AcceptedQuoteMeetsTerms |
| RaydiumFees.AcceptedQuoteAccrues | src/adapters/raydium_cpmm/math.ts:395-413 | protocol and fund fees accrue on the input token, the creator fee on the token it was taken from, nothing else moves |
| RaydiumPool.AcceptedSimulation | src/adapters/raydium_cpmm/adapter.ts:193-209 | an accepted quote comes from an accepted simulation of a u64 amount that realises the stages |
| RaydiumTerms.AcceptedQuoteMeetsTerms | src/adapters/raydium_cpmm/adapter.ts:193-237 | in the pool's fields: trade, protocol, fund and creator fees are the stated shares of the configured rates, the creator fee only if enabled and on the configured side, the output is the product bracket, the transfer fees are those in force |
| RaydiumTerms.TermsDetermineQuote | src/adapters/raydium_cpmm/math.ts:299-337 | those terms leave exactly one quote for an amount |
| RaydiumTerms.AcceptedIff | src/adapters/raydium_cpmm/adapter.ts:193-237 | a quote is accepted if and only if the pool is approved and none of the listed refusals holds |
| RaydiumTerms.StagesMeetTerms | src/adapters/raydium_cpmm/math.ts:299-337 | what each of the five stages takes off, in the pool's fields, whether or not the swap is accepted |
| RaydiumTerms.InputAcceptedIff | src/adapters/raydium_cpmm/math.ts:299-337 | exact-in is accepted if and only if amount and vault fit u64, something and at least the minimum is received, and the creator share is not split from a zero rate |
| RaydiumTerms.InputRefusedInOrder | src/adapters/raydium_cpmm/math.ts:299-337 | each refusal of exact-in, in the order of the checks |
| RaydiumTerms.ExactOutMeetsTerms | src/adapters/raydium_cpmm/math.ts:360-392 | exact-out charges the same configured shares and the transfer fees in force on both gross amounts |
| RaydiumTerms.AppliesOwnQuotesOnly | src/adapters/raydium_cpmm/adapter.ts:240-258 | a quote applies if and only if the pool itself quotes those amounts; otherwise QUOTE_STATE_MISMATCH |
| RaydiumPool.QuoteItemises | src/adapters/raydium_cpmm/adapter.ts:210-236 | the fee items account for every unit between what the trader gives and gets |
| RaydiumPool.AcceptedQuoteApplies | src/adapters/raydium_cpmm/adapter.ts:240-258 | every accepted quote applies, to a well-formed pool whose pricing reserves are the curve's plus the LP fee, exactly |
| RaydiumPool.ProductNeverFalls | src/adapters/raydium_cpmm/adapter.ts:240-258 | applying an accepted quote never lowers the product of fee-adjusted reserves |
| RaydiumPool.RunKeeps | src/adapters/raydium_cpmm/adapter.ts:240-258 | every run keeps well-formedness, the product, and traders plus reserves per token |
| RaydiumPool.NoFreeTokens | src/adapters/raydium_cpmm/adapter.ts:240-258 | over any run traders who end with no less of one token end with no more of the other |
| RaydiumRust.CurvesAgree | integrations/raydium_cpmm_amm/src/lib.rs:222-269 | both curve implementations return the same result wherever the TypeScript one does |
| RaydiumRust.RustAgrees | integrations/raydium_cpmm_amm/src/lib.rs:482-556 | on every swap the TypeScript math accepts, the Rust quote returns the same amount and the same input-side fee |
| RaydiumRust.RustQuotesIff | integrations/raydium_cpmm_amm/src/lib.rs:482-556 | the Rust quote exists if and only if the TypeScript math accepts the swap or refuses it for the vault's u64 limit |
| PumpMath.FeesOnBounds | src/adapters/pumpswap/math.ts:23-23 | three separate ceilings exceed the combined rate by less than three lamports |
| PumpMath.CorrectionAtMostTwo | src/adapters/pumpswap/math.ts:76-80 | whatever the rates the correction takes back at most two lamports and the debit never exceeds the budget |
| PumpMath.EffectiveQuoteAlmostMonotone | src/adapters/pumpswap/math.ts:76-80 | a larger budget lowers the effective quote by at most one lamport |
| PumpMath.DebitWithinOneLamport | src/adapters/pumpswap/math.ts:72-85 | the debit is the budget or one less for all budgets if and only if fees total at most 10000 basis points |
| PumpMath.BuyCurve | src/adapters/pumpswap/math.ts:81-85 | a buy never empties the base reserve nor lowers the product |
| PumpMath.BuyBaseAsksLeast | src/adapters/pumpswap/math.ts:39-47 | an exact-base buy asks the least curve input that buys the wanted base |
| PumpMath.SellCurve | src/adapters/pumpswap/math.ts:94-103 | a sell never empties the effective quote nor lowers the product |
| FeeSchedule.CalculateFeeTier | src/adapters/pumpswap/fees.ts:37-43 | the early test and backward scan find the highest tier reached, else the first |
| FeeSchedule.TierFollowsMarketCap | src/adapters/pumpswap/fees.ts:37-43 | with ordered thresholds a dearer pool never gets a lower tier |
| FeeSchedule.ScheduleExists | src/adapters/pumpswap/fees.ts:78-91 | a configured pool has a schedule if and only if its base reserve is positive; which schedule is PumpTerms.ScheduleMeetsTerms |
| PumpTerms.ScheduleMeetsTerms | src/adapters/pumpswap/fees.ts:30-91 | in products: the fees are those of the last tier whose threshold times base is at most effective quote times supply (fixed for mayhem pools), or the first; the list or flat rate of the quote kind; the creator override and the missing creator |
| PumpTerms.ScheduleDetermined | src/adapters/pumpswap/fees.ts:30-91 | those terms leave exactly one schedule |
| PumpFees.BuyItemises | src/adapters/pumpswap/adapter.ts:196-225 | on a buy the LP fee stays in the vault, the other two leave, each the least amount covering its rate |
| PumpFees.SellItemises | src/adapters/pumpswap/adapter.ts:226-245 | on a sell the curve prices the gross base, the vault receives the net, and the fees come out of the quote |
| PumpTerms.BuyMeetsTerms | src/adapters/pumpswap/math.ts:72-85 | an accepted buy debits the inverted budget with its three fees, pays the product bracket of the quote less one lamport and the larger scheduled transfer fee, and leaves exactly that in the vaults |
| PumpTerms.InvertsOnce | src/adapters/pumpswap/math.ts:76-80 | every budget inverts in exactly one way |
| PumpTerms.BuyAcceptedIff | src/adapters/pumpswap/adapter.ts:184-225 | a buy is accepted if and only if buying is enabled, not blocked, and the inverted quote less one lamport buys something |
| PumpTerms.SellMeetsTerms | src/adapters/pumpswap/math.ts:94-103 | an accepted sell pays the bracket less three fees and leaves exactly the net base in and the LP share back |
| PumpTerms.SellAcceptedIff | src/adapters/pumpswap/adapter.ts:184-245 | a sell is accepted if and only if selling is enabled, not blocked, the raw vault covers it and something is left |
| PumpTerms.BuyBaseTerms | src/adapters/pumpswap/math.ts:38-47 | an exact-base buy is accepted strictly below the reserve and asks the least quote plus its three fees |
| PumpTerms.BuyRefusals | src/adapters/pumpswap/math.ts:72-85 | each refusal of a buy, in order, for reserves of any sign |
| PumpTerms.SellRefusals | src/adapters/pumpswap/math.ts:94-103 | each refusal of a sell, in order |
| PumpPool.QuoteThenBuild | src/adapters/pumpswap/adapter.ts:269-275 | the budget re-derived from a quoted debit exists, is debited exactly that, and buys at least the quoted base |
| PumpPool.NeverEmpty | src/adapters/pumpswap/math.ts:26-31 | EMPTY_POOL never arises on a well-formed pool, and it has a schedule |
| PumpPool.AcceptedQuoteApplies | src/adapters/pumpswap/adapter.ts:247-262 | an accepted quote never ends in NEGATIVE_RESERVE |
| PumpPool.RunStaysWellFormed | src/adapters/pumpswap/adapter.ts:247-262 | every run, on any base mint, keeps base and effective quote positive and the raw quote vault non-negative |
| PumpPool.RunConserves | src/adapters/pumpswap/adapter.ts:247-262 | every run, on any base mint, leaves traders and vault together with no more base and no more WSOL |
| PumpPool.RunKeepsProduct | src/adapters/pumpswap/adapter.ts:247-262 | on a fee-free base mint no run lowers the product of reserves |
| PumpPool.NoFreeLamports | src/adapters/pumpswap/adapter.ts:247-262 | over any run, tiers re-selected each step, the pool stays tradeable; on a fee-free base mint no trader gains WSOL without giving up base, nor the reverse |
| PumpGain.NeverGainsIff | src/adapters/pumpswap/adapter.ts:196-262 | over every pool with the tiers and every run nothing is gained for nothing if and only if no transfer fee is ever charged |
| PumpGain.GainingRun | src/adapters/pumpswap/adapter.ts:226-262 | for every transfer-fee mint, a well-formed pool and a run that ends with no less base and one lamport more |
| PumpConditions.BuysMonotoneIff | src/adapters/pumpswap/math.ts:72-85 | buys are monotone in the budget, on every pool, if and only if no amount up to 10000 drops; and so is the effective quote |
| PumpConditions.NeverDropsIff | src/adapters/pumpswap/math.ts:76-80 | a zero rate is enough for that, and up to a total of 100% it is also necessary |
| PumpConditions.BuyNotMonotone | src/adapters/pumpswap/math.ts:72-85 | for any three rates totalling at most 100%, a well-formed pool and two consecutive accepted budgets of which the larger buys less |
| PumpConditions.SellsMonotoneIff | src/adapters/pumpswap/math.ts:94-103 | sells are monotone, on every pool, if and only if at most one rate is non-zero or no sell is accepted at all |
| PumpConditions.PumpSellAlmostMonotone | src/adapters/pumpswap/math.ts:94-103 | a larger accepted sell nets less by at most one lamport for each rate beyond the first, on any pool |
| PumpConditions.SlackIsReached | src/adapters/pumpswap/math.ts:94-103 | at any rates below 100%, two accepted sells of a well-formed pool that lose exactly that |
| PumpConditions.ProductKeptIff | src/adapters/pumpswap/adapter.ts:196-262 | every accepted trade keeps the product, on every pool with these tiers and fees, if and only if no transfer fee is ever charged or no sell is accepted |
| PumpConditions.SellOfOneLowersProduct | src/adapters/pumpswap/adapter.ts:226-262 | on any pool of a transfer-fee mint an accepted sell of one unit strictly lowers the product |
| PumpConditions.FindsLargestIff | src/adapters/pumpswap/adapter.ts:264-275 | the budget found is debited within the amount and is the largest such, on every pool, if and only if fees total at most 10000 basis points |
| Enumerate.EnumerateCircuits | src/routing/circuit.ts:18-36 | exactly the ordered pairs of differently addressed pools sharing a token, each once, the later listing of an address counting |
| Circuit.NoInventorySold | src/routing/circuit.ts:41-52 | leg B always sells exactly leg A's output, so the inventory check of the pnl never fires |
| Circuit.Evaluate | src/routing/circuit.ts:65-69 | the memoised evaluation equals a fresh one, records each size once and nothing above the cap |
| Circuit.ConsiderKeepsBest | src/routing/circuit.ts:71-73 | considering an evaluation keeps the best the first maximum over everything evaluated |
| Circuit.Refine | src/routing/circuit.ts:74-86 | the returned bracket is the one the narrowing steps lead to, the points recorded are exactly the sizes they look at; that the steps keep the peak and shrink is Sizing.NarrowKeepsPeak and NarrowWidth |
| Circuit.SizeCircuit | src/routing/circuit.ts:62-88 | the grid in order, then exactly the refinement, is evaluated; the best is the first maximum of everything evaluated, none if and only if none is positive |
| Sizing.EvaluationEnds | src/routing/circuit.ts:41-52 | on well-formed pools, the reason of every failure and the figures of every success; no leg is ever unsupported |
| Sizing.NarrowKeepsPeak | src/routing/circuit.ts:78-84 | when the comparable pnl rises strictly to a peak and never rises after it, no number of steps loses the peak |
| Sizing.NarrowWidth | src/routing/circuit.ts:78-79 | after n steps at most (2/3)^n of the width beyond two is left, and never less than two |
| Sizing.TwoWideStands | src/routing/circuit.ts:78-79 | a bracket two wide stands still and its middle is never looked at |
| Sizing.SizePeaked | src/routing/circuit.ts:62-88 | with enough steps the answer pays at least what some evaluated size within one lamport of the peak pays |
| Sizing.FailureIsLeast | src/routing/circuit.ts:82-82 | a failed size compares below every evaluated one below 2^120 |
| FeeWall.RaydiumBelowPrice | src/adapters/raydium_cpmm/math.ts:299-337 | no accepted swap beats the reserve price reduced by trade plus creator rate, in either mode |
| FeeWall.AdvertisedTerms | scripts/verify_candidates.ts:40-64 | the rate and reserves of the wall in the pool's own fields: configured trade plus creator rate, or the schedule in force |
| FeeWall.PumpBuyBelowPrice | src/adapters/pumpswap/math.ts:72-85 | no accepted buy beats the effective-quote price reduced by the three rates |
| FeeWall.PumpSellBelowPrice | src/adapters/pumpswap/math.ts:94-103 | no accepted sell beats the effective-quote price reduced by the three rates |
| FeeWall.ProfitClearsWall | src/routing/circuit.ts:41-52 | a circuit that loses nothing at any size has a price ratio above (1 + feeA)(1 + feeB) |
| FeeWall.GapWithinFeesNeverPays | scripts/verify_candidates.ts:40-64 | a gap at most the summed advertised rates is unprofitable at every size |
| FeeWall.OneDirectionAtMost | src/routing/circuit.ts:18-52 | the two directions of a pair are never both free of loss, at any two sizes |
| FeeWall.SizeWithinFees | src/routing/circuit.ts:62-88 | sizing such a circuit chooses the zero trade after the grid alone |
| Capital.CapitalLedger.Reserve | src/accounting/capital.ts:75-95 | the checks in order, the whole new state and the result, granted or refused |
| Capital.CapitalLedger.Settle | src/accounting/capital.ts:101-113 | the whole new state of a settlement, including the two thrown errors |
| Capital.CapitalLedger.FindConflict | src/accounting/capital.ts:83-87 | the scan reports the conflict of the oldest pending position that has one |
| Capital.NoConflictIffDisjoint | src/accounting/capital.ts:83-87 | no conflict is found if and only if pools and mint are disjoint from every pending position |
| Capital.CapacityIsExact | src/accounting/capital.ts:49-66 | a position is granted if and only if it is positive, conflict-free and at most capacityFor |
| Capital.CapRefusalMeansTooLarge | src/accounting/capital.ts:75-91 | a cap code means exactly that the amount exceeds the capacity; any other refusal would refuse every size |
| CapitalTerms.BudgetIsLargest | src/accounting/capital.ts:47-57 | in products of capital and fractions: the budget is the largest amount within the episode, the open limit and above the reserve floor |
| CapitalTerms.RefusedExactlyFor | src/accounting/capital.ts:75-95 | each refusal code holds exactly for its reason with every earlier check passed; the conflict is that of the oldest clashing position, its pools before its mint |
| CapitalTerms.SettleMoves | src/accounting/capital.ts:101-113 | a settlement removes its position and moves locked and capital by exactly what the fields say |
| CapitalTerms.JournalExplainsStats | src/accounting/capital.ts:75-113 | after any run every counter is a count over the journal and the hypothetical pnl the sum of pnl less fee |
| Capital.SettleKeepsSound | src/accounting/capital.ts:101-106 | locked stays the sum of pending needs, so the negative-locked throw is unreachable |
| Capital.SettleKeepsCaps | src/accounting/capital.ts:101-113 | a settlement that does not lower the capital keeps every cap |
| Capital.LossIsWhatBreaksCaps | src/accounting/capital.ts:101-113 | a settlement keeps the caps of every live ledger a run reaches if and only if it does not lose money |
| Capital.LiveLossBreaksCaps | src/accounting/capital.ts:75-113 | for every loss, a run of two reservations and that settlement from a fresh ledger that ends above the caps |
| Capital.RunFromOpened | src/accounting/capital.ts:33-113 | over any run: locked is the sum of needs, ids, pools and mints are distinct, counts and capital are explained by the journal; hypothetically the caps hold and capital is unchanged |
| Shadow.SmallerIsGranted | src/cli/shadow.ts:299-345 | after a cap refusal every positive amount within the capacity is granted |
| Shadow.CapBelowRefused | src/cli/shadow.ts:304-340 | a cap refusal puts the sizing cap strictly below the refused amount |
| Shadow.ReserveBestSize | src/cli/shadow.ts:322-345 | at most one position is added, for exactly the chosen evaluation; a retry is never refused and no grid size within the cap beats it; the refusal recorded is the first one; giving up means no grid size within the cap pays |
| Rpc.RpcClient.Advance | src/state/rpc.ts:75-103 | each segment between awaits performs exactly one step of the state machine; what the steps mean for a call is in RpcCalls |
| Rpc.RpcClient.AcquireSegment | src/state/rpc.ts:38-50 | budget check and reservation, then slot, then token, up to the next await |
| RpcCalls.CallHistory | src/state/rpc.ts:75-103 | over any run, by the replies a call received: attempt counts the transient failures retried; a success, a permanent failure or a fifth transient one finishes it; each reply releases one slot; it ends otherwise only on a spent budget |
| RpcCalls.FinalReplyIsFinal | src/state/rpc.ts:82-102 | after a success, a permanent failure or a fifth transient one the slot is released and the call never sends, reserves or retries again, whatever follows |
| RpcCalls.ReplyDecides | src/state/rpc.ts:82-102 | what each reply does to the call, the slots, the queue and the counters |
| RpcCalls.StartReserves | src/state/rpc.ts:38-51 | refused, changing nothing, if and only if the budget is spent; else one unit is reserved and a slot asked for: the end of the queue, or a token, or sleep |
| RpcCalls.ResumeAsks | src/state/rpc.ts:41-41 | a woken call asks for a slot again |
| RpcCalls.RetryKeepsSlot | src/state/rpc.ts:51-51 | after a back-off the head of the queue is woken, yet the call keeps its slot unless the budget is spent |
| RpcCalls.ErrorsAreFailures | src/state/rpc.ts:93-95 | over any run the error counter is the number of failed replies |
| Rpc.StepKeeps | src/state/rpc.ts:38-103 | every step keeps the budget, slot, queue, token and per-call accounting invariants |
| Rpc.RunGuarantees | src/state/rpc.ts:38-103 | over any interleaving: requests within reservations within budget, slots within the limit, one release per acquire, five attempts at most |
| Rpc.NoDeadlock | src/state/rpc.ts:41-51 | no lost wake-up: while calls queue there is a pending wake-up or a slot holder, and a wake-up if no slot is held |
| Rpc.QueueNeverStuck | src/state/rpc.ts:38-103 | at a rate of at least one, whenever calls queue some call can move on |
| Rpc.WindowBound | src/state/rpc.ts:43-49 | any window of a run sends at most rate plus rate per second of its length |
| Rpc.SleepSuffices | src/state/rpc.ts:45-49 | a token can be taken if and only if the rate is at least one and the computed sleep is over |
| Rpc.NothingEverSent | src/state/rpc.ts:43-49 | below one request per second no run from any reachable state sends anything |
| Rpc.SendsIff | src/state/rpc.ts:38-103 | a client with budget and a slot can send at all if and only if the rate is at least one |
| Population.ScoreDeterminesJson | src/discovery/population.ts:101-106 | equal scores mean equal hint texts |
| Population.DedupAndIndex | src/discovery/population.ts:107-128 | the loops compute the winners, the kept pools and the group of every mint |
| Population.DedupWinners | src/discovery/population.ts:107-120 | one row per address, with a best score among the rows of that address |
| RowTerms.RichestRowWins | src/discovery/population.ts:101-120 | the row kept for an address has most hints, then most rounded tvl, then the last JSON text by code unit |
| RowTerms.FiledUnderMint | src/discovery/population.ts:57-63 | a row is filed under the mint it pairs with WSOL, if it does |
| RowTerms.LessIsByUnits | src/discovery/population.ts:70-70 | strings compare by their first differing code unit, or as prefixes |
| Population.WinnersIgnoreOrder | src/discovery/population.ts:101-120 | the winning hints do not depend on order or repetition of rows |
| Population.SortedMintsIgnoreOrder | src/discovery/population.ts:144-144 | the sorted mints depend only on the set of kept pools |
| Routes.CompareTotal | src/discovery/population.ts:71-79 | compareRoutes is antisymmetric and equates only routes over the same addresses; which comes first is RouteTerms.BeforeInFields |
| Routes.BeforeIsStrict | src/discovery/population.ts:71-79 | compareRoutes is a strict order |
| RouteTerms.BeforeInFields | src/discovery/population.ts:71-79 | known liquidity before unknown, more before less, then more canonical pools, then mint and addresses ascending |
| RouteTerms.MakeRouteInFields | src/discovery/population.ts:65-90 | the route of two rows: orientation, rank as the smaller tvl or Raydium's alone across adapters, canonical count, listings |
| RouteTerms.RouteDetermined | src/discovery/population.ts:65-90 | those fields leave one route for two rows |
| Routes.MakeRouteSymmetric | src/discovery/population.ts:80-90 | within one adapter the route does not depend on which pool comes first |
| Routes.RankedPairs | src/discovery/population.ts:92-99 | the loops, sort and truncation compute the ranked pairs of one mint |
| Routes.TwoPairsIgnoreOrder | src/discovery/population.ts:92-99 | the sorted pairs within one adapter do not depend on the order of the pools |
| Routes.CrossPairsIgnoreOrder | src/discovery/population.ts:92-99 | nor do those across adapters |
| Shortlist.BuildPopulation | src/discovery/population.ts:139-188 | the loops compute categories, routes and shortlist |
| Shortlist.SelectShortlist | src/discovery/population.ts:168-187 | the greedy walk with its early exit equals the walk over every route |
| Shortlist.PopulationIgnoresOrder | src/discovery/population.ts:139-188 | reordering or repeating rows changes nothing but the source of shortlist entries |
| Shortlist.ShortlistRespects | src/discovery/population.ts:168-187 | pools, mints and pools per mint within limits, distinct addresses, both pools of each shortlisted route selected |
| Shortlist.PopulationIsSound | src/discovery/population.ts:139-188 | every route pairs two kept pools of its mint and category, and every shortlisted address has its row |
| PopulationTerms.MintRoutesAreBest | src/discovery/population.ts:92-99 | the routes reported for a mint and category are the first of its possible ones, as many as the cap allows |
| PopulationTerms.ReportRanksBest | src/discovery/population.ts:139-166 | no reported route precedes a better one, and a possible route left out comes after every reported one of its mint and category |
| PopulationTerms.CategoriesExact | src/discovery/population.ts:144-164 | a mint is listed if and only if it has two pools of the adapter, or one of each; entries and their pools ascend |
| PopulationTerms.SameAdapterAccounts | src/discovery/population.ts:92-99 | every pair of a same-adapter category is reported or counted as truncated |
| PopulationTerms.ShortlistIsGreedy | src/discovery/population.ts:167-187 | each route is taken exactly when it fits at its turn the pools, the pools of one mint and the mints, with the defaults; one left out did not fit |
| PopulationTerms.EntriesHaveRows | src/discovery/population.ts:168-182 | an entry carries the PumpSwap row of its address if there is one, else the Raydium row |
| Executor.Bank.ProcessInstruction | programs/arb_executor/src/lib.rs:30-103 | the two CPIs and the guards in order, on the accounts as they change |
| Executor.Bank.Transact | programs/arb_executor/src/lib.rs:71-103 | for arbitrary CPIs success means profit, no leftover and bounded spend (the roll-back on error is the runtime's, written out around the cited lines) |
| Executor.SuccessGuarantees | programs/arb_executor/src/guard.rs:5-47 | the guards together imply those three facts whatever the CPIs did |
| Executor.ExecutesIff | programs/arb_executor/src/lib.rs:30-103 | for arbitrary CPIs: success with a profit holds if and only if every guard holds of the accounts they leave |
| Executor.SwapIffQuoted | src/routing/circuit.ts:41-52 | a pool's transition happens if and only if its quote is accepted, and spends at most the amount |
| Executor.ExecutionMatchesEvaluation | programs/arb_executor/src/lib.rs:71-103 | over the adapters' transitions success holds if and only if the leg kinds fit the pools and the evaluation pays and is affordable; profit is the evaluated pnl; the leftover check never fails |
| Executor.NothingExecutesWithinFees | programs/arb_executor/src/lib.rs:71-103 | a circuit whose gap is within the advertised fees can never be executed |
| Rebuild.RebuiltLegA | src/adapters/pumpswap/adapter.ts:269-275 | a PumpSwap leg A rebuilt from its quoted debit is accepted, debited that amount and delivers at least the quoted tokens, net of transfer fee |
| Rebuild.DirectCircuitRealisesPnl | src/simulation/probe.ts:36-50 | the direct circuit with quoted minimums never runs short on leg B and earns exactly the evaluated pnl; only a surplus of tokens can stay |
| Rebuild.RaydiumMonotone | src/adapters/raydium_cpmm/math.ts:299-337 | a larger accepted input never receives less, through all five stages |
| Rebuild.ExecutorKeepsPnl | programs/arb_executor/src/lib.rs:71-103 | were the executor given the direct circuit's leg A amount, selling all of leg A's output would earn the evaluated pnl, less at most the slack of leg B's fees |

## Left out

* Transport, timeouts of a single attempt, JSON, SQLite, logging, command-line printing and reports: input and output only.
* WebSocket lifecycle, PDA derivation, hashing, base58, transaction serialisation and account byte layouts: no arithmetic or state of interest; keys are opaque.
* Whirlpool and DLMM adapters: their swap math is in external crates.
* The field-by-field checks of `validatePool`, `legs.rs`, `params.rs` and `validate_fixed`: their conclusions are hypotheses here; of the executor's prior checks only the leg kinds, the pools' owners and the zero minimum of a PumpSwap buy are modelled.
* `stateHash` and pool-address checks of `applySwap`: a quote is applied to the pool it was computed on or, in general, to any pool, where QUOTE_STATE_MISMATCH is modelled.
* Floating-point display values (`priceImpactBps`, spot prices, percentiles) and the text of refusals.
* The `token2022Gate` scan: its verdict is one flag, its transfer-fee tiers are modelled.
* Fee schedules are read from one configuration record; `FeeSchedule.Config.isPumpPool` and the quote-mint class stand for the key comparisons behind them.
* The report's lists of duplicates, pair collisions and excluded rows: bookkeeping beside the ranking.
* `hintScore` prints the rounded tvl in plain digits; JavaScript's exponent form from 1e21 on is not modelled, and hint numbers are finite.
* `Array.prototype.sort` is modelled by its contract (stable, by the comparator), not by an algorithm.
* RPC error classification: an attempt's outcome is success, permanent or transient; back-off durations are arbitrary, and per-method statistics are not modelled.
* The executor's two pools are distinct: a circuit that enters and leaves the same pool is never enumerated.
* The executor's CPIs are modelled with the adapters' worst-case transfer fee on PumpSwap, as the quotes are; rent is a parameter per leg.
* Division on naturals is `Arith.FloorDiv`, proved equal to the built-in operator (`Arith.FloorDivIsDivision`).
- PumpGain.NeverGainsIff: ranges over all fee schedules of a transfer-fee mint; which positive schedules still allow a gain is not determined here, only that no schedule does on a fee-free mint.
- Capital.CapitalLedger.Reserve: position detail texts and timestamps are not recorded.

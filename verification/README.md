# A verified model of the Amarian node

Amarian is a proof-of-work node over unspent transaction outputs. This project models its state machines and
arithmetic in Dafny and proves what they promise: that the coins always equal a replay of the active chain, that
reversing a block undoes it exactly, that chain selection terminates at the best header it can reach and
refuses only blocks that break a rule, that no run creates money, that no transaction is ever on a chain twice, that
two nodes on one tip hold the same coins and two with the same knowledge reach chains of the same work, that the
mempool stays a well-formed graph whose every entry can still be mined, that the block the node builds from it always
connects, that a restarted node is back where it stopped, that the difficulty rule computes its one-line formula
exactly, and that every structure has one encoding.

`dafny verify dfyconfig.toml` checks the whole project.

## Layout

| part | files | what it holds |
|---|---|---|
| shared | `Primitives`, `Arith`, `Merkle`, `Validation`, `Rules`, `Issuance` | data types, arithmetic facts, the commitment to a block's transactions, the rules on amounts, shapes, inputs and blocks and what they accept in plain terms, the reward schedule |
| coins | `Coins`, `ConnectSpec`, `Connect`, `Maturity`, `Supply` | the overlay cache as a class over a plain map; connecting and reversing a block; the age of coinbases; conservation |
| chain | `IndexTree`, `HeaderRules`, `BlockIndex`, `ChainSwitch`, `ChainSpec`, `History`, `Ledger`, `ChainState`, `Agreement`, `Convergence`, `LoadChain`, `Restart` | the header tree, switching between branches, what every chain's history is like, activation, agreement between nodes, restart from a stored log |
| mempool | `Feerate`, `Reachability`, `PoolSpec`, `Removal`, `Eviction`, `Acceptance`, `Minable`, `Fees`, `Selection`, `Policy`, `Mempool`, `Template`, `AfterBlock` | exact fee rates, graph reachability, the pool as a value and as a class, recorded fees, block templates, the pool after a block |
| mining | `Assembly`, `Assembler` | the block built on the tip: why it connects, and when building it fails |
| difficulty | `Digits`, `Work`, `Target`, `Wide`, `Asert`, `Factor`, `Difficulty` | digit-by-digit arithmetic, work of a target, compact targets, 320-bit limbs, the retarget rule, and all of it in the header tree |
| codec | `Codec`, `Wire`, `Layout`, `Identifiers`, `Serialize`, `Threshold` | invertible encodings and their combinators, the wire formats, what identifiers commit to, reader and writer, signature matching |

Each class or in-place algorithm of the node is a class or a method on arrays here, proved against a function or
predicate on plain values; the theorems are about those values. Rules the model does not look inside (hashes, proof of
work, signature checks) are function-valued fields of `Validation.Params`, so every theorem holds for any choice of
them. Assumptions about them appear as a `requires` where they are used. Those about hashes are only made of what the
node can be handed (`Params.admits` and `admitsHeader`: what a decoder yields, or as little of it as was ever made;
every operation that takes a transaction, header or block requires it): equal txids imply equal inputs and outputs
(`Validation.TxidCommits`), equal wtxids imply equal transactions (`WtxidCommits`), equal header hashes imply equal
headers (`HashCommits`). `Identifiers.IdentifiersCommit` derives all three from the wire formats, short of two admitted
encodings with one digest. Between two nodes, the hashes taken for the Merkle roots of two bodies do not collide
(`Merkle.Apart`). Besides these, a transaction's outputs can be numbered in 32 bits (`Validation.Numberable`), and a
spend of an unspendable output is refused (`BlockTemplate.SoundRules`). `Consistent` (`ChainSpec`) is what
`ChainState.Valid` says between any two calls, as a predicate on values.

## Results that are not what the comments say

- *Every active entry is eligible* is false of the code. Genesis is seeded rather than stored, so a block offered under
  the genesis header with a bad body is judged like any other and rules out genesis and everything above it.
  `ChainStates.GenesisCanBeRuledOut` shows it, in every state where genesis is eligible and no body is stored for it,
  with a block that has no transactions;
  `ChainStates.ChainState.AcceptBlock` states that offering a block keeps every active entry eligible if and only if it
  is not that offer (`RulesOutGenesis`, which a caller can check before the call). Every other operation, activation
  with refusals included, leaves the eligibility of the active chain as it was.
- *The room offered to a template is measured, so the block is never over the weight limit*
  (`src/mining/block_assembler.cpp`, lines 92-96) is false of the code: the room is what the coinbase leaves of the
  limit, and the header and the transaction count weigh too. `Assembler.LoneEntryOverfills` shows it with a pool of one
  transaction that weighs what the coinbase leaves; `Assembler.RoomForgetsTheHeader` states exactly when the block is
  within the limit, and `Assembler.SolvedVerdict` that weight and count are the only rules the block can still break.
  It always connects (`Assembly.AssembledConnects`).
- `include/amarian/consensus/asert.hpp` (lines 60-63) gives the exponent's saturation point as 2^20; the code saturates
  at 2^32. The model follows the code, and `Asert.SaturationIsHarmless` shows the point chosen never matters.

## Model

| member | source | states |
|---|---|---|
| `Issuance.BlockReward` | include/amarian/consensus/issuance.hpp:73-91 | the reward at a height is the initial reward cut by an eighth, rounding down, once for each era passed |
| `Issuance.TotalIssuance` | include/amarian/consensus/issuance.hpp:120-128 | the sum over eras equals the total the schedule ever emits |
| `Issuance.ScheduledWithinTotal` | include/amarian/consensus/issuance.hpp:73-128 | the rewards of any number of first blocks never exceed the total issuance |
| `Issuance.EmittedBelowIdeal` | include/amarian/consensus/issuance.hpp:120-128 | truncation only loses coins: what is emitted stays strictly below the closed form 8 * reward * era |
| `Validation.CheckTransaction` | src/consensus/validation.cpp:267-355 | the context-free verdict, first broken rule in the code's order, against a specification with no loops |
| `Validation.AmountsAreThePayable` | src/consensus/validation.cpp:320-328 | the running range checks accept exactly the outputs whose amounts and total are in the money range |
| `Validation.TransactionFee` | src/consensus/validation.cpp:421-457 | the fee is inputs less outputs, or the first reason there is none; range-checking each partial sum equals checking the total |
| `Validation.CheckTransactionInputs` | src/consensus/validation.cpp:526-565 | maturity, then the fee, then the signatures, with the code's error in each case |
| `Validation.InputsConserve` | src/consensus/validation.cpp:421-565 | a transaction that passes pays out exactly what it spends less a fee in range |
| `Validation.CheckBlock` | src/consensus/validation.cpp:650-721 | the verdict on a block alone, first broken rule in the code's order: header, count, one coinbase in front carrying the height, weight, Merkle root, every transaction's shape, no outpoint spent twice |
| `Validation.HeaderCommits` | src/consensus/validation.cpp:692-698 | two blocks that pass with one header are one block, down to every witness, unless two hashes taken of them collide |
| `Merkle.ComputeMerkleRoot` | src/primitives/merkle.cpp:28-56 | the level-by-level loops compute the recursive tree, and there is a root exactly when there is a leaf |
| `Merkle.RootCommits` | src/primitives/merkle.cpp:28-56 | two lists whose hashes do not collide have one root if and only if they are one list, because the root takes in the count |
| `Validation.CheckCoinbaseAmount` | src/consensus/validation.cpp:723-750 | the coinbase is accepted exactly when its outputs are payable and no more than reward plus fees |
| `Rules.WellFormedMeans` | src/consensus/validation.cpp:267-355 | exactly which transactions are accepted, by counts, money, distinct inputs and passing witnesses |
| `Rules.SpendMeans` | src/consensus/validation.cpp:421-565 | exactly which spends are accepted and with which fee: deep enough coinbases, money in and out, the difference, the signatures |
| `Rules.CoinbaseMeans` | src/consensus/validation.cpp:723-750 | exactly which coinbases are accepted: money, and at most the reward and the fees together |
| `Rules.BlockMeans` | src/consensus/validation.cpp:650-721 | exactly which blocks are accepted on their own |
| `Rules.PlacedMeans` | src/consensus/validation.cpp:611-646 | exactly which headers are placed: after more than half of the last eleven, by counting them on the path, and at most an hour ahead |
| `Maturity.ConnectedIsOld` | src/consensus/validation.cpp:542-550 | every coinbase coin a connected block spends was made at least the maturity before it |
| `Maturity.TooYoungIsRefused` | src/consensus/validation.cpp:542-550 | a block is refused for age if and only if some transaction, everything before it having applied, spends a coinbase coin less than that deep |
| `Merkle.RootSplits` | src/primitives/merkle.cpp:28-56 | the root of one leaf, and of more the branch of a full half and the rest, left before right |
| `Coins.CoinsCache.GetCoin` | src/utxo/coins.cpp:7-12 | through any stack of overlays and tombstones a lookup sees the plain map the stack stands for |
| `Coins.CoinsCache.HaveCoin` | src/utxo/coins.cpp:14-19 | presence is presence in that map |
| `Coins.CoinsCache.Write` | src/utxo/coins.cpp:21-27 | writing a coin or a tombstone is an update of that map |
| `Coins.CoinsCache.MarkSpent` | src/utxo/coins.cpp:29-39 | the outpoint leaves the map, and no tombstone is kept for what the base does not have |
| `Coins.CoinsCache.AddCoin` | src/utxo/coins.cpp:41-47 | refuses exactly the outpoints present, adds any other |
| `Coins.CoinsCache.SpendCoin` | src/utxo/coins.cpp:49-55 | returns the coin that was there and removes it |
| `Coins.CoinsCache.Flush` | src/utxo/coins.cpp:57-62 | whatever order the entries are visited in, the base becomes the overlay's view and the overlay is emptied |
| `ConnectSpec.SpendRestore` | src/utxo/connect.cpp:176-285 | restoring inputs inverts spending them, if and only if |
| `ConnectSpec.AddRemove` | src/utxo/connect.cpp:197-275 | removing outputs inverts creating them, if and only if |
| `ConnectSpec.MoveRevert` | src/utxo/connect.cpp:139-290 | for whole transaction lists, spends of outputs of the same block included, reverting succeeds with result B if and only if applying to B gave this view and this undo |
| `ConnectSpec.DisconnectInvertsConnect` | src/utxo/connect.cpp:139-290 | reversing a connected block with the undo it produced restores exactly the view before it |
| `ConnectSpec.ConnectInvertsDisconnect` | src/utxo/connect.cpp:139-290 | reconnecting a reversed block gives back the same view and the same undo |
| `Connect.ConnectBlock` | src/utxo/connect.cpp:139-226 | the overlay-based code computes the specification on plain maps, and leaves the view unchanged on failure |
| `Connect.DisconnectBlock` | src/utxo/connect.cpp:230-290 | the same for reversal, with the code's error in each case |
| `Supply.ConnectConserves` | src/utxo/connect.cpp:139-226 | new supply + burned outputs + unclaimed reward = old supply + scheduled reward, the last two terms non-negative |
| `IndexTree.BestIsUnique` | src/chain/block_index.cpp:53-66 | at most one entry is best by most work then earliest arrival |
| `IndexTree.EligiblePath` | include/amarian/chain/block_index.hpp:281-284 | no eligible entry has an ineligible ancestor |
| `HeaderRules.AddedKeepsInvariant` | src/chain/block_index.cpp:196-254 | a header that passes keeps the tree's invariants: links, heights, total work, arrival numbers, failure propagation |
| `HeaderRules.RuledOutKeepsInvariant` | src/chain/block_index.cpp:295-327 | ruling out an entry keeps them too |
| `HeaderRules.MedianIsMiddle` | src/consensus/validation.cpp:594-609 | the median is one of the times, and the middle one of them in ascending order |
| `HeaderRules.TooOldMeans` | src/consensus/validation.cpp:594-634 | a header in place with the right bits is too old if and only if it is not after more than half of the last eleven headers on its path, or of as many as there are |
| `HeaderRules.NewerThanMost` | src/chain/block_index.cpp:70-81 | in every index every header is |
| `Rules.FirstSeenKeepsPlace` | src/chain/block_index.cpp:53-66 | a newcomer becomes the best header if and only if there is strictly more work behind it |
| `HeaderRules.OnlyTheCeilingReadsTheClock` | src/consensus/validation.cpp:611-646 | a header accepted at one clock is accepted at any clock its timestamp is not too far ahead of |
| `Index.BlockIndex.AddHeader` | src/chain/block_index.cpp:196-254 | the verdict, the one new entry if there is one, the best header afterwards the maximum eligible entry |
| `Index.BlockIndex.RecordValidity` | src/chain/block_index.cpp:283-293 | a recorded level only rises, and nothing else changes |
| `Index.BlockIndex.RecordFailure` | src/chain/block_index.cpp:295-327 | although it skips children already failed, it marks exactly the still-eligible entries of the subtree, returns how many, and repairs the best header |
| `Index.BlockIndex.RescanForBestHeader` | src/chain/block_index.cpp:329-340 | finds the maximum eligible entry, or none |
| `ChainSwitch.PlanChainSwitch` | src/chain/block_index.cpp:132-167 | the deepest common ancestor, the exact tip-first path down and the exact ascending path up, disjoint |
| `ChainSwitch.PlanCarriedOut` | src/chain/block_index.cpp:132-167 | carrying the plan out turns the path of the old tip into that of the new one, and no common ancestor lies above the fork |
| `ChainSpec.InStepPop` | src/chain/chain_state.cpp:164-206 | the tip of a chain in step can always be reversed, giving the coins of the shorter chain |
| `ChainSpec.InStepPush` | src/chain/chain_state.cpp:208-286 | a block that connects extends the chain in step |
| `ChainSpec.SupplyWithinSchedule` | src/utxo/connect.cpp:139-226 | in every reachable state the unspent total is at most the rewards scheduled for the connected heights, and so at most the total issuance |
| `History.PathRecorded` | src/utxo/connect.cpp:197-212 | along every path of the tree whose blocks replay, active or not, no txid comes twice, every coin is an output of the one transaction its outpoint names, and what was spent is gone for good |
| `History.ChainRecorded` | src/utxo/connect.cpp:197-212 | so it is of the coins of every reachable state |
| `History.NothingCreatedTwice` | src/utxo/connect.cpp:202-210 | in every reachable state a block that passed on its own and is for the next height is never refused for creating an outpoint that is still unspent |
| `Ledger.PathBalanced` | src/utxo/connect.cpp:139-226 | along every path whose blocks replay the same holds as in every reachable state, below |
| `Ledger.UnspentExactly` | src/utxo/connect.cpp:139-226 | in every reachable state an outpoint is unspent if and only if a block of the active chain created it spendable and none spent it; its coin is that output, dated with that block's height and marked if its coinbase made it; no coinbase was spent less than the maturity after its block |
| `Agreement.SameAncestry` | src/chain/block_index.cpp:196-254 | one header hash has one path to genesis and one total work in every index, whatever order headers arrived in |
| `Agreement.NodesAgree` | src/utxo/connect.cpp:246-263 | two nodes with the same tip have the same chain, the same coins and the same undo records, whatever each was offered and however it got there |
| `Convergence.NeverRefusedElsewhere` | src/chain/chain_state.cpp:208-286 | what one node has connected, no node that holds its body rightly refuses |
| `Convergence.TipsTie` | src/chain/chain_state.cpp:288-370 | two nodes that knew the same headers with the same ones eligible, and whose activation reached the best header, reach tips of the same total work, whatever each refused on the way and in whatever order headers had arrived |
| `Convergence.NodesConverge` | src/chain/chain_state.cpp:288-370 | and if no two eligible entries tie in work they have the same chain and the same coins |
| `ChainStates.RefusalIsForSpending` | src/utxo/connect.cpp:202-210 | no block activation refuses was refused for creating what is there |
| `ChainStates.ChainState.ResumeAt` | src/chain/chain_state.cpp:81-90 | the walk up the parents restores the path to the tip, and the state is valid again if the coins are that tip's |
| `ChainStates.ChainState.AcceptHeader` | src/chain/chain_state.cpp:149-162 | the index afterwards and the result, an ineligible header reported as already ruled out |
| `ChainStates.ChainState.AcceptBlock` | src/chain/chain_state.cpp:110-147 | index, store and result as one function of the state; active entries stay eligible if and only if the offer does not rule out genesis |
| `ChainStates.ChainState.DisconnectTip` | src/chain/chain_state.cpp:164-206 | on a chain in step only genesis cannot be reversed; every other tip is, and the state stays in step |
| `ChainStates.ChainState.ConnectTip` | src/chain/chain_state.cpp:208-286 | exactly when it errs, extends or refuses; a refusal names a rule the block breaks on the coins of the path to its parent, and costs exactly the entries with it on their path their eligibility; the active chain keeps its standing, and a tip that extends it is recorded fully valid |
| `ChainStates.ChainState.AttemptSwitch` | src/chain/chain_state.cpp:288-362 | one pass never errs: it is stuck on a missing body with nothing the stored bodies reach better than the tip, moves to a strictly better tip, or rightly refuses one block and loses exactly what builds on it; what it reverts is exactly what the path to the best header does not share, and what it leaves active is the start of that path; active entries keep their standing |
| `ChainStates.ChainState.ActivateBestChain` | src/chain/chain_state.cpp:288-370 | terminates without any activation error; reached_best_header holds exactly when the tip is the best eligible entry, otherwise a body is missing and the furthest entry towards the best header that stored bodies reach is no better than the tip; without a refusal the tip is never worse; every block refused was eligible and breaks its rule on the path from genesis to its parent, and exactly what builds on refused blocks stops being eligible; active entries stay eligible if they were; holding every eligible body it always reaches the best header |
| `ChainStates.HoldingAllBodies` | src/chain/chain_state.cpp:288-370 | with every eligible body stored and genesis eligible, there is a best header and no body is missing on the way to it |
| `ChainSpec.StandsWithGenesis` | src/chain/chain_state.cpp:110-370 | in every reachable state the whole active chain is eligible if and only if genesis is |
| `ChainSpec.LossesChain` | src/chain/block_index.cpp:295-327 | what successive refusals cost adds up to exactly the entries with one of them on their path |
| `ChainStates.GenesisCanBeRuledOut` | src/chain/chain_state.cpp:110-147 | the counterexample to "active entries stay eligible": a block with no transactions offered under the genesis header leaves no eligible entry, whatever the state |
| `LoadChains.LoadChain` | src/storage/chain_db.cpp:630-717 | replaying the log through the index gives the specified tree, order and tip, or the code's error |
| `LoadChains.CompleteLogRebuilds` | src/storage/chain_db.cpp:640-695 | at any restart clock a complete log readmits every header and rebuilds the same parents, heights, work, arrival numbers, recorded levels and eligible set |
| `LoadChains.RecondemnMeans` | src/storage/chain_db.cpp:686-695 | after the failures are replayed an entry is ineligible exactly when a condemned block lies on its path, whatever its label |
| `LoadChains.SameIndexSameBest` | src/storage/chain_db.cpp:640-695 | the same index has the same best header |
| `Restarts.Restart` | src/node/amariand.cpp:990-1023 | from a complete log and the coins of the committed tip the node is back in the state it stopped in: same index, best header and active chain, every invariant in force; only a tip ruled out with genesis is refused |
| `Feerate.Mul64Exact` | src/mempool.cpp:26-42 | the two 64-bit halves are the exact 128-bit product |
| `Feerate.CompareFeerateExact` | src/mempool.cpp:74-86 | the 64-bit comparison is the comparison of the rates as rationals, on every input a register can hold |
| `Feerate.RatesTransitive` | src/mempool.cpp:56-86 | the comparison is transitive, strictly where either step is, degenerate packages included |
| `Reachability.BreadthFirst` | src/mempool.cpp:132-178 | the queue walk collects exactly what is reachable |
| `PoolSpec.WithoutValid` | src/mempool.cpp:205-258 | taking away any set of entries leaves a valid pool |
| `PoolSpec.WithValid` | src/mempool.cpp:576-598 | adding an entry that respects the limits leaves a valid pool: links symmetric, closed, justified and acyclic, both indexes exact |
| `PoolSpec.NoSharedOutpoint` | include/amarian/mempool.hpp:296-298 | no two entries spend one outpoint |
| `PoolSpec.HoldsSurvives` | src/mempool.cpp:297-336 | an entry judged before or after others fell gets the same verdict |
| `PoolSpec.WithFullyLinked` | src/mempool.cpp:523-595 | acceptance keeps every waiting entry linked to what it waits on if and only if nothing in the pool already waits on the newcomer |
| `PoolPolicy.AcceptanceIsExact` | src/mempool.cpp:435-617 | an arrival is taken if and only if it passes its own rules, weighs something within the pool, pays a unit of fee per unit of weight, displaces at most 100, beats each package it clashes with and all it displaces, spends none of it, and leaves no one over 25 ancestors or descendants |
| `PoolPolicy.ReplacementMeans` | src/mempool.cpp:476-521 | the part of that a replacement adds, fees and weights multiplied out |
| `PoolPolicy.CheapestMeans` | src/mempool.cpp:340-366 | the package given up is the one of least fee per weight, multiplied out, ties to the lesser hash |
| `PoolPolicy.RankedMeans` | src/mempool.cpp:621-650 | a template considers packages from the most fee per weight down, multiplied out, ties to the lesser hash |
| `PoolPolicy.ForBlockMeans` | src/mempool.cpp:260-295 | a block takes out nothing but what it holds by txid and what descends from an entry spending what it spent |
| `Mempools.Mempool.DescendantsOf` | src/mempool.cpp:132-154 | the descendants, the entry included |
| `Mempools.Mempool.AncestorsOf` | src/mempool.cpp:156-178 | the ancestors, the entry included |
| `Mempools.Mempool.DescendantTotals` | src/mempool.cpp:180-190 | the fee and weight of the whole package |
| `Mempools.Mempool.DirectConflicts` | src/mempool.cpp:192-201 | the entries recorded as spending one of the inputs |
| `PoolAcceptance.DirectMeans` | src/mempool.cpp:192-201 | which are exactly the entries sharing an outpoint with the transaction |
| `Mempools.Mempool.Unlink` | src/mempool.cpp:205-246 | the entry is gone from every link, index and total, and from nothing else |
| `Mempools.Mempool.Remove` | src/mempool.cpp:248-250 | its children stay |
| `Mempools.Mempool.RemoveRecursive` | src/mempool.cpp:252-258 | the entry goes with exactly its descendants, and the count is theirs |
| `Mempools.Mempool.RemoveForBlock` | src/mempool.cpp:260-295 | what goes is exactly what the block confirmed and, of the rest, what spends what it spent with all that depends on it; what is left shares no txid with the block and spends nothing it spent |
| `PoolAfterBlock.BlockLeavesAllHolding` | src/mempool.cpp:260-295 | after a block connects and the pool is cleared for it, every entry left resolves on the new coins and passes the input rules at the next height |
| `Mempools.Mempool.RemoveForReorg` | src/mempool.cpp:297-336 | when waiting entries are linked, what goes is exactly what no longer holds and its descendants, whatever the visiting order, and everything left holds against the final pool |
| `Mempools.Mempool.CheapestPackage` | src/mempool.cpp:340-366 | the package of least exact fee rate, ties to the lesser hash; no intermediate leaves 64 bits |
| `Mempools.Mempool.Trim` | src/mempool.cpp:338-372 | every round was needed and gave up the cheapest package of the pool it found; the target is met and the cap kept |
| `PoolEviction.TrimIsDetermined` | src/mempool.cpp:338-372 | two trims of one pool to one weight give up the same packages in the same order |
| `PoolEviction.CheapestExists` | src/mempool.cpp:340-366 | any pool that is not empty has a cheapest package |
| `PoolEviction.PackageFits` | src/mempool.cpp:180-190 | under the descendant limit a package's fee and weight fit the registers they are compared in |
| `Mempools.Mempool.ResolveInputs` | src/mempool.cpp:376-406 | each input resolves on the chain first, then in the pool, or the whole lookup fails |
| `Mempools.Mempool.AcceptCoins` | src/mempool.cpp:435-617 | the exact first refusal, leaving the pool untouched; otherwise the displaced go, the arrival is linked, and the pool is trimmed to the cap; fees strictly rise when nothing is trimmed |
| `Mempools.Mempool.Accept` | src/mempool.cpp:408-433 | the same with inputs looked up; if every entry held against this chain, every entry still does; if every recorded fee was true, every one still is |
| `PoolAcceptance.CommitVacant` | src/mempool.cpp:476-491 | once the displaced are gone nothing left shares an outpoint or a txid with the arrival |
| `PoolAcceptance.CommitValid` | src/mempool.cpp:523-598 | an arrival nothing refuses leaves a valid pool within both limits |
| `PoolAcceptance.PlaceIsExact` | src/mempool.cpp:542-567 | an arrival is refused a place if and only if the pool it would leave has an entry with more than 25 ancestors or descendants |
| `PoolAcceptance.SwapPays` | src/mempool.cpp:493-521 | an accepted replacement beats each cluster it displaces by exact rate, and the pool earns strictly more in all |
| `PoolMinable.CommitHolds` | src/mempool.cpp:408-617 | displacing and linking leave every entry resolving and passing the input rules |
| `PoolMinable.TrimHolds` | src/mempool.cpp:338-372 | and so does any number of evictions |
| `Mempools.Mempool.GetTemplates` | src/mempool.cpp:621-711 | distinct entries within the weight given, each after every entry it is linked under, exactly the packages that fitted when their turn came |
| `Mempools.Mempool.EmitPackage` | src/mempool.cpp:674-708 | a package is listed parents-first and whole; the no-progress break is unreachable |
| `PoolSelection.TakenIfItFits` | src/mempool.cpp:651-672 | a package is in the template whole if it fitted when considered, and an entry left out did not fit then |
| `PoolSelection.ReadyExists` | src/mempool.cpp:686-707 | because links follow arrival order, some waiting entry always has every parent emitted |
| `PoolFees.PaysOnce` | src/consensus/validation.cpp:421-457 | a transaction pays one fee, on whatever chain and in whatever pool its inputs are looked up |
| `PoolFees.OfferTrueFees` | src/mempool.cpp:408-617 | acceptance against genuine coins records the fee the transaction pays, and evictions keep every record true |
| `PoolFees.WithoutTrueFees` | src/mempool.cpp:205-336 | and so does any removal |
| `BlockTemplate.FeesWithinSupply` | src/mining/block_assembler.cpp:106-114 | a template's fees, spends within the template included, add up to no more than the coins the chain has |
| `Assembly.EntryIsNew` | src/utxo/connect.cpp:202-210 | in a pool whose every entry holds, none has a txid that is on the chain |
| `Assembly.TemplateConnects` | src/mempool.cpp:621-711 | in every reachable state, over a pool whose every entry holds, a block of a coinbase carrying the next height and a template connects if and only if the coinbase claims no more than reward and fees allow: no input is missing, immature or overspent, nothing is created twice |
| `Assembly.AssembledConnects` | src/mining/block_assembler.cpp:47-184 | the block the node builds there claims exactly what is permitted, within the money range, and always connects |
| `Assembler.BuildBlockTemplate` | src/mining/block_assembler.cpp:47-184 | exactly when each error is returned, and otherwise the block, its entries exactly those greedy selection takes for the room: the target is always usable, the root always exists, and the header is refused exactly for a clock too far behind the chain |
| `Assembler.StampIsLeast` | src/mining/block_assembler.cpp:133-145 | the template's timestamp is the least that is not before the clock and is after the median |
| `Assembler.SolvedVerdict` | src/consensus/validation.cpp:650-721 | once its header passes, the block built breaks no other rule of a block alone than count and weight |
| `Assembler.MinedBlockStands` | src/mining/block_assembler.cpp:47-184 | in every reachable state building fails only for the clock, never for the reward; with any nonce that passes the block is placed by the index, passes on its own if and only if it fits, and connects |
| `Assembler.RoomForgetsTheHeader` | src/mining/block_assembler.cpp:97-105 | for any pool, the block is within the limit if and only if what greedy selection takes from it leaves the weight of header and count unused; a pool whose total weight does that is enough |
| `Assembler.LoneEntryOverfills` | src/mining/block_assembler.cpp:97-105 | the counterexample to "measured, not estimated": from a pool of one transaction that weighs what the coinbase leaves it is always taken, and the block is refused for its weight |
| `Works.Subtract` | src/consensus/work.cpp:65-73 | byte-wise borrow computes the difference |
| `Works.ShiftLeft` | src/consensus/work.cpp:40-62 | the value times 2^shift, modulo the width |
| `Works.BitLength` | src/consensus/work.cpp:27-35 | one past the highest set bit |
| `Works.SetBit` | src/consensus/work.cpp:21-24 | adds 2^index exactly when that bit was clear |
| `Works.Divide` | src/consensus/work.cpp:110-127 | restoring division gives the floor of the quotient, no intermediate leaving the width |
| `Works.OfTarget` | src/consensus/work.cpp:77-132 | the work of a non-zero target t is floor(2^256 / (t + 1)), and of zero is zero |
| `Works.Add` | src/consensus/work.cpp:142-154 | the sum, saturating at 2^256 - 1 |
| `Works.TotalsSaturateAlike` | src/consensus/work.cpp:142-154 | which is the saturation the header tree's totals use |
| `Targets.TargetToCompact` | src/consensus/target.cpp:55-88 | the compact form of the target's value |
| `Targets.CompactToTarget` | src/consensus/target.cpp:12-53 | accepts exactly the encodings that stand for a value, and gives that value |
| `Targets.RoundIsEncoded` | src/consensus/target.cpp:12-88 | decoding an encoded non-zero target gives it rounded down, never to zero |
| `Targets.RoundMonotone` | src/consensus/target.cpp:55-88 | rounding keeps order |
| `Targets.EncodingUnique` | include/amarian/consensus/target.hpp:10-19 | two accepted encodings are equal if and only if their targets are |
| `Targets.EncodingMeans` | src/consensus/target.cpp:12-88 | bits stand for a value if and only if they are a size and a three-byte mantissa with a clear sign bit and no spare leading zeros, and the value is the mantissa moved up by size less three bytes |
| `Wides.MulAddExact` | src/consensus/asert.cpp:96-122 | the two words are exactly a * b + add, both carries included |
| `Wides.MultiplySmall` | src/consensus/asert.cpp:192-202 | the product, and overflow reported exactly when it needs more than 320 bits |
| `Wides.ShiftLeft` | src/consensus/asert.cpp:147-189 | the value times 2^bits, and overflow reported exactly when a set bit is lost |
| `Wides.ShiftRight` | src/consensus/asert.cpp:125-144 | the floor of the value over 2^bits |
| `Wides.Exceeds` | src/consensus/asert.cpp:205-212 | numeric order |
| `Wides.FromTarget` | src/consensus/asert.cpp:63-76 | the limbs spell the target's value |
| `Wides.ToTarget` | src/consensus/asert.cpp:215-225 | and the bytes spell it back |
| `Asert.ScaledQuotient` | src/consensus/asert.cpp:234-258 | floor(high * 2^16 / divisor), cut at 2^32, in 64-bit steps |
| `Asert.FractionFactorExact` | src/consensus/asert.cpp:266-273 | the cubic is evaluated without wrapping |
| `Asert.FactorBounds` | src/consensus/asert.cpp:262-273 | the factor lies between one and two, and is exactly one at zero |
| `FactorLaws.ReflectionLaw` | src/consensus/asert.cpp:260-273 | the factors of two fractions that make a whole multiply to two, within three parts in ten thousand |
| `FactorLaws.ProductLaw` | src/consensus/asert.cpp:260-273 | the factor of a sum is the product of the factors, within four parts in ten thousand |
| `FactorLaws.FactorValues` | src/consensus/asert.cpp:260-273 | the factor at 0, 1/4, 1/2, 3/4, just short of 1, and 1 |
| `Asert.ExponentMeans` | src/consensus/asert.cpp:313-327 | the exponent is the deviation over the half-life in units of 2^-16, truncated toward zero, alike in both directions |
| `Asert.ScheduleExponent` | src/consensus/asert.cpp:307-327 | the truncated fixed-point exponent, saturated; no step overflows |
| `Asert.SaturationIsHarmless` | src/consensus/asert.cpp:34-40 | saturating the exponent at 2^32 never changes the answer |
| `Asert.AsertNextBits` | src/consensus/asert.cpp:277-360 | the compact form of clamp(floor(A * F * 2^k / 2^16), 1, limit), from the unsaturated exponent; the floor's bits when an encoding is unusable |
| `Asert.NextBitsDecode` | src/consensus/asert.cpp:277-360 | the bits are canonical and stand for a target that is never zero and never easier than the floor |
| `Asert.NextTargetMono` | src/consensus/asert.cpp:277-360 | non-decreasing in the tip's time and non-increasing in its height, before and after rounding |
| `Asert.ExponentWhole` | include/amarian/consensus/asert.hpp:20-33 | a deviation of m half-lives is an exponent of exactly m |
| `Asert.WholeHalfLives` | include/amarian/consensus/asert.hpp:20-33 | each whole half-life behind doubles the target exactly, each one ahead halves it, and on schedule it is the anchor's |
| `Difficulty.OfCompactTarget` | src/consensus/work.cpp:134-140 | the work of an accepted encoding's target, and zero for any other bits |
| `Difficulty.NextTargetBits` | src/chain/block_index.cpp:83-116 | the limit where difficulty is trivial or the gap earns it, the ASERT bits otherwise |
| `Difficulty.RequiredIsMeetable` | src/chain/block_index.cpp:83-116 | whatever bits are required are a canonical encoding of a target above zero and no easier than the floor |
| `Difficulty.OnScheduleKeepsTarget` | src/chain/block_index.cpp:83-116 | the child of a block exactly on schedule must carry the genesis target's bits |
| `Difficulty.FirstKeepsTarget` | src/consensus/asert.cpp:298-300 | the child of genesis carries the genesis target's bits whatever the times |
| `Difficulty.LongGapIsEasiest` | src/chain/block_index.cpp:101-116 | a test network asks for its easiest target if and only if more than twice the spacing has passed |
| `Difficulty.WorkMeans` | src/consensus/work.cpp:77-140 | the work of bits is how often one more than the target goes into 2^256 |
| `Difficulty.EveryHeaderCounts` | include/amarian/chain/block_index.hpp:281-284 | in every header tree each header carries such a target, is worth floor(2^256 / (t + 1)) >= 1 attempts, and total work grows along every link until it saturates |
| `Difficulty.TotalWorkIsSum` | include/amarian/chain/block_index.hpp:281-284 | an entry's total work is the sum of those over its path, cut off at 2^256 - 1 |
| `Difficulty.BestIsLeaf` | src/chain/block_index.cpp:53-66 | short of saturation nothing eligible builds on the best header |
| `Codecs.CompactPrints` | src/util/serialize.cpp:10-92 | a length prints to the shortest form and reads back |
| `Codecs.CompactParses` | src/util/serialize.cpp:30-92 | a length that is read was in its shortest form |
| `Codecs.CountPrints` | src/util/serialize.cpp:79-88 | the plausibility bound never refuses a genuine count |
| `Codecs.ListLawful` | src/primitives/transaction.cpp:12-25 | counted sequences inherit both directions from their elements |
| `Codecs.ByteStringLawful` | src/util/serialize.cpp:25-120 | and so do counted bytes |
| `Wire.HeaderLawful` | src/primitives/block.cpp:10-30 | a header round-trips both ways in 92 bytes |
| `Wire.WitnessLawful` | src/primitives/witness.cpp:8-49 | witnesses and their conditions round-trip both ways |
| `Wire.ConditionLawful` | src/primitives/spend_condition.cpp:37-77 | the same for spend conditions alone |
| `Layout.HeaderLayout` | src/primitives/block.cpp:10-30 | each field of a header at its fixed offset in 92 bytes, every byte by value, integers least and hashes most significant first |
| `Layout.InputLayout` | src/primitives/transaction.cpp:29-41 | the same for an input in 40 bytes |
| `Layout.OutputLayout` | src/primitives/transaction.cpp:43-63 | amount, lock version, and program with its length |
| `Layout.LengthLayout` | src/util/serialize.cpp:10-23 | one byte below 0xFD, then a tag and two, four or eight bytes |
| `Layout.PrefixLayout` | src/primitives/transaction.cpp:80-91 | version, counted inputs, counted outputs and locktime, each where the one before ends |
| `Layout.TransactionLayout` | src/primitives/transaction.cpp:65-78 | then a coinbase's data or the witnesses of anything else |
| `Layout.ConditionLayout` | src/primitives/spend_condition.cpp:37-44 | version, threshold, counted keys |
| `Layout.WitnessLayout` | src/primitives/witness.cpp:8-14 | the condition, then counted signatures |
| `Layout.KeyLayout` | src/primitives/spend_condition.cpp:8-36 | scheme, then bytes with their length |
| `Layout.BlockLayout` | src/primitives/block.cpp:38-44 | the header, then counted transactions |
| `Layout.ManyInOrder` | src/primitives/transaction.cpp:12-25 | items of a list stand one after another in order |
| `Wire.TransactionReadsBack` | src/primitives/transaction.cpp:65-165 | any transaction within limits is read back from its bytes, leaving whatever follows |
| `Wire.TransactionBytesAreCanonical` | src/primitives/transaction.cpp:93-165 | any bytes accepted are exactly what the decoded transaction prints, and it is within limits |
| `Wire.TransactionOk` | include/amarian/primitives/transaction.hpp:33-44 | what the decoder admits is exactly what fits the limits, field by field |
| `Wire.BlockReadsBack` | src/primitives/block.cpp:38-77 | any block within limits is read back from its bytes, leaving whatever follows |
| `Wire.BlockBytesAreCanonical` | src/primitives/block.cpp:46-77 | any bytes accepted as a block are exactly what that block prints |
| `Wire.PreimagesCommit` | src/primitives/transaction.cpp:65-91 | one txid preimage means one set of effects; one full encoding means one transaction |
| `Identifiers.IdentifiersCommit` | src/primitives/transaction.cpp:65-177 | short of a collision among what is admitted, the node's own identifiers meet every assumption made of them |
| `Identifiers.IdentifiersLeaveOut` | src/consensus/validation.cpp:279-300 | a wtxid does not see data on a non-coinbase or witnesses on a coinbase, and neither the decoder nor the shape rules let such a transaction through |
| `Serialize.Writer.WriteCompactSize` | src/util/serialize.cpp:10-23 | appends the shortest form |
| `Serialize.Writer.WriteByteString` | src/util/serialize.cpp:25-28 | appends length and bytes |
| `Serialize.SerializeTransaction` | src/primitives/transaction.cpp:65-78 | appends the transaction's encoding |
| `Serialize.SerializeWithoutWitnesses` | src/primitives/transaction.cpp:80-91 | appends the txid preimage |
| `Serialize.SerializeCondition` | src/primitives/spend_condition.cpp:37-44 | appends the condition's encoding |
| `Serialize.SerializeWitness` | src/primitives/witness.cpp:8-14 | appends the witness's encoding |
| `Serialize.SerializeHeader` | src/primitives/block.cpp:10-18 | appends the header's encoding |
| `Serialize.SerializeBlock` | src/primitives/block.cpp:38-44 | appends the block's encoding |
| `Serialize.Reader.Finish` | include/amarian/util/serialize.hpp:148-153 | succeeds exactly when nothing failed and nothing is left |
| `Serialize.Reader.ReadCompactSize` | src/util/serialize.cpp:30-92 | takes exactly what the decoder takes, or fails for good |
| `Serialize.Reader.ReadByteString` | src/util/serialize.cpp:94-120 | the same for counted bytes |
| `Serialize.DeserializeTransaction` | src/primitives/transaction.cpp:93-165 | the cursor advances over exactly one encoding and the value is its value, or the failure is sticky |
| `Serialize.DeserializeCondition` | src/primitives/spend_condition.cpp:46-77 | the same for conditions |
| `Serialize.DeserializeWitness` | src/primitives/witness.cpp:16-49 | the same for witnesses |
| `Serialize.DeserializeHeader` | src/primitives/block.cpp:20-30 | the same for headers |
| `Serialize.DeserializeBlock` | src/primitives/block.cpp:46-77 | the same for blocks |
| `Threshold.LoneSignature` | src/consensus/validation.cpp:368-417 | one key answers one signature if and only if both name one scheme and the check finds it valid or cannot tell |
| `Threshold.SatisfiesThreshold` | src/consensus/validation.cpp:368-417 | with no reserved scheme, accepts if and only if some strictly increasing choice of keys answers every signature; each key is asked at most once in the whole witness |

## Left out

- Sockets, RPC, explorer, command line, wallet, mining loop and logging: input, output and user interface.
- RocksDB, commit failures and fault latching: runs are fault-free, and making a tip durable preserves the coins view.
- SHA-256, signatures and proof of work: function-valued parameters (`hash`, `txid`, `wtxid`, `merkle`, `checkHeader`, `checkWitness`, `authorise`), as are `weight`, `admits` and `admitsHeader`; `work` and `expectedBits` are parameters too, and `Difficulty.Follows` fixes them to the computed ones.
- The loop over inputs and the lock commitment of `CheckSpendAuthorisation` (src/consensus/validation.cpp:459-524) are behind `authorise`, which reads the spent outputs as that code does; only the threshold match it ends in is modelled. Where it matters that a spend of an unspendable output is refused (lines 485-487), that is a `requires` on `authorise`.
- Pointers to index and pool entries are hashes, and the maps they lead to are fields of the class; lifetime of pointers is not captured.
- The observer callbacks of the chain state.
- Mempool totals are mathematical integers; fee-rate comparisons and package sums are shown to fit 64 bits.
- `std::sort` and `std::nth_element` are stood in for by an insertion sort and by sorting: only what they return is used.
- `SolveHeader`, the search for a nonce: `MinedBlockStands` speaks of any nonce that passes.
- That a schedule emits no more than MAX_MONEY is a `requires` of the assembly theorems; include/amarian/consensus/issuance.hpp:136 and include/amarian/consensus/params.hpp:502 assert it of every network.
- That a replacement is never trimmed away again: it can be, when everything left pays a higher rate.
- Undo records' own encoding (src/utxo/connect.cpp:44-119): it would repeat the codec's theorems for one more structure.
- `LowestPackageFeerate`, `Find` and the other queries: one-line lookups.

# Dingocoin staking ledger and payout calculator, modelled in Dafny

The repository runs a staking programme on the Dingocoin UTXO chain. Two
programs make up its core:

- **The staking engine (`app.js`).** It receives one block per height. A
  diff extractor turns each block into the outputs it creates and the
  outputs it spends. The engine then updates two address-keyed tables:
  - `staked` holds every address's current qualifying holding;
  - `currentStaked` holds the weight for the payout round in progress.

  A created output counts only when its value is a plain digit string that
  is a multiple of `STAKE_SIZE` (100000). A counting output adds its value to
  the address's `amount`, and the number of stakes to its `score`, in
  `staked` only. Every spend removes the spending address from both tables.
  At each payout height (370000 plus a positive multiple of 10000), the
  engine writes the scores of `currentStaked` out as a snapshot, then
  rebuilds `currentStaked` as a copy of `staked`. String caches of both
  tables, and a total-staked figure, serve the query endpoints.
- **The payout calculator (`payout.js`).** It reads one snapshot and sums
  the scores. It then shares a pool of 500000 units among the addresses in
  proportion to score, rounding each share down.

The Dafny project has five modules:

- `Decimal` (`decimal.dfy`): the digit-string test `/^\d+$/`, `BigInt` of a
  digit string (`ParseDecimal`) and `toString` (`FormatDecimal`), with their
  round trips.
- `Sums` (`sums.dfy`): the sum of a map's values, and the fact that the sum
  does not depend on the order the keys are visited in.
- `Diff` (`diff.dfy`): the diff extractor, as a method with the source's
  nested loops, proved equal to the specification functions `Creations` and
  `Consumptions`.
- `Ledger` (`ledger.dfy`): the engine as the class `StakingLedger`. Its map
  fields are the two tables, the two string caches and `history`, which
  stands in for the snapshot files. Each loop of the per-block callback is a
  method framed to the fields it changes. `ApplyBlock` is proved to realise
  the pure function `ApplyDiff`, and lemmas about `ApplyDiff` state the
  ledger's invariants and boundary behaviour.
- `Payout` (`payout.dfy`): the summing loop and the sharing loop as
  methods, proved against the pure `Distribution`. Lemmas bound what the
  rounding loses.
  `ComputePayouts` follows payout.js on the edge cases:
  - an empty snapshot performs no division and yields an empty payout;
  - an address with score 0 is kept and paid "0";
  - a non-empty snapshot whose scores are all 0 fails at the first division, before any output exists.

Amounts and scores are JavaScript `BigInt`s in the source, so Dafny's unbounded
`nat` models them without wrap-around. Block heights and output indices are
JavaScript Numbers: `STAKE_START` and `PAYOUT_INTERVAL` carry no `n` suffix, and
the `height % 100` logging test would throw on a `BigInt`. Numbers are exact
integers below 2^53, which every real block height is, so Dafny's `int` loses
nothing there. The boundary test therefore uses Number `%`, which truncates,
written out as `TruncRem`.

## Model

| member | source | states |
|---|---|---|
| Decimal.FormatDecimal | app.js:105 | `toString` of a non-negative BigInt is a canonical digit string: digits only, non-empty, no leading zero, one character exactly below 10 |
| Decimal.ParseFormat | app.js:105 | reading a rendered score back with BigInt gives the same number |
| Decimal.ParseDecimalBounds | app.js:78 | `ParseDecimal` models `BigInt` of a digit string: n digits are worth less than 10^n, and a string of zeros is worth 0 |
| Decimal.ParseSplit | app.js:78 | the value of a concatenation of digit strings is the first part's value shifted past the second's digits, plus the second's value |
| Decimal.ParseLeadingZeros | app.js:78 | leading zeros are worth nothing: a value text such as "00100000" parses to the same value as "100000" |
| Decimal.FormatParse | payout.js:14 | rendering the value of a canonical digit string gives the string back |
| Decimal.SignedOrFractionalRejected | app.js:77 | a sign, a decimal point or the empty string fails the digit-string test; "0" passes with value 0 |
| Sums.SumValuesRemove | payout.js:13-16 | taking any one key out of a sum leaves the rest of the sum, so a total does not depend on the key order |
| Diff.ComputeDiff | app.js:11-36 | the two lists are exactly the creations and the consumptions of the block, transaction by transaction, in output (input) order |
| Diff.TxCreations | app.js:16-26 | the outputs of one transaction yield, in order, one creation per non-nulldata output |
| Diff.TxConsumptions | app.js:28-32 | the inputs of one transaction yield, in order, one consumption per non-coinbase input |
| Diff.VoutCreationsMembers | app.js:16-26 | a record is a creation iff it is some non-nulldata output's txid, vout, address and value, stamped with the height |
| Diff.VinConsumptionsMembers | app.js:28-32 | a record is a consumption iff it is some non-coinbase input's txid, vout and address |
| Diff.VoutCreationsCount | app.js:16-17 | never more creations than outputs; exactly one per output when none is nulldata; none when all are |
| Diff.CreationsAppend | app.js:15-33 | the diff of two runs of transactions is the diff of the first followed by the diff of the second |
| Diff.CreationsMembers | app.js:15-26 | a creation of the block is a creation of one of its transactions, and conversely |
| Diff.VinConsumptionsCount | app.js:28-29 | never more consumptions than inputs; exactly one per input when none is coinbase; none when all are |
| Diff.ConsumptionsMembers | app.js:15-33 | a consumption of the block is a consumption of one of its transactions, and conversely |
| Diff.CreationsHeight | app.js:21 | every creation carries the block's height |
| Ledger.QualifiesText | app.js:76-79 | on canonical decimal text the deposit test reads off the digits: a value qualifies iff it is "0" or has at least six digits ending in five zeros |
| Ledger.Credit | app.js:76-85 | a non-qualifying value changes nothing; a qualifying value v adds v to the amount and v / 100000 to the score of its address, starting from a zero entry; no other address changes |
| Ledger.TruncRem | app.js:99 | JavaScript `%`: the dividend is the divisor times the truncated quotient plus the remainder, and the remainder is smaller than the divisor in magnitude and never of the opposite sign to the dividend |
| Ledger.CreditAll | app.js:75-86 | the insert loop's effect on `staked`: no address is lost, and every new address is a recipient of the block; `CreditAllGrows`, `CreditAllKeys` and `CreditAllAmount` state the rest |
| Ledger.IsPayoutHeight | app.js:98-101 | the boundary test implies a height at least 380000 and a multiple of 10000 above 370000; `PayoutHeights` states the converse |
| Ledger.ApplyDiff | app.js:74-120 | the reference semantics of one block: spent addresses absent from both tables, no address in `staked` that was not there or paid to, at a payout height the period table equals `staked` and exactly one snapshot is added, otherwise the history is unchanged and the period table only loses addresses; `ApplyBlock` is proved to realise it |
| Ledger.ScoreSnapshot | app.js:103-106 | the snapshot has exactly the table's addresses, and each value is canonical text that reads back as that address's score |
| Ledger.RenderScores | app.js:103-106 | the snapshot loop produces exactly the snapshot of the period table |
| Ledger.CopyTable | app.js:113-119 | the field-by-field copy equals the table it copies |
| Ledger.CacheKey | app.js:125 | the published key is "..." followed by the address from its 21st character on, or just "..." for an address of 20 characters or fewer |
| Ledger.RenderCache | app.js:123-136 | the rebuilt cache publishes every address's key, and each published value is the rendering of an address with that key |
| Ledger.SumAmounts | app.js:157-160 | the loop total is the sum of the amounts of the table |
| Ledger.StakingLedger.constructor | app.js:55-59 | both tables, both caches and the history start empty |
| Ledger.StakingLedger.ApplyBlock | app.js:66-137 | one block takes the state to `ApplyDiff` of the old state, keeps the invariant (well-formed, dominated tables; caches current; history below the last height) and never rewrites an earlier snapshot |
| Ledger.StakingLedger.ApplyTables | app.js:74-120 | the three table-changing loops, in order, realise `ApplyDiff` and keep both tables well formed and dominated |
| Ledger.StakingLedger.InsertCreations | app.js:74-86 | the insert loop leaves `staked` equal to every creation credited in order, and touches nothing else |
| Ledger.StakingLedger.DeleteSpent | app.js:88-95 | the delete loop removes exactly the spent addresses from both tables |
| Ledger.StakingLedger.CloseRound | app.js:97-120 | at a payout height, records the period table's snapshot under the height and makes the period table equal to `staked`; otherwise changes nothing |
| Ledger.StakingLedger.RefreshCaches | app.js:122-136 | both caches are rebuilt from the tables as they now stand |
| Ledger.StakingLedger.Stats | app.js:156-162 | `totalStaked` is canonical text whose value is the sum of the amounts in `currentStaked` |
| Ledger.CreditAllGrows | app.js:75-86 | creations never remove an address and never lower an amount or a score |
| Ledger.CreditAllWellFormed | app.js:76-84 | creations keep every amount equal to its score times 100000 |
| Ledger.CreditAllKeys | app.js:75-82 | after the creations an address is present iff it was before or a qualifying creation named it |
| Ledger.CreditAllAmount | app.js:83 | after the creations an address holds what it held plus exactly the qualifying values sent to it |
| Ledger.CreditAllScore | app.js:75-86 | an address no qualifying creation names keeps its entry |
| Ledger.ApplyDiffConsistent | app.js:75-120 | a block keeps both tables well formed and the period table dominated by the all-time table, key by key, in amount and score |
| Ledger.SpentAddressesAbsent | app.js:88-95 | every address a block spends from is absent from both tables afterwards, even if the block credited it |
| Ledger.UnspentScoreNonDecreasing | app.js:75-95 | an address the block does not spend from stays in `staked`, with an amount and a score no lower |
| Ledger.UntouchedAddressUnchanged | app.js:75-95 | an address neither credited nor spent keeps its entry, or its absence |
| Ledger.NonBoundaryNoGrowth | app.js:88-120 | away from a payout height, no snapshot is written and the period table gains no address and no value |
| Ledger.BoundaryRebase | app.js:97-120 | at a payout height, the snapshot holds the scores of the period table as the spends left it, the period table becomes equal to `staked`, and other snapshots are kept |
| Ledger.PayoutHeights | app.js:98-101 | the boundary fires exactly at 370000 plus a positive multiple of 10000 |
| Ledger.QualificationExamples | app.js:76-85 | "150000" and "-100000" change nothing, "0" opens a zero entry, "100000" opens the entry (100000, 1) |
| Ledger.CacheReadsBack | app.js:122-136 | each cache value reads back as the amount and score of an address with that key; with no key collision, every address's own entry is published under its key |
| Ledger.TotalAmountBounds | app.js:156-161 | the total staked is 100000 times the total score, and the period total never exceeds the all-time total |
| Ledger.AmountIsScoreTimesStake | app.js:83-84 | over a well-formed table, the sum of amounts is 100000 times the sum of scores |
| Ledger.DominatedSum | app.js:156-161 | a dominated table's amounts sum to no more than the dominating table's |
| Payout.ParseScores | payout.js:13-14 | parsing the snapshot keeps its addresses |
| Payout.Share | payout.js:21 | one address's payout is the floor of score * 500000 / total: the largest q with total * q <= score * 500000 |
| Payout.Distribution | payout.js:19-21 | the distribution has exactly the snapshot's addresses |
| Payout.TotalScores | payout.js:12-16 | the summing loop yields the sum of all scores |
| Payout.RenderShares | payout.js:19-23 | the sharing loop yields exactly the snapshot's addresses, each mapped to canonical text of floor(score * 500000 / total) |
| Payout.ComputePayouts | payout.js:12-23 | fails iff the snapshot is non-empty with all scores 0; otherwise has the snapshot's addresses, each paid its floor share of the pool as text |
| Payout.ShareRemainder | payout.js:21 | one share loses less than one unit of the total to rounding, and nothing for a zero score |
| Payout.ShareSums | payout.js:19-23 | summed over a snapshot, the rounding loses at most (total - 1) per address with a positive score, and never overpays |
| Payout.NumPositiveBound | payout.js:12-16 | the number of positive scores is at most the score total, and positive when the total is |
| Payout.DistributionBounds | payout.js:19-23 | the shares sum to at most 500000, and the shortfall is less than the number of positive scores, hence less than the score total |
| Payout.ShareMonotone | payout.js:21 | a zero score is paid 0, and a larger score is never paid less |
| Payout.TwoAddressExample | payout.js:21 | scores {A: 1, B: 3} are paid 125000 and 375000, the whole pool |
| Payout.SnapshotReadsBack | payout.js:12-16 | a snapshot the engine wrote reads back as exactly the scores of the table it came from |

## Left out

- Block delivery (the accumulator library, app.js:62-66 and 139) is not modelled. `ApplyBlock` takes the height and the diff as inputs. A ghost `lastHeight` requires heights to increase strictly, which the engine assumes but does not check.
- The RPC client and `dingo.js` are not part of this model. `ComputeDiff` receives blocks already decoded.
- The snapshot file write (app.js:107-110) becomes an insertion into the `history` map keyed by height. File I/O and JSON serialisation are not modelled. Reading the file back in payout.js becomes `ParseScores` over a map.
- The Express server, CORS, rate limiting and the `/current` and `/next` routes only serve data. The model keeps the caches they send and the `/stats` computation.
- Progress logging (app.js:67-69, payout.js:22) is left out.
- The payout transaction is left out: creating, funding, signing and sending it, and the countdown (payout.js:25-51).
- JavaScript object key order is not modelled. Loops over keys pick any remaining key. The sums and snapshots do not depend on order, and `SumValuesRemove` proves that for sums.
- Ledger.RenderCache: when two addresses share a cache key, the source keeps the one later in insertion order. The model only says the value is some such address's. `CacheReadsBack` is exact only when no two addresses share a key.
- Transaction outputs keep only the fields the engine reads: txid, vout index, type, address and value text.
- `staked` and `currentStaked` hold `Entry` values, not shared objects. The rebase copy therefore cannot alias `staked` by construction, and the model does not reason about object identity.

# NEAR TEE price oracle: a Dafny model

This project models the core of a price oracle for the NEAR blockchain. It has two halves.

- The on-chain contract (`contract/src/lib.rs`) keeps a registry of assets. Operators are whitelisted by the owner. Each operator names one node account, and a node becomes authorized by presenting an approved enclave attestation. Authorized nodes report prices. After every report the contract drops stale reports. If enough fresh reports remain, it publishes their median as the asset's aggregated price. The contract also has a multisig governance path. Proposers file actions, voters approve them, and an action runs once its timelock has passed and a quorum of voters, counted in basis points, has approved it.
- The off-chain oracle node (`oracle-node/src/priceUtils.ts`, `oracle-node/src/priceFetcher.ts`) asks each configured HTTP source for an asset. It reads a number out of each JSON reply along a dot path, counts consecutive failures per source name, and reduces the collected prices to their median.

Modules:

- `Wrappers`: `Option`.
- `OracleTypes`: Rust's fixed-width integers as ranges of `int`, the saturating and truncating operations the contract uses, the contract's records, and one `Reason` per panic message.
- `Sorting`: the `Vec::sort` of the `u128` multipliers.
- `Aggregation`: the pure part of `finalize_reports` and `update_aggregated_price` (freshness filter, required count, median, latest timestamp), and the map bookkeeping of the price book.
- `Governance`: `required_approvals` and `has_quorum`.
- `OracleContract`: the contract as a class `Oracle` whose fields are the contract's collections. Every entry point is a method.
  - The caller (`env::predecessor_account_id()`) and the block time (`env::block_timestamp()`) are parameters.
  - A panic is the result `Reverted(reason)` with the state unchanged. NEAR rolls back every write of a call that panics.
  - Every entry point keeps `Valid()`. It needs five facts.
    - The configured minimum count and quorum are in range.
    - Listed assets are defined.
    - Each stored report list is non-empty and holds at most one report per node.
    - An aggregated price is always the aggregate of the stored reports.
    - The authorized nodes are exactly the nodes with stored details. Each has an operator, and stored proposals are well formed.
- `PriceUtils`: `extractPriceFromPath` over a JSON value type, and `calculateMedian` over reals. It has its own insertion sort over `real` for `[...prices].sort((a, b) => a - b)` because Dafny cannot constrain a type parameter to be ordered. That sort is the same algorithm as `Sorting`'s, with the same lemmas. Passing a comparison function instead would make the verifier's work on every caller much more expensive.
- `PriceFetcher`: the class `PriceFetcher` with its `failureCount` map.
  - The HTTP reply of each source is a parameter.
  - The clock reading `Date.now()` for the result's timestamp is a parameter.

Two facts about the code shape the model:

- The code asks the sources of an asset one after another, and each update of the failure count is a plain read followed by a write.
- The `!isNaN(price)` test in `fetchFromSource` never rejects a price that `extractPriceFromPath` returns. `JSON.parse` never produces NaN, and the two `parseFloat` branches return null for anything that is not finite. An infinite price can still come through the number branch: `JSON.parse` turns an overflowing literal such as `1e400` into `Infinity`, and that branch returns it unchecked. `Json.Num` holds a real, so the model has no such reply (see "## Left out").

## Model

| member | source | states |
|---|---|---|
| OracleContract.Oracle.constructor | contract/src/lib.rs:168-193 | an empty contract with the given owner and threshold; minimum report count `max(1, n)`; attestation max age 600 s in nanoseconds; quorum 5000 bps; no proposals |
| OracleContract.Oracle.AddAsset | contract/src/lib.rs:196-202 | owner only, otherwise `NotOwner` and nothing changes; stores the definition under its id and appends the id to the list (a repeated id is listed twice) |
| OracleContract.Oracle.AddNodeOperator | contract/src/lib.rs:204-207 | owner only; adds the operator to the whitelist |
| OracleContract.Oracle.RemoveNodeOperator | contract/src/lib.rs:209-212 | owner only; then the whole effect of `internal_remove_node_operator` (`OperatorRemoved`) |
| OracleContract.Oracle.ApproveCodeHash | contract/src/lib.rs:214-217 | owner only; adds the code hash |
| OracleContract.Oracle.RemoveCodeHash | contract/src/lib.rs:219-222 | owner only; removes the code hash and its enclave measurement |
| OracleContract.Oracle.ApproveAttestation | contract/src/lib.rs:224-232 | `NotOwner`, else `CodeHashMustBeApprovedFirst` when the hash is not approved, else stores the measurement for the hash |
| OracleContract.Oracle.RemoveAttestation | contract/src/lib.rs:234-238 | owner only; removes the hash's measurement |
| OracleContract.Oracle.SetPaused | contract/src/lib.rs:240-248 | `pause`/`resume`: owner only; sets the flag |
| OracleContract.Oracle.UpdateConfig | contract/src/lib.rs:250-253 | owner only; each given value replaces the old one, a count of 0 stored as 1 |
| OracleContract.Oracle.SetAttestationMaxAge | contract/src/lib.rs:255-260 | `NotOwner`, else `MaxAgeNotPositive` for 0, else sets the max age |
| OracleContract.Oracle.SetNodeAccount | contract/src/lib.rs:263-280 | whitelisted operators only; links operator and node both ways; a previous node of the operator loses its back link, its authorization and its details |
| OracleContract.Oracle.RegisterNode | contract/src/lib.rs:283-331 | the six checks in source order with their reasons (node linked, operator whitelisted, hash approved, measurement stored, measurement equal, attestation age `saturating_sub` at most the max age); success exactly when all pass; then the node is authorized with fresh details (last report 0, active) |
| OracleContract.Oracle.ReportPrice | contract/src/lib.rs:334-380 | `OraclePaused`, `NotAuthorizedNode`, `AssetNotFound`, `DecimalsMismatch` in that order; otherwise the node's old report is replaced by one stamped `now`, the asset is finalized, and the node's last report time is set |
| OracleContract.Oracle.NoteLastReport | contract/src/lib.rs:370-374 | the node's `last_report` is updated only when it has details |
| OracleContract.Oracle.RecordReport | contract/src/lib.rs:352-368 | the stored reports (or none), minus the caller's, plus the new report, then finalized |
| OracleContract.Oracle.FinalizeReports | contract/src/lib.rs:768-799 | the book afterwards is the old book with this asset's slot replaced by `Finalize` of the reports, and stays consistent |
| OracleContract.Oracle.UpdateAggregatedPrice | contract/src/lib.rs:737-766 | no reports: nothing changes; otherwise the asset's price is `AggregatePrice` of the reports |
| OracleContract.Oracle.GetPrice | contract/src/lib.rs:383-400 | a price exactly when one is stored and it is not older than the threshold (`saturating_sub`, threshold 0 = never stale); the number of sources is the number of stored reports cast to `u8` |
| OracleContract.Oracle.PublishedPriceIsAggregate | contract/src/lib.rs:383-400 | under the invariant, a price that `get_price` returns is the aggregate of the asset's stored, non-empty reports |
| OracleContract.Oracle.ToPythPrice | contract/src/lib.rs:409-414 | multiplier cast to `i64` (low 64 bits, two's complement), confidence 0, exponent `-decimals`, publish time in whole seconds |
| OracleContract.Oracle.GetPriceNoOlderThan | contract/src/lib.rs:402-415 | a price exactly when one is stored whose age is at most `max_age` |
| OracleContract.Oracle.GetPriceUnsafe | contract/src/lib.rs:417-426 | a price exactly when one is stored, whatever its age |
| OracleContract.Oracle.GetPriceData | contract/src/lib.rs:428-438 | the result is exactly `PriceDataOf(asset_list)`: the `get_price` results of the listed ids that have one, in list order, repeats included |
| OracleContract.Oracle.PriceDataOf | contract/src/lib.rs:428-438 | at most one entry per listed id, and every entry is the `get_price` of a listed id |
| OracleContract.Oracle.PriceDataOfCovers | contract/src/lib.rs:428-438 | every listed id with a price contributes its data |
| OracleContract.Oracle.PriceDataOfRepeats | contract/src/lib.rs:428-438 | an id listed k times contributes its data at least k times |
| OracleContract.Oracle.GetAssets | contract/src/lib.rs:440-450 | the definitions of the listed ids, one per list entry, in list order |
| OracleContract.Oracle.IsAuthorized | contract/src/lib.rs:452-454 | an authorized node has details and an operator; an unauthorized one has no details |
| OracleContract.Oracle.DetailsIffAuthorized | contract/src/lib.rs:452-458 | under the invariant, `get_node_details` finds details exactly for authorized nodes |
| OracleContract.Oracle.ConfigureAdminRole | contract/src/lib.rs:480-515 | `NotOwner`, `EmptyVoterSet`, `QuorumTooLarge` in that order; otherwise proposers and voters replaced (duplicates collapse), all proposals dropped, timelock set, quorum 0 stored as 1 |
| OracleContract.Oracle.InstallAdminRole | contract/src/lib.rs:491-512 | the clearing and refilling of the role sets and the proposal map |
| OracleContract.Oracle.ProposeAction | contract/src/lib.rs:517-547 | proposers only; the counter advances by a saturating 1 and the new proposal, filed under it, is scheduled `now + delay` (saturating) and pre-approved by its proposer when the proposer votes |
| OracleContract.Oracle.ApproveProposal | contract/src/lib.rs:549-570 | `NotAdminVoter`, `ProposalNotFound`, `ProposalAlreadyExecuted`; a repeated approval changes nothing; otherwise the voter is appended to the approvals |
| OracleContract.Oracle.ExecuteProposal | contract/src/lib.rs:572-596 | `NotAuthorizedToExecute`, `ProposalNotFound`, `ProposalAlreadyExecuted`, `TimelockNotElapsed`, `QuorumNotMet` in that order; otherwise the action's effect and the proposal removed |
| OracleContract.Oracle.CancelProposal | contract/src/lib.rs:598-604 | `NotOwner`, else `ProposalNotFound`, else the proposal is removed |
| OracleContract.Oracle.ExecuteAdminAction | contract/src/lib.rs:607-647 | each action changes exactly its own group of fields as `ActionApplied` states (governance `ApproveAttestation` with no approved-hash check) |
| OracleContract.Oracle.RemoveNodeOperatorInternal | contract/src/lib.rs:671-692 | the operator leaves the whitelist; an operator without a node changes nothing else; otherwise its links, its node's authorization and details go, and the cascade runs |
| OracleContract.Oracle.UnlinkOperator | contract/src/lib.rs:673-677 | the four removals for the operator's node |
| OracleContract.Oracle.CascadeRemoval | contract/src/lib.rs:679-689 | every listed, defined asset with stored reports holds `Finalize` of its earlier reports without the node's; every other asset keeps its slot |
| OracleContract.Oracle.CascadeStep | contract/src/lib.rs:680-688 | one turn of the loop keeps the cascade invariant for one more list entry (a repeated id is finalized again to the same slot) |
| OracleContract.Oracle.AddNodeOperatorInternal | contract/src/lib.rs:666-669 | adds to the whitelist |
| OracleContract.Oracle.RemoveCodeHashInternal | contract/src/lib.rs:699-703 | removes the hash and its measurement |
| OracleContract.Oracle.UpdateConfigInternal | contract/src/lib.rs:715-727 | given values replace the old ones; a count of 0 becomes 1 |
| Governance.RequiredApprovals | contract/src/lib.rs:653-664 | no voters need 0; otherwise the least `r >= 1` with `r * 10000 >= voters * quorum_bps` (the rounded-up fraction) |
| Governance.RequiredApprovalsAtMostVoters | contract/src/lib.rs:653-664 | with a quorum of at most 10000 bps, no more approvals are needed than there are voters |
| Governance.UnanimityHasQuorum | contract/src/lib.rs:649-651 | approval by every voter meets any quorum of at most 100% |
| Governance.TwoVotersAtHalfNeedOne | contract/src/lib.rs:1140-1171 | two voters at 5000 bps need one approval, as in the proposal flow test |
| Sorting.SortPermutation | contract/src/lib.rs:743-744 | the sort keeps every multiplier, each as often |
| Sorting.SortSorted | contract/src/lib.rs:743-744 | the sorted multipliers are ascending |
| Sorting.SortCharacterized | contract/src/lib.rs:743-744 | the sort is the only ascending rearrangement of its input |
| Sorting.SortPermutationInvariant | contract/src/lib.rs:743-744 | the sort does not depend on the order of its input |
| Sorting.SortedBounds | contract/src/lib.rs:743-750 | each element of a sorted list lies between its first and last |
| Aggregation.Multipliers | contract/src/lib.rs:743 | one multiplier per report, each within `u128` |
| Aggregation.MultipliersAt | contract/src/lib.rs:743 | the i-th multiplier is the i-th report's |
| Aggregation.MiddleOfBounds | contract/src/lib.rs:746-750 | the middle of a sorted list (or the integer mean of its two middles) lies between its ends |
| Aggregation.MedianOfSorted | contract/src/lib.rs:743-750 | for a sorted list: the middle element at odd length, `(a + b) / 2` of the two middles at even length |
| Aggregation.Median | contract/src/lib.rs:743-750 | the median is at least one multiplier and at most one multiplier |
| Aggregation.MedianPermutationInvariant | contract/src/lib.rs:743-750 | the median does not depend on the order of the reports |
| Aggregation.MedianOfTwoReports | contract/src/lib.rs:986-998 | 36000 and 35000 give 35500, as in the minimum-sources test |
| Aggregation.LatestTimestampIsMaximum | contract/src/lib.rs:755-756 | the latest timestamp is at least every report's and is one of them |
| Aggregation.AggregatePriceBetween | contract/src/lib.rs:737-766 | the aggregate multiplier is the median and lies among the multipliers; its decimals are the first report's; its timestamp is the latest |
| Aggregation.AggregateOfAgreeingReports | contract/src/lib.rs:737-766 | reports that agree on a multiplier aggregate to it |
| Aggregation.Retain | contract/src/lib.rs:355 | `Vec::retain` never grows the list |
| Aggregation.RetainMembers | contract/src/lib.rs:355 | `retain` keeps exactly the reports that satisfy the criterion |
| Aggregation.RetainConcat | contract/src/lib.rs:355 | `retain` distributes over concatenation, which preserves the order |
| Aggregation.RetainKeepsAll | contract/src/lib.rs:771 | `retain` with a criterion every report meets changes nothing |
| Aggregation.RetainIdempotent | contract/src/lib.rs:771 | retaining twice is retaining once |
| Aggregation.RetainOnePerOracle | contract/src/lib.rs:771 | `retain` keeps the one-report-per-node property |
| Aggregation.FreshReports | contract/src/lib.rs:769-772 | the freshness filter never grows the list |
| Aggregation.FreshReportsMembers | contract/src/lib.rs:769-772 | with a threshold, exactly the reports no older than `now - threshold` (saturating) survive; with threshold 0 all do |
| Aggregation.FreshReportsOfFresh | contract/src/lib.rs:769-772 | filtering fresh reports changes nothing |
| Aggregation.FreshReportsOnePerOracle | contract/src/lib.rs:769-772 | the filter keeps one report per node |
| Aggregation.RequiredSources | contract/src/lib.rs:781-784 | the largest of the contract minimum, the asset minimum and 1 |
| Aggregation.FinalizeOutcome | contract/src/lib.rs:768-799 | reports removed exactly when none is fresh; otherwise exactly the fresh ones kept; a price stored exactly when at least the required count survive, and then it is their aggregate |
| Aggregation.FinalizeConsistent | contract/src/lib.rs:768-799 | finalizing one-per-node reports leaves a consistent slot |
| Aggregation.FinalizeIdempotent | contract/src/lib.rs:768-799 | finalizing what finalization kept, at the same instant, gives the same slot |
| Aggregation.FinalizedPriceIsCurrent | contract/src/lib.rs:383-400 | a price that finalization has just stored is not stale for `get_price` at that instant |
| Aggregation.Place | contract/src/lib.rs:774-797 | `insert` or `remove` of one key leaves every other key as it was |
| Aggregation.PlaceSlotIn | contract/src/lib.rs:774-797 | placing a slot changes that asset's slot and no other |
| Aggregation.PlaceConsistent | contract/src/lib.rs:774-797 | placing a consistent slot keeps the whole book consistent |
| Aggregation.WithoutOracle | contract/src/lib.rs:683 | removing a node's reports never grows the list |
| Aggregation.WithoutOracleMembers | contract/src/lib.rs:683 | exactly the other nodes' reports remain |
| Aggregation.WithoutOracleIdempotent | contract/src/lib.rs:683 | removing twice is removing once |
| Aggregation.WithoutOracleOnePerOracle | contract/src/lib.rs:683 | the removal keeps one report per node |
| Aggregation.ReplaceReport | contract/src/lib.rs:352-366 | the replaced list is never empty |
| Aggregation.ReplaceReportSpec | contract/src/lib.rs:352-366 | the new report is last; no earlier report is the same node's; other nodes' reports are kept; one report per node is preserved |
| Aggregation.ReportedSlot | contract/src/lib.rs:334-368 | after a report stamped `now`, the asset keeps reports, the new report last, and otherwise exactly the other nodes' fresh reports |
| PriceUtils.TrimStartSpec | oracle-node/src/priceUtils.ts:10 | the leading white space removed: a suffix, not starting with white space, after only white space |
| PriceUtils.TrimEndSpec | oracle-node/src/priceUtils.ts:10 | the trailing white space removed, symmetrically |
| PriceUtils.TrimSpec | oracle-node/src/priceUtils.ts:10 | `trim()` is the infix between white space prefix and suffix and neither starts nor ends with white space |
| PriceUtils.Split | oracle-node/src/priceUtils.ts:2 | `split('.')` always yields at least one piece |
| PriceUtils.JoinSplit | oracle-node/src/priceUtils.ts:2 | joining the pieces with dots gives the path back |
| PriceUtils.SplitHasNoDots | oracle-node/src/priceUtils.ts:2 | no piece contains a dot |
| PriceUtils.SplitAtDot | oracle-node/src/priceUtils.ts:2 | the pieces of `a.b` are those of `a` followed by those of `b` |
| PriceUtils.NonEmpty | oracle-node/src/priceUtils.ts:2 | `filter(Boolean)` never grows the list |
| PriceUtils.NonEmptyConcat | oracle-node/src/priceUtils.ts:2 | the filter distributes over concatenation |
| PriceUtils.NonEmptyKeeps | oracle-node/src/priceUtils.ts:2 | every kept piece is non-empty and was a piece |
| PriceUtils.SegmentsShape | oracle-node/src/priceUtils.ts:2 | every path segment is non-empty and dot-free |
| PriceUtils.DoubleDotIsSingleDot | oracle-node/src/priceUtils.ts:2 | `a..b` has the segments of `a.b` |
| PriceUtils.ElementAt | oracle-node/src/priceUtils.ts:19 | `current[index]` for an in-range index: the element when it is whole, `undefined` otherwise |
| PriceUtils.Property | oracle-node/src/priceUtils.ts:23 | `current[key]`: an object's field or `undefined`; `length` of an array, or of a string in UTF-16 code units; `undefined` on any other value |
| PriceUtils.Utf16Length | oracle-node/src/priceUtils.ts:23 | a string's UTF-16 length lies between its character count and twice that, and equals the character count exactly when no character is above U+FFFF |
| PriceUtils.EmojiLength | oracle-node/src/priceUtils.ts:23 | `"😀".length` is 2, a surrogate pair |
| PriceUtils.FiniteValue | oracle-node/src/priceUtils.ts:36 | `Number.isFinite(parsed) ? parsed : null` |
| PriceUtils.ExtractPriceFromPath | oracle-node/src/priceUtils.ts:1-41 | the loop over the segments (null/undefined stops it; a numeric segment needs an array and an in-range index; any other segment is a property read), then the coercion, equals `ExtractPrice` |
| PriceUtils.NothingGivesNull | oracle-node/src/priceUtils.ts:6-8 | null or undefined data gives null, whatever the path |
| PriceUtils.WalkThroughNothing | oracle-node/src/priceUtils.ts:5-8 | reaching null or undefined before the last segment gives null |
| PriceUtils.IndexSegment | oracle-node/src/priceUtils.ts:10-21 | a numeric segment steps on exactly when the value is an array and the index is in range; a negative index gives null |
| PriceUtils.KeySegment | oracle-node/src/priceUtils.ts:23 | a non-numeric segment reads the trimmed property |
| PriceUtils.DoubleDotResolvesAlike | oracle-node/src/priceUtils.ts:2 | `a..b` and `a.b` extract the same price |
| PriceUtils.KeyKeyKey | oracle-node/src/priceUtils.ts:1-41 | three plain keys into nested objects reach the string and parse it |
| PriceUtils.NestedObjectExample | oracle-node/src/priceFetcher.test.ts:18-21 | `{a:{b:{c:'42.5'}}}` at `a.b.c` gives 42.5 |
| PriceUtils.KeyIndexKey | oracle-node/src/priceUtils.ts:1-41 | key, index 0, key through an object, an array and an object reach the string and parse it |
| PriceUtils.ArrayIndexExample | oracle-node/src/priceFetcher.test.ts:23-26 | `{data:[{last:'3.55'}]}` at `data.0.last` gives 3.55 |
| PriceUtils.MissingKeyExample | oracle-node/src/priceFetcher.test.ts:28-31 | `{a:{}}` at `a.price` gives null |
| PriceUtils.ExtractAlong | oracle-node/src/priceUtils.ts:1-41 | the result is the coercion of where the walk along the segments ends |
| PriceUtils.SortPermutation | oracle-node/src/priceUtils.ts:48 | the sorted copy keeps every price, each as often |
| PriceUtils.SortSorted | oracle-node/src/priceUtils.ts:48 | the sorted copy is ascending |
| PriceUtils.SortCharacterized | oracle-node/src/priceUtils.ts:48 | it is the only ascending rearrangement |
| PriceUtils.MedianOfSorted | oracle-node/src/priceUtils.ts:43-56 | for sorted input: the middle at odd length, the mean of the two middles at even length |
| PriceUtils.MedianOfNothing | oracle-node/src/priceUtils.ts:44-46 | no prices give 0 |
| PriceUtils.MedianBetween | oracle-node/src/priceUtils.ts:43-56 | the median lies between the least and the greatest price and between two of the prices |
| PriceUtils.LeastIsLeast | oracle-node/src/priceUtils.ts:43-56 | the reference minimum is one of the prices and at most each |
| PriceUtils.GreatestIsGreatest | oracle-node/src/priceUtils.ts:43-56 | the reference maximum is one of the prices and at least each |
| PriceUtils.MedianPermutationInvariant | oracle-node/src/priceUtils.ts:43-56 | the median does not depend on the order of the prices |
| PriceUtils.OddMedianExample | oracle-node/src/priceFetcher.test.ts:4-6 | `[1, 3, 2, 10, 5]` gives 3 |
| PriceUtils.EvenMedianExample | oracle-node/src/priceFetcher.test.ts:8-10 | `[4, 1, 3, 2]` gives 2.5 |
| PriceFetcher.FetchFromSource | oracle-node/src/priceFetcher.ts:54-81 | a price only from an `ok` JSON reply whose value at the path is that positive number |
| PriceFetcher.FetchFromSourceSucceeds | oracle-node/src/priceFetcher.ts:66-75 | an `ok` JSON reply holding a positive number at the path gives that number |
| PriceFetcher.PriceFetcher.constructor | oracle-node/src/priceFetcher.ts:13 | no counts |
| PriceFetcher.PriceFetcher.FetchPrice | oracle-node/src/priceFetcher.ts:15-52 | the loop's counts are the tally of the outcomes; null exactly when no price was collected; otherwise the median of the collected prices, their number, and the clock reading |
| PriceFetcher.PriceFetcher.CollectPrices | oracle-node/src/priceFetcher.ts:16-36 | the prices collected are those of the positive outcomes in source order, their number is counted, and the counts are the tally of the outcomes |
| PriceFetcher.PriceFetcher.VisitSource | oracle-node/src/priceFetcher.ts:20-35 | one source: its outcome is that of `fetchFromSource`, and its count is reset by a positive price and raised by one on a throw |
| PriceFetcher.PriceFetcher.ResetFailures | oracle-node/src/priceFetcher.ts:25 | a successful source's count becomes 0 |
| PriceFetcher.PriceFetcher.CountFailure | oracle-node/src/priceFetcher.ts:28-29 | a failing source's count becomes its old count (or 0) plus one |
| PriceFetcher.PriceFetcher.GetFailureStats | oracle-node/src/priceFetcher.ts:82-84 | a copy of the counts |
| PriceFetcher.CollectedPositive | oracle-node/src/priceFetcher.ts:22-24 | every collected price is positive, and there are at most as many as sources |
| PriceFetcher.CollectedEmptyIffNoPrice | oracle-node/src/priceFetcher.ts:38-41 | no price is collected exactly when no outcome is a positive price |
| PriceFetcher.FetchNullIffAllThrew | oracle-node/src/priceFetcher.ts:15-52 | `fetchPrice` returns null exactly when every source's fetch threw |
| PriceFetcher.Names | oracle-node/src/priceFetcher.ts:19 | the set of the sources' names |
| PriceFetcher.TallyLeavesOthers | oracle-node/src/priceFetcher.ts:19-36 | counts of names not among the sources are left as they were |
| PriceFetcher.TallyKeys | oracle-node/src/priceFetcher.ts:19-36 | afterwards every source name has a count, and no other name gains one |
| PriceFetcher.FetchCountsEverySource | oracle-node/src/priceFetcher.ts:19-36 | the same for the outcomes of `fetchFromSource` |
| PriceFetcher.TallyAllThrew | oracle-node/src/priceFetcher.ts:27-29 | when every source of a name threw, its count grew by one per such source |
| PriceFetcher.TallyResetBySuccess | oracle-node/src/priceFetcher.ts:22-25 | when the last source of a name gave a price, its count is 0, after any number of earlier failures |
| PriceFetcher.TallyStep | oracle-node/src/priceFetcher.ts:19-36 | one source changes only its own count, and only to 0 or to one more than before |

## Left out

- I/O is not modelled: the HTTP request, its five-second abort timer, `response.json()`, logging (`env::log_str`, `console.error`, `console.warn`) and the warning after three consecutive failures. A source's reply and the clock readings are parameters.
- JavaScript numbers are modelled as reals, with `NaN` and the infinities only where `Number()` and `parseFloat` can return them. Floating-point rounding is not modelled, so the even-length node median is the exact mean.
- `Number(text)`, `parseFloat(text)` and `String(value)` are not modelled. They are fields of a `JsRuntime` parameter, so every statement holds whatever values they compute. The examples state as preconditions the values these built-ins give on the inputs used.
- PriceUtils.ExtractPriceFromPath: a `JsRuntime` field always returns a value, so the model cannot throw. In the source, `String(current)` at the end of the walk throws a `TypeError` on an object whose `toString` and `valueOf` cannot be called, such as the value at `p` in `{"p": {"toString": 1}}`. `fetchFromSource` then counts that source as failed. The model instead passes `toString`'s return value to `parseFloat`.
- PriceUtils.Property: of the prototype properties only `length` of arrays and strings is modelled. Other inherited properties (`toString`, …) read as `undefined`.
- A JSON object is a map, so a repeated key in a reply is not represented.
- PriceFetcher.FetchFromSource: the source can collect an infinite price. `JSON.parse` turns an overflowing number literal such as `{"p": 1e400}` into `Infinity`, which passes `typeof`, `!isNaN` and `> 0` and then reaches `calculateMedian`. `Json.Num` holds a finite real and cannot represent that reply, so every collected price in the model is finite.
- Aggregation.MiddleOf: the even-length median adds the two middle `u128` values on unbounded integers. The overflow of `a + b` in Rust (a panic in debug builds, wrap-around in release) is not modelled.
- `get_authorized_nodes`, `get_admin_role` and `list_proposals` are not modelled. They list unordered collections in storage iteration order, which is not part of the model.
- OracleContract.Oracle.ExecuteProposal: the model changes state in a different order from the source. The source runs the action and then removes the proposal. The model removes the proposal first. No action reads the proposal map, so the final state is the same.
- The asset's `active` flag and a source's `weight` are carried but never read, as in the source.
- Operator removal and report finalization iterate over `asset_list`, a NEAR `Vector`. It is a `seq`, so the `if let Some(...)` on its elements always succeeds.
- Storage keys, Borsh and JSON serialization are not modelled. Neither are the NEAR SDK collection types or gas.
- The node's `index.ts` scheduler, `config.ts`, `nearIntegration.ts` and the dashboard are not part of this model.

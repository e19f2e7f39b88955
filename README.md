# Sandwich-attack detector, modelled in Dafny

This project models the detection core of a small dashboard. The dashboard
looks for "sandwich attacks" among the swap transactions of one block of a
decentralized exchange. In such an attack, an attacker trades a pair just
before and just after a victim's trade. The core is `sandwiches.py`, and the
model follows it part by part:

- **Classifier** (`classifier.dfy`). A transaction is a *pure swap* when it
  holds exactly one swap. That swap must also have, for each token of the
  pair, exactly one of amount-in and amount-out equal to zero.
- **Grouper** (`grouper.dfy`). Transactions go into buckets keyed by the
  string `"token0/token1"` and the swap's recipient address. Each bucket
  keeps input order. Python dictionaries iterate in insertion order, so
  `GroupTxs` returns the keys in first-seen order next to the map.
- **Detector** (`detector.dfy`). `FindSandwichesInTxs` keeps the pure swaps
  and groups them. A bucket of exactly two transactions yields a sandwich
  when the sandwich condition holds for them in bucket (input) order: the
  first swap's amount0Out and amount1Out equal the second's amount0In and
  amount1In. Only after that check is the pair sorted by log index, with a
  stable sort.
- **Profit** (`profit.dfy`). `CalculateProfit` maps the front leg's two token
  symbols to (back out − back in) − (front in − front out) per token.
- **Records** (`records.dfy`) holds the swap and transaction records and the
  key and sort-key functions. **Scenarios** (`scenarios.dfy`) states and
  proves what the detector and the profit calculator return on small
  blocks: an attacker around a victim, and a bucket of three legs.

Each loop of the source is a method proved against a specification function.
`GroupTxs` is proved against `KeysInOrder` and `Bucket`, and
`FindSandwichesInTxs` against `Detect`. The lemmas state the partition,
ordering, soundness and completeness properties about those functions.

Three points of the code's behaviour may differ from what a reader expects:

- One might expect each pair to be sorted by log index before the sandwich
  condition is tested. The code tests the condition on the bucket's own
  (input) order and sorts afterwards (`sandwiches.py:56-57`). On input
  already in log-index order the two agree (`DetectOrderedInput`).
- The reported pair satisfies `front.logIndex <= back.logIndex`, not `<`.
  The sort is stable, so two legs with equal log index stay in input order.
- A plain buy-then-sell round trip nets nothing. Take legs (100 A in, 50 B
  out) and (100 A out, 50 B in): the formula gives 0 for both tokens, not a
  loss of 50 B. `MatchedBackLegIsASandwich` shows the formula on a block
  where the back leg takes out 110 A: it earns 10 A and 0 B.

## Model

| member | source | states |
|---|---|---|
| Records.PairSymbolCollides | sandwiches.py:11-15 | the bucket key is the symbol string, so two pairs whose token symbols differ can share a key: (A/B, C) and (A, B/C) both give "A/B/C" |
| Records.KeyOf | sandwiches.py:8-15 | no contract of its own: the key of a transaction is its first swap's "token0/token1" string and recipient; `BucketMembership` and `DetectSameKey` state what grouping by it means |
| Records.LogIndex | sandwiches.py:38 | no contract of its own: the first swap's log index; `SortByLogIndex` states the order it induces |
| Classifier.ZeroCount | sandwiches.py:23 | the count of zeros among the amounts is at most their number, and it is 0 exactly when none is zero |
| Classifier.ZeroCountIsCount | sandwiches.py:23 | the count equals the number of zeros among the amounts (their multiplicity of 0) |
| Classifier.ExactlyOneZero | sandwiches.py:22-23 | the one-zero count is 1 if and only if exactly one of the two amounts is zero |
| Classifier.IsPureSwap | sandwiches.py:21-35 | false unless the transaction has exactly one swap; for one swap, true iff exactly one of amount0In/amount0Out is zero and exactly one of amount1In/amount1Out is zero |
| Classifier.PureSwaps | sandwiches.py:47 | the filtered list holds exactly the input's pure swaps, each with a swap to key on |
| Classifier.PureSwapsCount | sandwiches.py:47 | the filter keeps every copy of a pure swap and no copy of anything else: the count of each transaction in the result is its count in the input if it is a pure swap, else 0 |
| Classifier.PureSwapsIsSubsequence | sandwiches.py:47 | the filter keeps input order |
| Grouper.Bucket | sandwiches.py:7-16 | every transaction in the bucket of key k has key k |
| Grouper.GroupTxs | sandwiches.py:4-18 | the keys come in first-seen order, the map has exactly those keys, and each key maps to its non-empty bucket in input order |
| Grouper.BucketMembership | sandwiches.py:7-16 | a transaction is in the bucket of key k iff it is in the input and its key is k, so it lands in exactly one bucket |
| Grouper.KeysInOrderMembership | sandwiches.py:15-16 | a key is listed iff its bucket is non-empty |
| Grouper.KeysInOrderDistinct | sandwiches.py:15-16 | no key is listed twice |
| Grouper.BucketIsSubsequence | sandwiches.py:16 | each bucket keeps the input order of its transactions |
| Grouper.BucketsPartitionInput | sandwiches.py:4-18 | the multiset union of all buckets equals the input |
| Detector.IsActuallySandwich | sandwiches.py:90-104 | no contract of its own: the first swap's amount0Out and amount1Out equal the second's amount0In and amount1In; `DetectSound`, `DetectOrderedInput` and `ProfitOfSandwich` state its role |
| Detector.Detect | sandwiches.py:41-59 | the detector's result as a function of the input; it has at most one sandwich per distinct key of the pure swaps |
| Detector.SortByLogIndex | sandwiches.py:38 | the sorted pair is a permutation of the two, ordered by log index, and keeps input order on ties (stable) |
| Detector.FindSandwichesInTxs | sandwiches.py:41-59 | the result equals Detect; each sandwich comes from a two-member bucket of pure swaps of the input; the condition holds in input order; front log index <= back log index; one sandwich per key; no transaction in two sandwiches |
| Detector.DetectSound | sandwiches.py:47-57 | each sandwich comes from two input positions i < j that are pure swaps with one key, form their whole bucket, and meet the condition in that order; the pair is then sorted |
| Detector.DetectComplete | sandwiches.py:50-57 | every two-member bucket meeting the condition in input order is reported |
| Detector.DetectSkipsOtherBuckets | sandwiches.py:56 | a bucket of any size other than two contributes no sandwich |
| Detector.DetectSameKey | sandwiches.py:56-57 | both legs of a sandwich have the same pair symbol and recipient |
| Detector.DetectOnePerKey | sandwiches.py:48-57 | no two sandwiches share a key |
| Detector.DetectDisjoint | sandwiches.py:48-57 | no transaction appears in two sandwiches |
| Detector.DetectOrderedInput | sandwiches.py:90-104 | on input in log-index order, each reported front leg's amount0Out and amount1Out equal the back leg's amount0In and amount1In |
| Profit.CalculateProfit | sandwiches.py:62-85 | the keys are the front leg's two symbols; the token1 entry is the total token1 out minus total token1 in over both legs, and so is the token0 entry when the symbols differ (otherwise the token1 entry overwrites it) |
| Profit.ProfitOfSandwich | sandwiches.py:81-83 | under the sandwich condition the profit per token is the back leg's out minus the front leg's in |
| Profit.ProfitOfDetected | sandwiches.py:41-85 | on input in log-index order, every reported sandwich's profit takes that simplified form |
| Scenarios.TwoBuckets | sandwiches.py:7-16 | for legs a and c of one key around a b of another, the keys are [key a, key b] and the buckets are [a, c] and [b] |
| Scenarios.OneBucket | sandwiches.py:7-16 | three transactions of one key form one bucket in input order |
| Scenarios.DetectAroundVictim | sandwiches.py:41-59 | two attacker legs around a victim are reported, sorted, exactly when the condition holds in input order |
| Scenarios.DetectThreeLegs | sandwiches.py:56 | a bucket of three pure swaps yields nothing, whatever the amounts |
| Scenarios.MismatchedBackLegIsNotASandwich | sandwiches.py:104 | a back leg putting in 40 B where the front leg took out 50 B is not reported |
| Scenarios.MatchedBackLegIsASandwich | sandwiches.py:56-85 | a matching back leg is reported front leg first, with profit 10 A and 0 B |
| Scenarios.ThreeLegBucketIsSkipped | sandwiches.py:56 | three legs of one attacker in one block are never reported |

## Left out

- Amounts are `real`. The source parses decimal strings with `float()`,
  which rounds. The exact float equality of the sandwich condition
  (`sandwiches.py:104`) becomes exact equality of reals. NaN and infinities
  do not exist here.
- Malformed records are left out: a missing field, or an amount or log index
  that does not parse, raises `KeyError` or `ValueError` in the source.
  Typed records make those lookups total. What remains is the source's own
  need for a first swap: `KeyOf`, `LogIndex`, `SortByLogIndex`,
  `IsActuallySandwich` and `CalculateProfit` require one.
- The GraphQL query in `transactions.py` does not request `logIndex`, so on
  fetched records `log_index` would fail. The model treats the log index as
  a field of every swap.
- Fetching transactions (`transactions.py`), the file store, and the
  dashboard aggregation and pages (`utils.py`, `streamlit_app.py`, the
  `*_app.py` pages) are not part of this model. They are network, file and
  presentation code around the core.
- Determinism and idempotence of the profit calculation hold because
  `CalculateProfit` is a function. No separate lemma states them.

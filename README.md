# NISA / taxable-account projection: schedule compiler and simulation engine

This project models the core of a long-horizon investment calculator. The calculator keeps
two accounts. The NISA account is tax-exempt and has a lifetime deposit cap of 18,000,000 yen.
The taxable account pays a flat 20.315 % tax on each month's gain. The user describes a
monthly cash-flow schedule in one of three forms. In the simple form it is a monthly
contribution plus a monthly withdrawal from a start month. In the block builder it is a list
of blocks, each a pattern of `(months, flow)` periods repeated for some years. In the DSL it
is one line of text per block, such as `積立期: (12, 30000), (6, 0) x5`. The user also picks a
list of annual rates. For each rate, the engine runs a 480-month simulation and reports the
final total.

The model is split into these modules:

- `Periods` (periods.dfy) holds the `Period` and `PeriodBlock` values. It also defines
  `Expand`, the month-by-month meaning of a period list. Every schedule operation is proved
  against `Expand`.
- `PeriodsDsl` and `PeriodsDslPrint` cover `parseDslToBlocks` and `blocksToDsl`. They prove
  that printing and then parsing gives the same blocks back.
- `PeriodsBlocks` covers `flattenBlocks`, which replays each block's pattern cyclically.
- `PeriodsSchedule` covers `mergeConsecutive`, `applyDuration` and `monthlySequence`.
- `PeriodsStreams` covers `mergeStreams`, `generateSimplePeriods` and `diffMonthsSafe`.
- `PeriodsNormalize` covers `normalizePeriods`, which turns any of the three input forms into
  coalesced periods that fill exactly the duration.
- `CalcEngine` covers `diffMonths`, `allocateToAccounts` and the `calcFinalTotal` loop.
- `Format` covers the helpers for rates and year-months.
- `BlocksEditor` covers the list edits of the block editor and the clamps on its inputs.
- `App` covers the calculator screen: it parses the rate list, validates the scenario and
  runs the calculation.
- `JsNumbers` and `JsStrings` model the ECMAScript built-ins the code relies on. These
  include `Number(text)`, `parseInt`, `trim`, `split`, `join`, `padStart`, `Math.trunc` and
  `Math.max(0, …)` on NaN. `JsNum` is `Finite(real) | PosInf | NegInf | NaN`.

The imperative functions are Dafny methods with the source's own loops:

- `flattenBlocks`, `applyDuration` and `mergeConsecutive`;
- `mergeStreams`, with its fill into a `new Array(d)` and its run-cutting loop;
- `monthlySequence`, which writes into an array;
- the `parseDslToBlocks` line loop;
- `moveBlock`, whose two splices shift a copied array in place;
- `calcFinalTotal`.

Each method is proved against a function that describes its result. The properties the code
promises are then proved about that function: coalesced, positive, total months, expansion,
uniqueness, round trips, and bounds.

Where the written description of the system and the code disagree, the model follows the code:

- `calcFinalTotal` always runs 480 months. It does not run `durationYears * 12` months.
- Growth branches on the sign of the monthly rate, not on the sign of the gain. A non-negative
  rate adds `floor(gain) - floor(floor(gain) * 0.20315)`.
- A year-month with no month part, such as `"2030"`, does not degrade to a 0-month offset.
  - In `calcEngine.diffMonths` the missing part is `undefined`, which passes the
    `Number.isNaN` test. The result is NaN, so `monthIndex >= NaN` never holds and no
    withdrawal is ever made.
  - In `diffMonthsSafe` the result is NaN as well, and the simple mode pushes no withdrawal.

## Model

| member | source | states |
|---|---|---|
| PeriodsDsl.ParseLine | src/lib/periods.ts:21-55 | a line that parses gives a block with a positive repeat count and a non-empty pattern of periods of one month or more; a block gets a name only if the line has a `:` |
| PeriodsDsl.ParseWorking | src/lib/periods.ts:30-55 | the checks run in the source's order, each error exactly when the earlier checks pass and its own fails: no pattern or no repeat text before and after the first `x`; a repeat that is not a positive integer; no `(…)` group; then the first bad group's own error. A success keeps the given name, reads the repeat count as written and takes the groups' periods in order |
| PeriodsDsl.NoRepeatPart | src/lib/periods.ts:30-33 | working text with no `x` or `X` is rejected for a missing repeat count |
| PeriodsDsl.LineWithoutRepeat | src/lib/periods.ts:21-33 | a line with no `x` or `X` anywhere is rejected for a missing repeat count |
| PeriodsDsl.NameSplit | src/lib/periods.ts:24 | a match of `/^([^:]+):(.*)$/` splits the line at its first colon into a non-empty, colon-free name and the rest |
| PeriodsDsl.Working | src/lib/periods.ts:24-28 | a name is split off exactly when the line matches the name pattern and the rest holds `(`; the name and the rest are then trimmed, and otherwise the line is taken whole |
| PeriodsDsl.Groups | src/lib/periods.ts:38 | every `/\([^\)]+\)/g` match starts with `(` and has at least one character between the brackets |
| PeriodsDsl.ParseGroup | src/lib/periods.ts:42-54 | a group that reads gives months of at least one; a rejected group fails with one of the three group errors (no flow, bad months, bad flow) |
| PeriodsDsl.GroupWithoutComma | src/lib/periods.ts:43-46 | a bracketed group with no comma fails on the missing flow (the `replace` of `undefined`) |
| PeriodsDsl.MonthsNotRounded | src/lib/periods.ts:43-49 | a group whose months do not read as a positive integer is rejected for its months, whatever its flow |
| PeriodsDsl.FractionalMonthsRejected | src/lib/periods.ts:45-49 | the group `(1.5, 2)` is rejected for its months, not rounded to one month |
| PeriodsDsl.GroupFields | src/lib/periods.ts:44-53 | fewer than two comma pieces fail on the missing flow; otherwise bad months exactly when the first piece is not a positive integer, and bad flow exactly when the months are fine but the second piece, `+` signs dropped, is not finite; a success has the months as read and the flow truncated |
| PeriodsDsl.ParseGroups | src/lib/periods.ts:42-54 | a pattern that reads has one positive period per group; a failure carries a group error |
| PeriodsDsl.ParseGroupsMeaning | src/lib/periods.ts:42-54 | the pattern reads iff every group reads, and then period `k` is group `k`'s; otherwise the error is that of the first group that fails, all before it reading |
| PeriodsDsl.ReadEachOk | src/lib/periods.ts:42-54 | when the `map` whose callback may throw completes, each result is the callback's value on that item |
| PeriodsDsl.ReadEachFirstError | src/lib/periods.ts:42-54 | when the `map` throws, the error is that of the first item whose callback throws |
| PeriodsDsl.CollectedBlocks | src/lib/periods.ts:19-59 | every collected block is well formed and is the result of one of the lines |
| PeriodsDsl.CollectedErrors | src/lib/periods.ts:56-58 | a failing line adds an error with its 1-based number and its reason, whatever the later lines do |
| PeriodsDsl.CollectedOk | src/lib/periods.ts:19-59 | when every line parses, the blocks come out in line order and there are no errors |
| PeriodsDsl.ParseDslMeaning | src/lib/periods.ts:10-62 | each non-blank line gives exactly one block or one error; every block is well formed |
| PeriodsDsl.AddLine | src/lib/periods.ts:55-57 | a parsed line appends its block and leaves the errors alone; a rejected line leaves the blocks alone and appends the `N 行目: message` text of its error |
| PeriodsDsl.CollectLines | src/lib/periods.ts:19-59 | the forEach loop gives the collected blocks and the rendered errors of the lines, in order |
| PeriodsDsl.ParseDslToBlocks | src/lib/periods.ts:10-62 | the blocks and error messages are those of reading the trimmed non-blank lines in order |
| PeriodsDslPrint.LineParses | src/lib/periods.ts:64-74 | a printable block's line reads back as that block (an empty name comes back as no name) |
| PeriodsDslPrint.ParsePrinted | src/lib/periods.ts:64-74 | parsing the text `blocksToDsl` prints gives the same blocks in order, and no error |
| PeriodsDslPrint.LinesOfDsl | src/lib/periods.ts:11-14 | the trimmed non-blank lines of the printed text are exactly the block lines |
| PeriodsBlocks.ReplayAt | src/lib/periods.ts:83-90 | month `i` of the replay starting at item `k` is the pattern's month `(before(k) + i) mod total`, counted cyclically |
| PeriodsBlocks.BlockCycle | src/lib/periods.ts:79-90 | a block fills exactly `repeatYears * 12` months with positive periods; month `i` is month `i mod T` of its pattern |
| PeriodsBlocks.FlattenConcat | src/lib/periods.ts:77-93 | flattening a concatenation of block lists is the concatenation of the flattenings |
| PeriodsBlocks.FlattenBlocks | src/lib/periods.ts:77-93 | the loop emits every block's replay in list order; the periods are positive and total the blocks' months |
| PeriodsBlocks.EmitBlock | src/lib/periods.ts:80-90 | the while/for loop appends exactly the block's replay, the last item cut to the months left |
| PeriodsSchedule.MergedMeaning | src/lib/periods.ts:193-206 | merging gives no two equal neighbours, keeps total months, never lengthens, is empty only for empty input, and keeps the expansion of positive periods |
| PeriodsSchedule.MergedCanonical | src/lib/periods.ts:193-206 | merging changes nothing in positive, already coalesced periods |
| PeriodsSchedule.MergedIdempotent | src/lib/periods.ts:193-206 | merging twice is merging once |
| PeriodsSchedule.MergeConsecutive | src/lib/periods.ts:193-206 | the loop's result is coalesced, has the same total, and for positive periods the same month-by-month flows |
| PeriodsSchedule.PaddedMeaning | src/lib/periods.ts:97-116 | clamping and padding give positive periods totalling exactly `d` whose expansion is the flows cut at `d`, or padded with the last flow |
| PeriodsSchedule.DurationAppliedMeaning | src/lib/periods.ts:96-118 | the result is positive, coalesced, totals exactly `d`, is empty iff `d = 0`, and expands to the input's flows fitted to `d` months |
| PeriodsSchedule.DurationAppliedCanonical | src/lib/periods.ts:96-118 | it is the only positive coalesced list with those month-by-month flows |
| PeriodsSchedule.ApplyDuration | src/lib/periods.ts:96-118 | the clamp loop, the pad loop and the merge together give that unique fitted, coalesced list |
| PeriodsSchedule.MonthlySequence | src/lib/periods.ts:246-261 | the array holds the periods' flows month by month, cut at the duration, padded with the last flow, or all zeros for no periods |
| PeriodsSchedule.WriteRun | src/lib/periods.ts:250-252 | the inner loop writes `flow` into `min(months, room)` cells from `index` and leaves the others unchanged |
| PeriodsStreams.RunsMeaning | src/lib/periods.ts:170-190 | the runs of a flow sequence are positive, coalesced, expand back to it and total its length |
| PeriodsStreams.RunsCanonical | src/lib/periods.ts:170-190 | they are the only positive coalesced periods that expand to the sequence |
| PeriodsStreams.FillStream | src/lib/periods.ts:161-167 | one stream's flows are added month by month to the array, stopping at its end |
| PeriodsStreams.AddRun | src/lib/periods.ts:164-166 | the inner loop adds `flow` to `min(months, room)` cells from `index` and leaves the others unchanged |
| PeriodsStreams.CutRuns | src/lib/periods.ts:170-190 | the run-cutting loop yields positive, coalesced periods that expand to exactly the monthly flows |
| PeriodsStreams.MergeStreams | src/lib/periods.ts:159-191 | the result is the runs of the streams' month-by-month sum over the duration, coalesced and totalling the duration |
| PeriodsStreams.DiffMonthsSafe | src/lib/periods.ts:149-157 | equals the formatting `diffMonths`; NaN when either side lacks a month part (the catch is never reached) |
| PeriodsStreams.WaitWhenLater | src/lib/periods.ts:138-143 | a zero-flow wait is pushed exactly when the offset is positive, and the withdrawal fills the rest of the duration |
| PeriodsStreams.SimpleStreamsSum | src/lib/periods.ts:129-146 | summing the invest and withdraw streams gives, for month `j`, the positive contribution less the withdrawal once month `j` has reached the start |
| PeriodsStreams.PushWithdrawals | src/lib/periods.ts:137-143 | the pushes give no period unless the offset is below the duration, then an optional wait and the withdrawal run |
| PeriodsStreams.GenerateSimplePeriods | src/lib/periods.ts:121-147 | the simple mode's periods are the runs of those monthly flows, coalesced and totalling the duration |
| PeriodsNormalize.DurationMonthsOf | src/lib/periods.ts:221 | `max(0, trunc(years * 12))`: 0 for a non-positive duration, otherwise the whole months within it |
| PeriodsNormalize.SourcePositive | src/lib/periods.ts:228-240 | the periods each mode produces last at least a month each |
| PeriodsNormalize.NoSourceNormalized | src/lib/periods.ts:221-243 | a mode without its options (or with no blocks) leaves one zero-flow period spanning the whole positive duration |
| PeriodsNormalize.NormalizePeriods | src/lib/periods.ts:208-244 | whatever the mode, the schedule has `durationMonths` whole months and coalesced positive periods totalling it, expanding to the mode's flows fitted to the duration; empty iff the duration is 0 |
| PeriodsNormalize.SimpleNormalized | src/lib/periods.ts:228-242 | in simple mode applying the duration changes nothing; the schedule's month `j` is the simple flow of month `j` |
| PeriodsNormalize.SingleBlockNormalized | src/lib/periods.ts:236-242 | one block lasting at least the duration gives, in month `i`, month `i` of its pattern replayed cyclically |
| CalcEngine.DiffMonthsOfParts | src/lib/calcEngine.ts:20-35 | year-months whose four parts parse are `(toYear - fromYear) * 12 + (toMonth - fromMonth)` apart |
| CalcEngine.DashedParts | src/lib/calcEngine.ts:24-25 | `YYYY-MM` digit strings split at the dash and `parseInt` to their two decimal values |
| CalcEngine.DiffMonthsMissingMonth | src/lib/calcEngine.ts:24-34 | a year with no month part gives NaN: `undefined` passes the NaN test |
| CalcEngine.DiffMonths | src/lib/calcEngine.ts:20-35 | an empty argument gives 0, and so does a part `parseInt` cannot read; the result is NaN exactly when both arguments are non-empty, every present part reads, and one side has no `-` |
| CalcEngine.DiffMonthsAntisymmetric | src/lib/calcEngine.ts:20-35 | swapping the arguments negates the result, for all strings (0 and NaN included) |
| CalcEngine.PartsDiff | src/lib/calcEngine.ts:26-34 | the result is never infinite: 0 when a part is not a number, NaN when one is missing |
| CalcEngine.SafeAmount | src/lib/calcEngine.ts:47 | `max(0, floor(amount))` is 0 exactly for amounts below one yen, otherwise the whole yen of the amount |
| CalcEngine.Allocate | src/lib/calcEngine.ts:41-61 | the whole-yen deposit is added in full; the NISA part is `min(amount, room under the cap)` and the cap is never exceeded; the taxable account gains only once the cap is used up |
| CalcEngine.GrowBounds | src/lib/calcEngine.ts:82-91 | above -100 %, balances stay non-negative; they never shrink at a non-negative rate and never grow at a non-positive one |
| CalcEngine.TaxWithinGain | src/lib/calcEngine.ts:86-88 | the tax on a non-negative gain is between 0 and the gain |
| CalcEngine.Grow | src/lib/calcEngine.ts:82-91 | growth leaves the cap usage alone and changes nothing at a zero rate |
| CalcEngine.Withdraw | src/lib/calcEngine.ts:107-116 | the taxable account pays first and the NISA account only once the taxable one is empty; the amount paid is `min(amount, both balances)`, and neither balance goes negative |
| CalcEngine.WithdrawStartDiff | src/lib/calcEngine.ts:77-79 | Infinity without a non-empty start, otherwise `max(0, diff)`, which is never negative |
| CalcEngine.WithdrawAmount | src/lib/calcEngine.ts:102-105 | an amount is asked for only once the start is reached and only if a withdrawal is given; it is then the whole yen of it |
| CalcEngine.WithdrawalMonths | src/lib/calcEngine.ts:77-105 | month `i` asks for a withdrawal iff there is a non-empty start, `i >= max(0, diff)` and the amount has at least one whole yen |
| CalcEngine.NoWithdrawalWithoutStart | src/lib/calcEngine.ts:77-116 | with no withdrawal start a month is growth plus deposit only, at every rate |
| CalcEngine.IterateKeeps | src/lib/calcEngine.ts:81-117 | a property every month keeps holds after any number of months |
| CalcEngine.IterateCounts | src/lib/calcEngine.ts:81-117 | a quantity every month raises by `k` has risen by `n * k` after `n` months |
| CalcEngine.IterateSame | src/lib/calcEngine.ts:81-117 | two month steps that agree on every state and month give the same balances after any number of months |
| CalcEngine.BalancesBounded | src/lib/calcEngine.ts:63-117 | cap usage stays between 0 and the cap throughout; above -100 % no balance goes negative |
| CalcEngine.MonthBounded | src/lib/calcEngine.ts:82-116 | one month (growth, deposit, withdrawal) keeps those bounds |
| CalcEngine.ZeroRateBalances | src/lib/calcEngine.ts:63-117 | at 0 % with no withdrawal start, the total is the whole-yen lump plus `n` whole-yen deposits |
| CalcEngine.ZeroRateMonth | src/lib/calcEngine.ts:82-116 | at 0 % before withdrawals, a month adds exactly the whole-yen deposit |
| CalcEngine.CalcFinalTotal | src/lib/calcEngine.ts:63-120 | the loop computes the 480-month total of the simulation; it is non-negative for a monthly rate above -100 % |
| CalcEngine.FinalTotalIgnoresRates | src/lib/calcEngine.ts:63-120 | the total does not read the scenario's `ratesPercent`: replacing that list leaves it unchanged |
| Format.YenFloor | src/lib/format.ts:5-7 | the result is the whole yen not above the value, within one yen of it |
| Format.RateTokens | src/lib/format.ts:16-19 | the tokens are non-empty and hold no separator (white space, `,` or `、`) |
| Format.RateTokensSkipSeparator | src/lib/format.ts:16-19 | a leading separator changes no token: runs of separators cut like one and blank tokens are dropped |
| Format.RateTokensJoined | src/lib/format.ts:16-19 | non-empty separator-free texts joined by any one separator are read back as the same tokens, in order |
| Format.TokenRates | src/lib/format.ts:20-27 | one value per token, in order, each the token's number scaled as `normalizeRates` scales it |
| Format.RateValue | src/lib/format.ts:20-27 | a finite value of 1 or more is divided by 100, a smaller one is kept; anything not finite becomes NaN |
| Format.NormalizeRates | src/lib/format.ts:15-29 | at most one rate per token, each finite |
| Format.NormalizeRatesJoined | src/lib/format.ts:15-29 | integer rates printed and joined by a separator read back as those rates, in order, each of 1 or more divided by 100 and the others kept |
| Format.RateTextsSeparatorFree | src/lib/format.ts:16-19 | a printed integer is a non-empty token with no rate separator in it |
| Format.DropNaN | src/lib/format.ts:28 | what is kept is not NaN and comes from the list, and every value that is not NaN is kept |
| Format.DropNaNFinite | src/lib/format.ts:28 | on these values, dropping NaN and keeping the finite ones give the same list |
| Format.DropNaNConcat | src/lib/format.ts:28 | the filter keeps order: it distributes over concatenation |
| Format.ParseRatesText | src/lib/format.ts:48-56 | its rates equal `normalizeRates` of the same text, and its raw tokens are the same non-blank, separator-free tokens `normalizeRates` reads |
| Format.DiffMonthsInteger | src/lib/format.ts:32-36 | integer parts give `(eYear - sYear) * 12 + (eMonth - sMonth)` |
| Format.DiffMonthsMissingPart | src/lib/format.ts:32-36 | a side with no `-` makes the result NaN |
| Format.DiffMonthsIndex | src/lib/format.ts:32-36 | with finite parts the difference is the difference of the month counts `year * 12 + month - 1` |
| Format.DiffMonthsSelf | src/lib/format.ts:32-36 | a year-month is 0 months from itself |
| Format.DiffMonthsAntisymmetric | src/lib/format.ts:32-36 | swapping the arguments negates the result, for every pair of strings |
| Format.YearAndMonth | src/lib/format.ts:41-42 | from year 0 on, the pair is a calendar month that names the count back; before it, JavaScript's `%` gives a month below 1 unless the count is a whole number of years |
| Format.MonthCount | src/lib/format.ts:39-40 | NaN month gives NaN; finite parts give `year * 12 + (month - 1) + months` |
| Format.AddMonths | src/lib/format.ts:38-46 | a year-month with no month part renders `0NaN-NaN` |
| Format.AddMonthsRendered | src/lib/format.ts:38-46 | integer parts render the zero-padded year and month of the count `y * 12 + m - 1 + months` |
| Format.YmTextParts | src/lib/format.ts:43-45 | a rendered year-month from year 0 on reads back as its year and month |
| Format.AddMonthsDiffMonths | src/lib/format.ts:32-46 | adding `months` and measuring the distance back gives `months`, for dates from year 0 on |
| BlocksEditor.UpdateAt | src/components/BlocksEditor.tsx:11-14 | only the element at `index` is replaced (by `f` of it); any other index changes nothing |
| BlocksEditor.RemoveAt | src/components/BlocksEditor.tsx:46-48 | the element at `index` is dropped and the rest keep their order; any other index changes nothing |
| BlocksEditor.SetField | src/components/BlocksEditor.tsx:24 | the chosen field takes the value and the other field is kept |
| BlocksEditor.UpdatePattern | src/components/BlocksEditor.tsx:16-28 | one field of one period of one block changes; every other block, period, name and repeat count is kept |
| BlocksEditor.AddBlock | src/components/BlocksEditor.tsx:30-44 | the blocks are kept, followed by an unnamed one-year block of one twelve-month zero-flow period |
| BlocksEditor.AddPattern | src/components/BlocksEditor.tsx:59-64 | only the chosen block changes, gaining a one-month zero-flow period at its end |
| BlocksEditor.RemovePattern | src/components/BlocksEditor.tsx:66-71 | only the chosen block changes, losing the period at `patternIndex` |
| BlocksEditor.MovedPermutation | src/components/BlocksEditor.tsx:53-55 | the two splices keep the same blocks, each as often |
| BlocksEditor.MovedIndex | src/components/BlocksEditor.tsx:53-55 | the moved block lands at the target; the blocks between shift one place toward the source; the rest stay |
| BlocksEditor.MovedBack | src/components/BlocksEditor.tsx:50-57 | moving back from the target to the source restores the list |
| BlocksEditor.MovedAdjacent | src/components/BlocksEditor.tsx:91-105 | the ↑ and ↓ buttons (offset ±1) swap two neighbours |
| BlocksEditor.MoveBlock | src/components/BlocksEditor.tsx:50-57 | a target outside the list changes nothing; otherwise the result is the list with the block moved to the target |
| BlocksEditor.MoveWithin | src/components/BlocksEditor.tsx:53-55 | shifting the copy in place and storing the removed block gives the moved list |
| BlocksEditor.AtLeastOneInput | src/components/BlocksEditor.tsx:135-154 | the repeat and months inputs are at least 1: the entered number when it is at least 1, else 1 (empty, 0, NaN, below 1) |
| BlocksEditor.FlowInput | src/components/BlocksEditor.tsx:169 | the flow input is the entered number truncated toward zero, 0 when it is not a number |
| BlocksEditor.AddBlockKeepsReplayable | src/components/BlocksEditor.tsx:30-44 | adding a block keeps every block flattenable |
| BlocksEditor.AddPatternKeepsReplayable | src/components/BlocksEditor.tsx:59-64 | adding a period keeps every block flattenable |
| BlocksEditor.UpdatePatternKeepsReplayable | src/components/BlocksEditor.tsx:149-170 | a clamped months value (at least 1) or any flow keeps every block flattenable |
| BlocksEditor.RemoveBlockKeepsReplayable | src/components/BlocksEditor.tsx:46-48 | removing a block keeps the rest flattenable |
| BlocksEditor.MoveKeepsReplayable | src/components/BlocksEditor.tsx:50-57 | moving a block keeps every block flattenable |
| BlocksEditor.RemoveLastPeriod | src/components/BlocksEditor.tsx:66-71 | removing a repeated block's only period would leave a block that cannot be flattened; only the disabled button prevents it |
| BlocksEditor.AddBlockRemoveAt | src/components/BlocksEditor.tsx:30-48 | removing the block just added gives the blocks back |
| BlocksEditor.AddPatternRemovePattern | src/components/BlocksEditor.tsx:59-71 | removing the period just added gives the blocks back |
| App.ParseRatesInput | src/App.tsx:21-28 | at most one value per comma-separated item, none of them NaN |
| App.ParseRatesJoined | src/App.tsx:21-28 | integer rates joined by commas read back as the same rates, in order |
| App.FirstOutOfRange | src/App.tsx:63-64 | the `find` result is None iff no rate is out of range; otherwise the first out-of-range position |
| App.ValidateScenario | src/App.tsx:52-70 | null iff the amounts are non-negative, the withdrawal is absent or non-negative, and the rate list is non-empty and within range; each error names the first failing check in source order |
| App.RateBoundsInclusive | src/App.tsx:40-63 | 0 % and 50 % are accepted, and rates just outside either bound are refused |
| App.ValidatedRates | src/App.tsx:81-88 | rates that pass validation are a non-empty list of finite values from 0 to 50 |
| App.RunCalculation | src/App.tsx:72-79 | one result per rate, in order, each with its own rate and that rate's final total |
| App.RunCalculationNonNegative | src/App.tsx:72-79 | non-negative rates with monthly rates above -100 % give non-negative totals |
| App.RunCalculationIgnoresRates | src/App.tsx:72-97 | the results do not depend on the rate list stored in the scenario, so running on `updatedScenario` equals running on the screen's scenario |
| App.HandleCalculate | src/App.tsx:81-99 | an error iff validation fails (with that error); otherwise one result per parsed rate, each between 0 and 50 |
| App.HandleCalculateRows | src/App.tsx:81-99 | once validation passes, every parsed rate is finite and the results are exactly `runCalculation` of the scenario over the parsed rates: each row's rate and the final total at that rate |
| JsNumbers.NumberOfIntToString | src/lib/periods.ts:34-45 | the decimal text of an integer reads back with `Number` as that integer |
| JsNumbers.Trunc | src/lib/periods.ts:53 | `Math.trunc` rounds toward zero |
| JsNumbers.Max0 | src/lib/periods.ts:137 | `Math.max(0, x)` keeps NaN and is otherwise non-negative |
| JsNumbers.ParseIntOfDigits | src/lib/calcEngine.ts:24-25 | `parseInt(s, 10)` reads a digit string as its decimal value |
| JsStrings.SplitJoin | src/lib/periods.ts:73 | splitting a join at a set of separators that holds the joining character gives the parts back when no part holds any of them |
| JsStrings.JoinSplit | src/lib/periods.ts:73 | joining the pieces of a split with the separator gives the string back |

## Left out

- The UI is not part of this model: React state, rendering, events, `formatYen` /
  `toLocaleString`, the year table and the charts. Each editor operation and `handleCalculate`
  takes its inputs as parameters and returns what is passed on.
- Floating point is not modelled. Numbers are exact reals, or integers where a line below says
  so, and the rounding of IEEE doubles is absent.
  - `calculateMonthlyRate` (`Math.pow(1 + r, 1/12) - 1`) is not modelled.
  - `CalcEngine.CalcFinalTotal` and `App.RunCalculation` take the monthly rate, or the function
    that yields it, as a parameter.
- Balances are whole integers, so the `Math.floor` around already-integral sums in
  `allocateToAccounts` and the withdrawal is the identity. Scenario amounts that are NaN or
  infinite are not modelled: `Scenario` holds reals.
- JsNumbers.Number: only decimal literals, `Infinity`, signs, white space and the empty string
  are read. Exponent, hexadecimal, octal and binary forms read as NaN here, not as their value.
- JsStrings.IntToString: numbers at or above 1e21, which JavaScript prints in exponent form,
  are not modelled. Printing is of integers only.
- PeriodsDsl.Lines: the text is split at `\n`. A `\r` before it is white space that the trim
  removes, which gives the same lines as `/\r?\n/`. A lone `\r` is not treated as a break.
- PeriodsDsl.Message: the `MissingFlow` text is the message V8 gives for reading `replace` of
  `undefined`. Other engines word it differently.
- PeriodsDslPrint.ParsePrinted is proved for printable blocks only. These are well formed,
  with a name that is absent, empty, or trimmed and free of `:` and line breaks. Other names
  are printed in ways the parser reads differently.
- PeriodsBlocks.FlattenBlocks requires every block to be replayable: a block with years to fill
  has a non-empty pattern of periods of one month or more. The source loops forever only when a
  whole pass over the pattern fails to lower `remaining`: an empty pattern, every period at zero
  or fewer months, or periods whose months sum to zero or less. So `Replayable` also excludes
  some blocks the source does flatten, such as a pattern that mixes a positive and a zero-month
  period. No caller builds such blocks: the DSL reader refuses months below 1
  (src/lib/periods.ts:47), the editor clamps months to at least 1
  (src/components/BlocksEditor.tsx:154) and disables removing a block's last period.
- Format.AddMonths takes `months` as an integer, where `addMonths` takes any number. A month
  count that is not whole, which a fractional year or month part of `ym` also gives, yields
  None in the model, where the source renders some text from the fractional year and month.
- PeriodsSchedule.ApplyDuration requires positive periods. That is what every caller passes.
- PeriodsSchedule.MergeConsecutive returns a new list. `mergeConsecutive` pushes `periods[0]`
  itself (line 195) and lengthens it in place (line 200), and `applyDuration` pushes the
  caller's period objects. So the source can alter a caller's first period object; the model
  does not capture that aliasing.
- PeriodsStreams.LoopCount gives the iteration count of a `for` loop bounded by a fractional
  month count, rounded up. Fractional months from `diffMonthsSafe` only arise from fractional
  year-month parts.
- PeriodsStreams.SimpleArgs holds `monthlyInvest` and `monthlyWithdraw` as whole yen, because a
  `Period` flow is an integer. `generateSimplePeriods` takes any number and pushes it as a flow
  without truncating, so a fractional or non-finite simple-mode amount is not modelled. Flows
  from the DSL and the block editor are truncated by the source and are whole in both.
- PeriodsNormalize.Options holds `durationYears` as a real, and the product `years * 12` is
  exact.
- BlocksEditor.MoveBlock requires `index` to be a position of the list. The buttons only call
  it that way.
- BlocksEditor.AtLeastOneInput and BlocksEditor.FlowInput return the `JsNum` the input
  produces. The blocks hold integers, so a fractional months or repeat value from the input is
  not carried into a block.
- PeriodsDsl.CollectLines is written over any line reader `parse`. `ParseDslToBlocks` passes
  `ParseLine`.

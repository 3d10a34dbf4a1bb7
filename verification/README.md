# Pramana: a verified model of its evidence, money and supervision logic

Pramana watches a broker account, prices every AI call against a daily dollar cap, compares a paper
account with an index, keeps point-in-time company evidence, and supervises a trading daemon. This
project models the stateful and arithmetic core of that system in Dafny and proves what the state means.

The recurring theorem is a refinement: code that remembers (maps, counters, cursors, windows, cached
verdicts) agrees with a plain definition over the whole history, and the guarantees of a whole history
are then proved about the definition. Loops and mutable objects of the source are methods, loops and
classes here; their contracts equate them with those definitions.

| modules | what they model |
|---|---|
| `Prelude`, `CanonicalJson`, `JsonReader` | JavaScript text as UTF-16 code units; canonical JSON, and a reader of JSON written from RFC 8259 alone that reads it back |
| `BrokerRecords`, `BrokerCalendar`, `CaptureTexts`, `BrokerCapture`, `BrokerReconciliation` | broker rows, their validation, their dates and texts, and the reconciliation of orders with executions inside one capture |
| `LifecycleHistory`, `LifecycleMemory`, `LifecycleReports`, `BrokerLifecycle`, `LifecycleFindings`, `LifecycleChanges`, `LifecycleTheorems` | the day-scoped observation state machine against a scan of the whole history |
| `BrokerJournal`, `JournalTheorems` | the hash-chained journal replayed through that machine |
| `SpendLedger`, `SpendStore`, `SpendTheorems`, `PriceTheorems`, `ChatRequest` | the shared AI dollar ledger and its two-attempt client |
| `AccountBenchmark`, `PaperAccount`, `AccountTheorems`, `AccountReport`, `ReportTheorems`, `ContributionTheorems` | the acceptance of a recorded paper account, the cursor replay of its fills into daily values, and its profit at average cost |
| `BenchmarkComparison`, `BenchmarkAttribution` | returns, drawdown, risk statistics, and the Brinson-Fachler attribution check |
| `CompanyEvents`, `EvidenceTheorems`, `CompanyMappings` | what was known at a cutoff instant, and the mapping writer with optimistic concurrency |
| `Freshness`, `AgeingTheorems` | the ageing of cached claims against the clock |
| `CadenceDaemon`, `DaemonTheorems` | the cadence supervisor: fault policy, reconnect backoff, and the drain of the proof window |

Conventions. SHA-256 is an arbitrary function parameter, and theorems about hashes hand over two
colliding texts instead of assuming that there are none. Instants are integers (milliseconds, or
microseconds where the source keeps them). Dollars are integer micro-dollars, broker prices integer
units of 1e-8, returns and account money exact reals. Each database transaction is one atomic step, so
an interleaving of processes is a sequence of steps.

Where a promise of the source turned out to hold only under a condition, the condition is proved to be
exact and a concrete input shows the failure:

- The daily dollar total can pass the limit in two ways (`LoweredCapPassesLimit`, `OverrunPassesLimit`);
  `WithinLimitExact` says when a step keeps it.
- A stamp ahead of the clock lets a refused verdict come back, unless it was aged in between
  (`EarlyTickReturns`); `CompositionExact` says when.
- An expired page withdraws its marks but can keep its all-marks-fresh flag (`ExpiredPageKeepsFlag`);
  `AllMarksFlagExact` says when the flag is true of what is shown.
- A proof capture that fails half way has its lines written twice (`FailedCaptureRepeats`); `NoRepeatsExact`
  says when the log repeats nothing.
- A tick whose failure cannot be recorded (log line, audit row, notification) ends the cadence loop before the halt is
  latched, even at the threshold
  (`UnrecordedFailureSkipsHalt`); `HaltExact` says when the switch is engaged.

## Model

| member | source | states |
|---|---|---|
| JsonReader.CanonicalExact | apps/pramana-ui/lib/broker-capture.ts:16-20 | canonical text is the same for two values exactly when they are equal up to the order of object keys |
| JsonReader.LiteralReadable | apps/pramana-ui/lib/broker-capture.ts:16-20 | an escaped string literal can be read back in only one way, whatever follows it, lone surrogates included |
| JsonReader.CanonicalRead | apps/pramana-ui/lib/broker-capture.ts:16-20 | the grammar of RFC 8259 reads canonical text as the value itself, every object's members in the order of the first code unit in which their keys differ |
| JsonReader.ShortestLiteral | apps/pramana-ui/lib/broker-capture.ts:18-19 | no literal without unpaired surrogates that reads as the same string is shorter: nothing is escaped needlessly or at length |
| JsonReader.EscapePaired | apps/pramana-ui/lib/broker-capture.ts:18-19 | and the canonical literal itself has no unpaired surrogate, whatever the string |
| CanonicalJson.BeforeExact | apps/pramana-ui/lib/broker-capture.ts:18 | one key sorts before another exactly when it ends, or has the smaller code unit, where they first differ |
| BrokerRecords.CheckRows | apps/pramana-ui/lib/broker-capture.ts:22-40 | a collection is accepted exactly when it is within its bound, every row passes its field checks, and no identity repeats |
| BrokerRecords.StableReads | apps/pramana-ui/lib/broker-capture.ts:73 | the two reads in a capture have equal canonical text exactly when their rows are equal field for field |
| BrokerRecords.UnsignedExact | apps/pramana-ui/lib/broker-capture.ts:85-86 | the text a capture's hash covers determines every other field of the capture |
| CaptureTexts.OrderText | apps/pramana-ui/lib/broker-capture.ts:3 | read as JSON, the text of an order has its fifteen fields, each under its own name, and no other |
| CaptureTexts.TradeText | apps/pramana-ui/lib/broker-capture.ts:4 | and that of an execution its eleven |
| CaptureTexts.PriceText | apps/pramana-ui/lib/broker-capture.ts:43 | the value of a price is the number its text writes without the point |
| CaptureTexts.CaptureText | apps/pramana-ui/lib/broker-capture.ts:85-86 | what a capture's hash covers reads as its eleven members under their names, the four row lists row by row |
| CaptureTexts.EntryReads | apps/pramana-ui/lib/broker-journal.ts:30 | what an entry's hash covers reads as journal, sequence, previous hash and capture hash |
| BrokerCalendar.TomorrowIsNext | apps/pramana-ui/lib/broker-capture.ts:14 | dates are numbered one by one from 1970-01-01: the next real date, month ends and leap years included, has the next number |
| BrokerCalendar.InstantExact | apps/pramana-ui/lib/broker-capture.ts:14 | a valid time counts its date's days and its clock's hours, minutes, seconds and milliseconds |
| BrokerCalendar.BrokerDayExact | apps/pramana-ui/lib/broker-capture.ts:15 | a time belongs to the broker day of its date before 18:30 UTC and to the next from then on |
| BrokerCapture.InspectCapture | apps/pramana-ui/lib/broker-capture.ts:44-75 | maps, counters and the capped list of findings report what a row-by-row definition raises, in the same order |
| BrokerReconciliation.ZeroFindingsExact | apps/pramana-ui/lib/broker-capture.ts:44-75 | no finding is counted exactly when every execution and every order is reconciled |
| BrokerReconciliation.InspectionFindingExact | apps/pramana-ui/lib/broker-capture.ts:49-72 | each code is raised for an order id exactly when an execution or order of that id has the fault it names |
| BrokerReconciliation.InspectionStatusExact | apps/pramana-ui/lib/broker-capture.ts:73-74 | changing when the reads differ; otherwise issues when something is unreconciled, empty when there are neither orders nor executions, else consistent |
| BrokerReconciliation.OpenOrdersExact | apps/pramana-ui/lib/broker-capture.ts:74 | the open count is the number of rows not complete, cancelled or rejected |
| BrokerReconciliation.QuantityConserved | apps/pramana-ui/lib/broker-capture.ts:49-63 | without findings each execution belongs to exactly one order, each order's filled quantity is the sum of its executions, and the totals agree |
| BrokerReconciliation.AverageWithinRange | apps/pramana-ui/lib/broker-capture.ts:64-70 | without findings a complete order's average is within 0.01 of its execution-weighted price and so of the range of its execution prices |
| LifecycleMemory.SeenOrdersExact | apps/pramana-ui/lib/broker-lifecycle.ts:34-51 | an order is remembered exactly when some capture of the day showed it |
| BrokerLifecycle.BrokerLifecycle.Inspect | apps/pramana-ui/lib/broker-lifecycle.ts:19-63 | the six remembered maps and sets report exactly what a scan of every capture so far reports: findings, changes, boundary, leftovers and gap; its status means what StatusExact says |
| BrokerLifecycle.BrokerLifecycle.OpenDay | apps/pramana-ui/lib/broker-lifecycle.ts:24-30 | at a day boundary the open orders of the old day are counted and all its memory is forgotten; otherwise nothing changes |
| BrokerLifecycle.BrokerLifecycle.Observe | apps/pramana-ui/lib/broker-lifecycle.ts:32-59 | a stable capture is compared with, then added to, the memory of its day |
| LifecycleReports.StatusExact | apps/pramana-ui/lib/broker-lifecycle.ts:61 | unverified for a changing capture, issues when one not changing has findings, otherwise compared or baseline by whether the unbroken day so far has a stable capture |
| LifecycleReports.KeptExact | apps/pramana-ui/lib/broker-lifecycle.ts:20-23 | all findings and changes are counted, and the first hundred and the first 250 kept |
| LifecycleReports.GapsFillTheRun | apps/pramana-ui/lib/broker-lifecycle.ts:61-62 | the gaps reported over a run and the durations of its captures add up to the time from first start to last end |
| LifecycleFindings.RecallExact | apps/pramana-ui/lib/broker-lifecycle.ts:37-50 | what is recalled of an order is its first identity, its first terminal sighting and its first exchange id |
| LifecycleFindings.LargestExact | apps/pramana-ui/lib/broker-lifecycle.ts:41-48 | and its largest filled quantity so far |
| LifecycleTheorems.FindingExact | apps/pramana-ui/lib/broker-lifecycle.ts:32-57 | each code is raised for an order exactly when the earlier stable captures of the day contain the contradiction it names |
| LifecycleTheorems.ReportedExact | apps/pramana-ui/lib/broker-lifecycle.ts:24-57 | a report finds exactly the leftover orders of a boundary and, for a stable capture, its contradictions |
| LifecycleChanges.ChangeExact | apps/pramana-ui/lib/broker-lifecycle.ts:44-45 | a field change is reported exactly when an order differs in that field from its latest earlier sighting of the day, with both values |
| LifecycleChanges.FirstObservedExact | apps/pramana-ui/lib/broker-lifecycle.ts:46-56 | an order or execution is reported as first observed exactly when no earlier stable capture of the day shows it |
| LifecycleChanges.UnresolvedExact | apps/pramana-ui/lib/broker-lifecycle.ts:27-28 | the boundary count is the number of orders whose last sighting on the old day was not terminal |
| LifecycleTheorems.SilentDayExact | apps/pramana-ui/lib/broker-lifecycle.ts:32-57 | a day raises nothing exactly when each stable capture follows every earlier one: sets only grow, fills never fall, identities, executions and exchange ids never change, ended orders stay ended |
| LifecycleTheorems.QuietReportsExact | apps/pramana-ui/lib/broker-lifecycle.ts:19-63 | over a whole run, the reports of the latest day count nothing but the boundary finding exactly when each of its stable captures follows every earlier one |
| LifecycleTheorems.ChangingLeavesNoTrace | apps/pramana-ui/lib/broker-lifecycle.ts:31-59 | a capture that changed while it was read, taken on a day already begun, leaves every later report of the run as if it had not been taken, the gap to it excepted |
| JournalTheorems.ChangingNeverMatters | apps/pramana-ui/lib/broker-lifecycle.ts:24-59 | in an ordered run a changing capture, even one that opens its day, leaves the changes and the contradictions of every later capture as they were |
| BrokerJournal.CheckRow | apps/pramana-ui/lib/broker-journal.ts:29-34 | a row passes exactly when it links to the row before it and carries an accepted, non-overlapping, not future capture |
| BrokerJournal.EntryExact | apps/pramana-ui/lib/broker-journal.ts:30 | the text an entry hash covers determines journal, sequence, previous hash and capture hash |
| BrokerJournal.ReplayJournal | apps/pramana-ui/lib/broker-journal.ts:23-48 | the replay accepts exactly the accepted journals; the selected view is the view of the rows up to the selected one, though the replay goes on; the history is that of the last hundred rows |
| BrokerJournal.ReadJournal | apps/pramana-ui/lib/broker-journal.ts:18-48 | a stored journal is shown exactly when its one metadata row is this account's, its rows are within their bounds, and the replay accepts them |
| JournalTheorems.HeadFixesCaptures | apps/pramana-ui/lib/broker-journal.ts:26-35 | two accepted journals with the same head hash are the same journal of the same account with the same captures in the same order, or two colliding texts are exhibited |
| JournalTheorems.AcceptedIsOrdered | apps/pramana-ui/lib/broker-journal.ts:33-36 | the captures of an accepted journal are ordered, do not overlap, and each lies in one broker day |
| JournalTheorems.PastIsWholeDay | apps/pramana-ui/lib/broker-lifecycle.ts:24-30 | in such a journal a capture is compared with all stable captures of its day: a cleared day never comes back |
| JournalTheorems.BoundaryMeansNewDay | apps/pramana-ui/lib/broker-lifecycle.ts:24 | a boundary is reset exactly at a day never seen before |
| JournalTheorems.ResetsCountDays | apps/pramana-ui/lib/broker-lifecycle.ts:24-30 | the resets of an accepted journal are as many as its distinct days |
| JournalTheorems.DaysContiguous | apps/pramana-ui/lib/broker-journal.ts:33-36 | the captures of one day form one contiguous block |
| JournalTheorems.OrderedStatusExact | apps/pramana-ui/lib/broker-lifecycle.ts:61 | in an ordered run a quiet stable capture is compared exactly when any earlier stable capture of the run lies in its broker day, and the baseline otherwise |
| JournalTheorems.HistoryExact | apps/pramana-ui/lib/broker-journal.ts:37-38 | the history shown is the last hundred rows in order, each with its own capture, statuses and findings, and the cumulative count grows from entry to entry by exactly those |
| JournalTheorems.SelectedExact | apps/pramana-ui/lib/broker-journal.ts:39-44 | the selected row is shown with its own inspection, report and count, and is stale when it finished over two minutes before the reading |
| SpendLedger.PriceCoversUsage | apps/pramana-ui/lib/ai-spend.ts:27-30 | a bill within the estimated input and cache tokens and the allowed output tokens never exceeds the reservation |
| PriceTheorems.SettlementCosts | apps/pramana-ui/lib/ai-spend.ts:70-76 | a settlement adds to its day the fewest millionths that pay its four kinds of token at their prices, and takes its reservation back |
| PriceTheorems.TenMoreTokens | apps/pramana-ui/lib/ai-spend.ts:70-71 | ten more tokens of a kind cost exactly that kind's price more |
| PriceTheorems.EstimateIsDearest | apps/pramana-ui/lib/ai-spend.ts:27-30 | the reservation is the largest cost any usage within the payload can have, and some usage has it |
| SpendLedger.CapReadingsAgree | apps/pramana-ui/lib/ai-spend.ts:39-42 | the digit-by-digit and the rounding reading of the configured cap give the same micro-dollars or both refuse |
| SpendStore.SpendStore.Reserve | apps/pramana-ui/lib/ai-spend.ts:33-61 | one transaction: a refusal for lack of budget still commits the day row and the lowered limit, an error commits nothing, an admission adds the reservation and its row |
| SpendStore.SpendStore.Settle | apps/pramana-ui/lib/ai-spend.ts:63-79 | unreadable usage, an unknown id and a settled id change nothing; otherwise the reservation becomes a cost |
| SpendStore.SpendStore.Status | apps/pramana-ui/lib/ai-spend.ts:81-103 | the status reads one day and changes nothing: its limit, spent, reserved and remaining amounts, and whether that is a hold, budget or exhaustion |
| SpendTheorems.CountersAreSums | apps/pramana-ui/lib/ai-spend.ts:46-77 | each day's reserved counter is the sum of its open reservations, its spent counter the sum of its settled costs, ids are distinct, and no request belongs to a day up to activation |
| SpendTheorems.AdmittedExactlyWithinRemaining | apps/pramana-ui/lib/ai-spend.ts:51-56 | a priced request with a fresh id is admitted exactly when it fits in what the status reports as remaining, with the day's row, without it, or without a database |
| SpendTheorems.StatusExact | apps/pramana-ui/lib/ai-spend.ts:81-103 | off, unavailable, on hold, with budget and exhausted each exactly when they should be: budget is shown exactly when some amount would still be admitted; spent and reserved are the sums over the day's requests |
| SpendTheorems.NoSecondSettlement | apps/pramana-ui/lib/ai-spend.ts:73-76 | once settled, a request keeps its cost through every later event |
| SpendTheorems.LimitIsSmallestCap | apps/pramana-ui/lib/ai-spend.ts:51-52 | the stored limit of a day is the smallest cap presented for it |
| SpendTheorems.AdmissionWithinEveryCap | apps/pramana-ui/lib/ai-spend.ts:52-56 | every admission leaves carried, spent and reserved together within every cap presented that day so far |
| SpendTheorems.WithinLimitExact | apps/pramana-ui/lib/ai-spend.ts:52-76 | a step keeps the day within its limit exactly when a refusal does not lower the limit below the total and a settlement fits its reservation plus what is left |
| SpendTheorems.RunWithinLimit | apps/pramana-ui/lib/ai-spend.ts:52-76 | a run stays within the limit throughout exactly when each of its steps meets that guard in the ledger it finds |
| SpendTheorems.OneCapKeepsLimit | apps/pramana-ui/lib/ai-spend.ts:22-77 | with one cap presented all day and every settled usage within the payload its id was reserved for, no run takes the day past its limit |
| SpendTheorems.SettlementNeverRaises | apps/pramana-ui/lib/ai-spend.ts:70-76 | a settlement within the estimate of its reservation never raises the day's total |
| SpendTheorems.LoweredCapPassesLimit | apps/pramana-ui/lib/ai-spend.ts:52-56 | a concrete run in which a refused call lowers the limit below what is reserved |
| SpendTheorems.OverrunPassesLimit | apps/pramana-ui/lib/ai-spend.ts:70-76 | a concrete run in which a settlement costs more than was reserved and passes the limit |
| ChatRequest.Call | apps/pramana-ui/lib/claude-response.ts:40-64 | an attempt is sent only after its own reservation, and its row ends settled once with its usage or still reserved, whatever other processes do meanwhile |
| ChatRequest.RequestClaude | apps/pramana-ui/lib/claude-response.ts:38-93 | at most two calls, the second only after a retryable first answer and a granted retry; every call sent has its own row priced for exactly its payload |
| ChatRequest.SecondReservation | apps/pramana-ui/lib/claude-response.ts:54-88 | the second call sends the same payload after a failed request; after an empty answer one more user message, with twice the output budget if that ran out, is reserved for exactly the added bytes and tokens, or not at all for a budget over 8192 |
| AccountBenchmark.GroupFees | apps/pramana-ui/lib/account-benchmark.ts:26-27 | the fee map holds for every order the sum of its cash-debit costs |
| AccountBenchmark.Account.Apply | apps/pramana-ui/lib/account-benchmark.ts:53-61 | one fill moves cash and quantities to those of one more fill, or exposes an unsound position |
| AccountBenchmark.PassSession | apps/pramana-ui/lib/account-benchmark.ts:51-61 | the cursor stops at the first later fill, with the fees and count of the session |
| AccountBenchmark.Replay | apps/pramana-ui/lib/account-benchmark.ts:49-70 | the running replay yields for each session the day defined from the fills alone, and fails exactly when a position or a day is unsound |
| PaperAccount.CheckFills | apps/pramana-ui/lib/paper-contribution.ts:65-83 | the acceptance loop passes exactly sound rows of distinct orders in time order whose sales are covered, and its books hold each instrument's quantity, average cost and realised profit |
| PaperAccount.FillClock | apps/pramana-ui/lib/account-benchmark.ts:11-36 | a fill belongs to its date 5:30 ahead of UTC and is in session from 9:15 until before 15:30 |
| PaperAccount.CheckCharges | apps/pramana-ui/lib/paper-contribution.ts:85-94 | every charge is sound, dated as an order of the ledger, and the only one of its code for it |
| PaperAccount.AcceptAccount | apps/pramana-ui/lib/paper-contribution.ts:48-139 | when an account is accepted, refused or unavailable, down to the reconciliation of its cash |
| PaperAccount.AcceptedFills | apps/pramana-ui/lib/paper-contribution.ts:68-83 | the fills of an accepted account are in date order, one order each, and never go short |
| ContributionTheorems.BookBalances | apps/pramana-ui/lib/paper-contribution.ts:75-80 | the average-cost identity: what an instrument's holding cost, less what its sales realised, is what was paid for it less the price of what was sold |
| ContributionTheorems.TradeExact | apps/pramana-ui/lib/paper-contribution.ts:75-80 | a purchase spreads its notional over the whole holding and realises nothing, a sale realises against the average and leaves it |
| ContributionTheorems.ProfitIsEquityChange | apps/pramana-ui/lib/paper-contribution.ts:75-139 | at any marks, realised profit less charges plus unrealised profit is exactly the ledger's cash plus market value less starting capital, up to the rounding of sale notionals |
| ContributionTheorems.RoundingBounded | apps/pramana-ui/lib/paper-contribution.ts:70 | that rounding is at most the sum of the tolerances the sale rows passed |
| ContributionTheorems.LastReconciliationFollows | apps/pramana-ui/lib/paper-contribution.ts:100-139 | once rows, cash, recorded gains and values, and equity have been reconciled, net profit and the change of equity differ by at most the sum of those tolerances |
| AccountReport.ReadAccountBenchmark | apps/pramana-ui/lib/account-benchmark.ts:14-87 | which evidence is unavailable, invalid or shown, the standing of the account first |
| AccountReport.ReadSnapshotBenchmark | apps/pramana-ui/lib/portfolio.ts:29-32 | accepted and replayed in one reading: no report without an accepted account, and every day of a report is the account defined from scratch on the whole ledger |
| ReportTheorems.ReportSpans | apps/pramana-ui/lib/account-benchmark.ts:20-38 | the days are consecutive sessions to the latest completed one: the last 253, or all from the session before the first fill, which shows the starting capital and nothing else |
| ReportTheorems.DaysAddUp | apps/pramana-ui/lib/account-benchmark.ts:51-61 | over a report from its beginning the daily fees add up to those of all fills counted, and the daily counts to that count |
| AccountTheorems.CursorExact | apps/pramana-ui/lib/account-benchmark.ts:53 | at every date the cursor has passed exactly the fills up to it, if and only if the fills are in date order |
| AccountTheorems.AcceptedDayFromScratch | apps/pramana-ui/lib/account-benchmark.ts:51-70 | for an accepted account each day's cash, fees, count, holdings and equity are those of all the ledger's fills up to its date |
| AccountTheorems.WindowIsSuffix | apps/pramana-ui/lib/account-benchmark.ts:38 | the replay of the last 253 sessions is exactly a suffix of the untrimmed replay |
| AccountTheorems.EquityRollsForward | apps/pramana-ui/lib/account-benchmark.ts:51-70 | equity moves by the opening quantities times the price changes, plus the marked value of new fills less their notional, less fees |
| AccountTheorems.AcceptedFeesExpensedOnce | apps/pramana-ui/lib/account-benchmark.ts:26-27 | the replay of an accepted account expenses every recorded cash charge exactly once |
| AccountTheorems.ReplayReconciles | apps/pramana-ui/lib/paper-contribution.ts:100 | once all fills are replayed the replayed cash is the account's recorded balance, within the reconciliation tolerance |
| BenchmarkComparison.Drawdown | apps/pramana-ui/lib/benchmark-comparison.ts:23 | the running peak finds the largest fall from any level to any later one |
| BenchmarkComparison.WorstFallKeeps | apps/pramana-ui/lib/benchmark-comparison.ts:23 | no level is ever below one less the drawdown times an earlier one |
| BenchmarkComparison.MeanBalances | apps/pramana-ui/lib/benchmark-comparison.ts:22 | what lies above the mean and what lies below it cancel |
| BenchmarkComparison.CovarianceExact | apps/pramana-ui/lib/benchmark-comparison.ts:49-50 | 2n(n-1) times a covariance or variance is the sum over all ordered pairs of sessions of the products of their differences |
| BenchmarkComparison.CauchySchwarz | apps/pramana-ui/lib/benchmark-comparison.ts:49-50 | the squared product sum of two series is at most the product of their square sums |
| BenchmarkComparison.CovarianceBounded | apps/pramana-ui/lib/benchmark-comparison.ts:49-50 | the squared sample covariance is at most the product of the variances |
| BenchmarkComparison.ClampInert | apps/pramana-ui/lib/benchmark-comparison.ts:54 | with an exact square root the correlation already lies in [-1, 1], so clamping changes nothing |
| BenchmarkComparison.TrackingVariance | apps/pramana-ui/lib/benchmark-comparison.ts:47-51 | the variance of the active returns is the two variances less twice the covariance |
| BenchmarkComparison.BetaIsLeastSquares | apps/pramana-ui/lib/benchmark-comparison.ts:53 | beta leaves no more variance unexplained than any other slope |
| BenchmarkComparison.ReturnsCompound | apps/pramana-ui/lib/benchmark-comparison.ts:41-47 | the daily returns compound to the reported total return |
| BenchmarkComparison.CompareReturns | apps/pramana-ui/lib/benchmark-comparison.ts:40-45 | the return figures satisfy their compounding, excess and relative-wealth relations and both drawdowns are the deepest falls |
| BenchmarkComparison.CompareRisk | apps/pramana-ui/lib/benchmark-comparison.ts:46-54 | means balance, variances and covariance are those of the pairwise differences; each risk statistic is given exactly when it is defined, and then means tracking variance, least-squares slope and bounded correlation |
| BenchmarkComparison.CompareBenchmark | apps/pramana-ui/lib/benchmark-comparison.ts:26-65 | the last sessions up to the lookback are compared; figures are withheld exactly when one of them lacks a mark or a close, statistics also below twenty intervals; the missing dates are those of exactly the sessions without a value, in order |
| BenchmarkAttribution.ParseBenchmarkAttribution | apps/pramana-ui/lib/benchmark-attribution.ts:40-62 | a document is accepted exactly when its sectors are sound and distinct and every reported number is within tolerance of its definition |
| BenchmarkAttribution.CheckEffects | apps/pramana-ui/lib/benchmark-attribution.ts:52-59 | every reported sector is compared with its own effects while the totals are added up |
| BenchmarkAttribution.EffectsAre | apps/pramana-ui/lib/benchmark-attribution.ts:54 | summed, each effect is its own difference of notional portfolios, the four mixing one side's weights with one side's returns |
| BenchmarkAttribution.NoEffectWithoutDifference | apps/pramana-ui/lib/benchmark-attribution.ts:54 | a sector has no allocation without a weight difference, no selection without a return difference, no interaction without both |
| BenchmarkAttribution.AcceptedEffectsAre | apps/pramana-ui/lib/benchmark-attribution.ts:40-61 | the three published totals of an accepted document are those differences within the tolerance |
| BenchmarkAttribution.EffectsReconcile | apps/pramana-ui/lib/benchmark-attribution.ts:49-62 | the summed effects equal the active return less the benchmark return times the difference of the weight sums |
| BenchmarkAttribution.EffectsExact | apps/pramana-ui/lib/benchmark-attribution.ts:48-62 | with weights summing to one the effects are exactly the active return |
| BenchmarkAttribution.EffectsWithinTolerance | apps/pramana-ui/lib/benchmark-attribution.ts:17-62 | with both weight sums within tolerance the effects are within 2e-12 of the benchmark return of the active return |
| BenchmarkAttribution.ReconciliationExact | apps/pramana-ui/lib/benchmark-attribution.ts:62 | for sound sectors whose weights pass, the check of the recomputed total fails exactly when the weight difference, scaled by the benchmark return, leaves the tolerance |
| BenchmarkAttribution.ReconciliationImplied | apps/pramana-ui/lib/benchmark-attribution.ts:62 | it cannot fail for sound sectors whose weights pass while the benchmark moved by at most half |
| BenchmarkAttribution.AcceptedTotalsAgree | apps/pramana-ui/lib/benchmark-attribution.ts:61-62 | the published total and active return of an accepted document agree within the tolerances |
| BenchmarkAttribution.AcceptedEffectsAgree | apps/pramana-ui/lib/benchmark-attribution.ts:54-61 | so do its three published effects and its published total |
| BenchmarkAttribution.EffectsRelative | apps/pramana-ui/lib/benchmark-attribution.ts:49-55 | moving every return by the same amount changes no effect |
| CompanyEvents.ResolveMappings | apps/pramana-ui/lib/company-events.ts:89-98 | one pass with a map and a conflict set resolves every title like its own fold over the rows |
| CompanyEvents.ResolveExact | apps/pramana-ui/lib/company-events.ts:89-98 | the effective mapping is the title's latest record known at the cutoff, and a conflict is flagged exactly when two records share the latest instant |
| CompanyEvents.ResolveOrderIrrelevant | apps/pramana-ui/lib/company-events.ts:89-98 | the row order does not matter to the resolution |
| CompanyEvents.GroupRevisions | apps/pramana-ui/lib/company-events.ts:75-88 | every revision is checked, the known ones are grouped by announcement in row order, the rest counted |
| CompanyEvents.ReadEvents | apps/pramana-ui/lib/company-events.ts:45-113 | an unsound database is refused; a sound one shows its view at the cutoff |
| EvidenceTheorems.FutureInvisible | apps/pramana-ui/lib/company-events.ts:75-113 | the view is the view of the rows known at the cutoff alone |
| EvidenceTheorems.SameKnownSameView | apps/pramana-ui/lib/company-events.ts:75-113 | databases that agree on what was known at the cutoff show the same events, mappings and captures |
| EvidenceTheorems.EventOrderIrrelevant | apps/pramana-ui/lib/company-events.ts:99-105 | the same revisions and mappings in any order give the same event |
| EvidenceTheorems.LatestExact | apps/pramana-ui/lib/company-events.ts:100-101 | an event shows its newest revision and is ambiguous exactly when another shares its first-seen instant |
| EvidenceTheorems.HistoryListed | apps/pramana-ui/lib/company-events.ts:100 | an event's history is all its revisions, later first seen before earlier, smaller digest first at one instant |
| EvidenceTheorems.RecordShownExact | apps/pramana-ui/lib/company-events.ts:102 | an event names its title's latest known record, the greater time text at one instant, even one withdrawn or in conflict, and says when it is in conflict |
| EvidenceTheorems.ViewShows | apps/pramana-ui/lib/company-events.ts:86-110 | each announcement has an event with exactly its known revisions; the captures and mappings shown are the known ones; the latest capture and the last success are the first listed of the latest |
| EvidenceTheorems.AvailabilityExact | apps/pramana-ui/lib/company-events.ts:102-104 | an event is mapped exactly by an unconflicted, unrevoked latest record, and available from the later of the two instants, never after the cutoff |
| EvidenceTheorems.LatestCaptureExact | apps/pramana-ui/lib/company-events.ts:106-107 | the latest capture, or latest successful one, is known and no other is later |
| EvidenceTheorems.StaleExact | apps/pramana-ui/lib/company-events.ts:106-111 | evidence is stale exactly when no successful capture lies in the day before the cutoff |
| CompanyMappings.MappingJournal.Save | apps/pramana-ui/lib/company-events.ts:121-142 | an accepted save appends exactly its row, a refused one changes nothing, and acceptance is decided by the stated conditions |
| CompanyMappings.SaveKeepsKeys | apps/pramana-ui/lib/company-events.ts:137-139 | the primary key of the mapping table is never violated by a save |
| CompanyMappings.SavedRowExact | apps/pramana-ui/lib/company-events.ts:139-140 | the recorded row carries the review's title, symbol and time and its provenance without the blanks around it; it is a withdrawal exactly when the review is, and otherwise maps to a permitted symbol |
| CompanyMappings.AcceptedBecomesEffective | apps/pramana-ui/lib/company-events.ts:133-140 | an accepted save is at once the sole unconflicted effective record of its title, and its expectation names the record it superseded |
| CompanyMappings.NoTwoFromSameRecord | apps/pramana-ui/lib/company-events.ts:133-140 | two saves of a title that expect the same record are never both accepted, in any serialisation and under any clock readings |
| CompanyMappings.TitlesIndependent | apps/pramana-ui/lib/company-events.ts:133-140 | however saves of different titles are interleaved, each title resolves as if only its own had been made |
| CompanyMappings.SavesNeverConflict | apps/pramana-ui/lib/company-events.ts:137-140 | a journal written only by these saves never shows a conflict, at any cutoff |
| Freshness.FindDuplicates | apps/pramana-ui/lib/freshness.ts:27 | the duplicate set holds exactly the keys that occur at two positions |
| Freshness.AgeRuntime | apps/pramana-ui/lib/freshness.ts:19-35 | the loop over the watchlist yields the aged runtime of the definition, malformed lists included |
| AgeingTheorems.CompositionExact | apps/pramana-ui/lib/freshness.ts:16-17 | a refused verdict never comes back later exactly when the stamp is not further ahead than its tolerance |
| AgeingTheorems.WithinMeans | apps/pramana-ui/lib/freshness.ts:16-17 | a stamp qualifies from the given age before the clock to the tolerance after it |
| AgeingTheorems.EarlyTickReturns | apps/pramana-ui/lib/freshness.ts:28-33 | a concrete tick one second ahead that is refused, then fresh a second later unless its row was aged in between |
| AgeingTheorems.FeedExact | apps/pramana-ui/lib/freshness.ts:37-45 | the feed check passes exactly when a running paper engine has a sound, non-empty, duplicate-free watchlist on which every tick is fresh |
| AgeingTheorems.EngineComposes | apps/pramana-ui/lib/freshness.ts:19-35 | ageing the engine twice is ageing it once at the later time |
| AgeingTheorems.MalformedLabelExact | apps/pramana-ui/lib/freshness.ts:19-35 | when ageing twice changes the status label of a malformed watchlist |
| AgeingTheorems.PortfolioComposes | apps/pramana-ui/lib/freshness.ts:47-59 | ageing the portfolio twice is ageing it once at the later time |
| AgeingTheorems.AllowedStays | apps/pramana-ui/lib/freshness.ts:75-78 | a check that may pass later could pass earlier |
| AgeingTheorems.ChecksCompose | apps/pramana-ui/lib/freshness.ts:62-79 | the checks pass after two ageings exactly as after one at the later time |
| AgeingTheorems.AgeingComposes | apps/pramana-ui/lib/freshness.ts:62-98 | with no stamp ahead of its tolerance, ageing a workspace twice shows the same checks, rows, marks and panels as ageing it once at the later time |
| AgeingTheorems.AgeingOnlyWithdraws | apps/pramana-ui/lib/freshness.ts:62-98 | whatever the clocks say, ageing only takes claims away |
| AgeingTheorems.CheckPassesExactly | apps/pramana-ui/lib/freshness.ts:62-79 | a check passes on the aged page exactly when it passed before and the evidence it needs, named in the untouched snapshot, is still current |
| AgeingTheorems.RowShownExactly | apps/pramana-ui/lib/freshness.ts:28-33 | a row is shown as fresh, with "fresh" as its reason, exactly when page and engine are current, the engine accepted it, it is not repeated and its tick is recent |
| AgeingTheorems.RowReasonExactly | apps/pramana-ui/lib/freshness.ts:32 | each stated reason is the first that applies: page, duplicate, engine, time missing, in the future, too old, rejected |
| AgeingTheorems.EngineStatusExactly | apps/pramana-ui/lib/freshness.ts:19-66 | the engine's status: stale on an expired page, invalid for a malformed watchlist, stale after its heartbeat, else its own |
| AgeingTheorems.PortfolioStatusExactly | apps/pramana-ui/lib/freshness.ts:47-67 | the portfolio's status: invalid, stale or degraded exactly by its holdings, the page and valuation, and its marks |
| AgeingTheorems.PanelsExact | apps/pramana-ui/lib/freshness.ts:69-97 | exposure, historical risk, contribution, both observations and the collector flag are shown exactly while what each rests on is current |
| AgeingTheorems.AllMarksFlagExact | apps/pramana-ui/lib/freshness.ts:47-68 | the all-marks-fresh flag is true of the marks shown exactly when the page is current, nothing is held, or the snapshot's marks are not all live |
| AgeingTheorems.ExpiredPageKeepsFlag | apps/pramana-ui/lib/freshness.ts:63-68 | a concrete expired page that shows no fresh mark and still claims that all are |
| CadenceDaemon.BoundaryIsNext | src/quant_ai/daemon.py:883-889 | the next boundary is the first multiple of the cadence strictly after now |
| CadenceDaemon.DelayFor | src/quant_ai/daemon.py:137-139 | the n-th consecutive failure waits the n-th delay, the last one from then on |
| CadenceDaemon.DaemonRunner.Record | src/quant_ai/execution/audit.py:226-229 | the capped window is always the newest part of everything recorded |
| CadenceDaemon.DaemonRunner.CaptureProofs | src/quant_ai/daemon.py:535-550 | a capture appends exactly the uncounted traces the window still holds, in order, and counts them only if every write succeeds |
| CadenceDaemon.DaemonRunner.HandleCadenceFailure | src/quant_ai/daemon.py:510-533 | a failure is counted, recorded, latched at the threshold and waited out; a record that cannot be made ends the loop at that point, the switch already engaged if it is one of the halt (src/quant_ai/execution/daemon.py:468-482, 509-519) |
| CadenceDaemon.DaemonRunner.RunAlignedCadence | src/quant_ai/daemon.py:475-508 | over any ticks, until one leaves the loop: each outcome is decided by the log it meets, failures, halt and delays follow the outcomes, and the log is that of the run of happenings |
| CadenceDaemon.SuperviseStream | src/quant_ai/daemon.py:382-406 | each wait is the initial delay times the multiplier once per attempt since the last connection, capped |
| CadenceDaemon.SinceConnectedExact | src/quant_ai/daemon.py:382-406 | the exponent counts the attempts since the latest connection, or since the first when there was none |
| DaemonTheorems.LoggedOnce | src/quant_ai/daemon.py:535-550 | over recordings and completed captures the log holds each proof at most once, in recording order |
| DaemonTheorems.LogExact | src/quant_ai/daemon.py:535-550 | and misses exactly the proofs the window dropped before the next capture or that were recorded during one |
| DaemonTheorems.NoRepeatsExact | src/quant_ai/daemon.py:535-550 | over any run, the log repeats no proof exactly when no capture starts before the end of what a failed one had written, and is then in recording order |
| DaemonTheorems.FailedCaptureRepeats | src/quant_ai/daemon.py:543-550 | a concrete run in which a failed capture's line is written again |
| DaemonTheorems.NothingLostSilently | src/quant_ai/daemon.py:535-550 | even with failures a counted proof is on the log, or was dropped by the window, or was recorded during a capture |
| DaemonTheorems.HaltExact | src/quant_ai/daemon.py:510-532 | the kill switch is engaged exactly when, at a tick the loop reached, the threshold of consecutive failures was met and the last of them could be recorded |
| DaemonTheorems.RecordedHaltExact | src/quant_ai/daemon.py:510-532 | when every record can be made, exactly when the threshold was met; the loop then never ends by itself |
| DaemonTheorems.SleptExact | src/quant_ai/daemon.py:533 | while the loop runs it has waited, for each failed tick, the delay of its place in its run of failures |
| DaemonTheorems.UnrecordedFailureSkipsHalt | src/quant_ai/daemon.py:516-533 | a concrete failing tick at the threshold that cannot be recorded and leaves the switch off |

## Left out

- Storage and transport: SQLite connections, WAL, file and size checks, symbolic links, environment variables, HTTP, retry delays and abort signals. Tables are values and a transport call is an arbitrary response.
- Parsing: `Date.parse`, `Intl`, regular expressions over whole documents and JSON decoding; rows arrive typed, with the field checks of the broker rows spelled out and the others named in the modules.
- IEEE rounding and the nonfinite handling of `safe`: arithmetic is exact; the 1e-12, 1e-24 and 0.01 thresholds are kept.
- JsonReader.CanonicalExact: numbers are integers, as in broker records; fractions and exponents are not modelled.
- LifecycleTheorems.ChangingLeavesNoTrace: the reported gap to the previous capture does change, because the source measures it from the capture before whatever its status.
- AccountReport.ReadAccountBenchmark: the validation of the daily-history document and the index closes of each day are not modelled; sessions are taken as strictly ordered, as that validation guarantees.
- PaperAccount.AcceptAccount: the presence of the tables, the valuation's own fields, and the reconciliation of positions, holdings and reported profit are the flags `stored`, `matches` and `agrees`.
- ContributionTheorems.LastReconciliationFollows: sums and quotients are exact, so the bound leaves out the rounding of floating point.
- ChatRequest.RequestClaude: backoff timing, the deadline and the diagnostic fields of an attempt are not modelled; a response is its status, usage, stop reason and text.
- BenchmarkComparison.CompareBenchmark: the square root is a parameter positive on positive numbers, exact where a clause says so; the rebased curve and the reason texts are not modelled.
- BenchmarkAttribution.ParseBenchmarkAttribution: decimal strings are their exact values; labels, dates, identifiers and the input hash are not modelled.
- CompanyEvents.ReadEvents: the order in which events, mappings and captures are listed, row and byte bounds, and the digests of stored rows are not modelled; digests are compared by code unit, as their hexadecimal form allows.
- CompanyMappings.MappingJournal.Save: the set of keys of the request and the date shape of its expectation are not checked.
- Freshness.AgeRuntime: detail texts are not modelled; ages are compared in exact microseconds.
- CadenceDaemon.DaemonRunner.CaptureProofs: a failing write appends nothing of its own line; the contents of a log line beyond its trace are not modelled.
- CadenceDaemon.DaemonRunner.HandleCadenceFailure: the log line, audit row and notification of a failure are one flag, and the durable state, audit row, notification and log line of a halt another, so which of a group failed is not told.
- CadenceDaemon.DaemonRunner.RunAlignedCadence: asyncio scheduling, stop requests and the analysis itself are not modelled, nor what the log lines, audit rows, notifications and the durable halt contain; a tick is what it records, whether it fails, and whether its failure or recovery and its halt can be recorded.
- The interface, sessions, scripts, alerts, decision-quality tables and the provider adapters would add only field checks or short tallies.

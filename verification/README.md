# A verified model of go-sqlmock

go-sqlmock is a `database/sql` driver that holds a list of expectations and checks the driver calls
of a program against it. This project models the driver in Dafny and proves what its matching,
concurrency, cursor, pool and query-text code guarantee. `dafny verify dfyconfig.toml` checks everything.

| file | what it models |
|---|---|
| `Matching.dfy` | the specification: one driver call as one atomic step on the list of expectations |
| `Outcomes.dfy` | what each kind of call consumes and how it is refused, in terms of the expectations' fields |
| `Ordered.dfy`, `Unordered.dfy` | what whole call logs achieve in the two modes |
| `Yielding.dfy` | when unordered matching is optimal |
| `Swapping.dfy`, `Commuting.dfy` | when two calls commute, and what follows for whole logs |
| `Lifecycle.dfy` | runs with registration, replies, closing of handles, and the verdict |
| `Expectations.dfy`, `Scanning.dfy`, `Engine.dfy` | the Go objects, their locks and loops, proved against the specification |
| `Interleaving.dfy`, `Schedules.dfy` | any number of goroutines with any number of operations, interleaved lock by lock |
| `Handles.dfy` | statements, rows and verdicts under concurrency |
| `Confluence.dfy`, `Serving.dfy` | when the schedule does not matter, and what unordered mode serves under every schedule |
| `Arguments.dfy` | argument matching and conversion |
| `Pool.dfy` | generated names, the registry of mocks and their open counts |
| `Rows.dfy`, `Buffers.dfy` | building rows, and the byte buffers that the cursor lends out (the cursor is in `Expectations.dfy`) |
| `Drain.dfy`, `Draining.dfy` | draining all result sets: on the cursor as a value, and through a caller's destination |
| `Lending.dfy` | the lifetime of lent buffers over any sequence of cursor calls |
| `Query.dfy` | white-space normalisation and the two query matchers |

## How the parts fit

`Matching.Step` says where a scan stops and what it does there. `Engine` contains the Go methods as
methods on mutable objects, expectation locks included; each is proved to perform exactly one `Step`
(or one `Lifecycle` or `Pool` event) and to release every lock. The closing of a handle in `Lifecycle`
is the Close of a `Statement` or of `QueryRows`, objects that exist only because a served call returned
them. `Interleaving` splits the same calls into their locking steps and runs any number of goroutines,
each with any number of operations, under any schedule; it proves that each operation takes effect
atomically, so that all theorems about sequential logs hold for concurrent programs. `Draining` reads a
cursor to its end and proves that the caller sees what `Drain` says of the cursor as a value.

## What the code does not promise

- Begin compares transaction options only after it has chosen an expectation, and refuses only if the
  isolation level and the read-only flag both differ (`Matching.BeginRefusedIff`). In unordered mode it
  can therefore miss a matching expectation (`Matching.BeginCanMiss`); `Unordered.StepMissesIff` says
  exactly when.
- Unordered mode is greedy: `Unordered.FactorTwoIsTight` gives two calls of which it serves one although
  both could be served. A log and all its parts are served as well as possible exactly when every call
  reaches its expectations (no ExpectedBegin that refuses it comes before one that does not) and yields to all
  later ones (`Yielding.LogServedIff`).
- The order of calls can matter in both modes. Two calls commute exactly under `Swapping.PairSafe`
  (`Swapping.CommuteIff`), which treats two Begins like two calls in order (`Swapping.BeginsAreRivals`). The
  schedule of a program does not matter exactly if the calls of different goroutines are safe pairs
  (`Confluence.ScheduleFreeIff`); `Confluence.OrderedDependsOnSchedule` gives a program and two schedules.
- `strings.TrimSpace` knows more white space than `\s`. The normal form is the token list exactly under
  `Query.CleanEnds`; outside it the equality matcher accepts different texts (`Query.ExoticSpaceIsInvisible`),
  and it agrees with the token lists exactly there (`Query.CleanEndsIff`).
- A result set with rows that is listed twice is read once (`Drain.DrainIsConcatenationIff`,
  `Drain.RepeatedSetIsReadOnce`).
- New overwrites a caller-chosen name that looks generated; `Pool.NewKeepsConsistencyIff` says when that
  breaks the registry and `Pool.ClashUnregistersTheOther` shows how.
- A must-be-closed prepare or query whose consuming call failed or was cancelled can never be satisfied
  (`Lifecycle.ConsumedWithoutHandleIsFatal`).

## Assumptions

Query matchers, argument matchers, value converters and `reflect.DeepEqual` are total, deterministic
functions, given as parameters. While goroutines run, the list of expectations and the mode do not
change, as their writes are unsynchronised in the code. Counters do not overflow.

## Model

| member | source | states |
|---|---|---|
| Matching.FirstHalt | sqlmock_go18.go:203-229 | the index where a scan stops is the least at which it may stop; everything before it is fulfilled or, unordered, not selected |
| Matching.BeginRefusedIff | sqlmock.go:231-260 | a Begin is refused by an expectation exactly if that is the first open one its scan stops at, has options, and both fields differ |
| Matching.BeginCanMiss | sqlmock.go:239-260 | an unordered Begin refused by the first open ExpectedBegin although the next one matches it |
| Matching.RunGrows | sqlmock_go18.go:249-249 | a triggered flag is never reset and only indices of the list are ever set |
| Matching.ConsumerMatches | sqlmock_go18.go:239-257 | a consuming call matches its expectation in kind, text, arguments and options, and found it open |
| Matching.ConsumedOnce | sqlmock_go18.go:203-209 | no expectation is consumed by two calls of a log |
| Matching.Conservation | sqlmock_go18.go:249-257 | over any log and in either mode, as many calls consume as expectations become triggered |
| Outcomes.SameKindIff | sqlmock.go:164-164 | which expectation is for which call |
| Outcomes.CloseConsumesIff | sqlmock.go:153-184 | Close consumes exactly the first open expectation, in order, or else the first open ExpectedClose |
| Outcomes.CommitConsumesIff | sqlmock.go:372-400 | likewise Commit and ExpectedCommit |
| Outcomes.RollbackConsumesIff | sqlmock.go:403-435 | likewise Rollback and ExpectedRollback |
| Outcomes.PingConsumesIff | sqlmock_go18.go:122-155 | likewise Ping and ExpectedPing |
| Outcomes.BeginConsumesIff | sqlmock.go:227-265 | Begin consumes exactly the ExpectedBegin its scan stops at, if one of the two option fields agrees or none are set |
| Outcomes.PrepareConsumesIff | sqlmock.go:294-339 | prepare consumes exactly the first open ExpectedPrepare whose text matches, in order only as the first open one |
| Outcomes.QueryConsumesIff | sqlmock_go18.go:199-258 | query consumes exactly the first open ExpectedQuery whose text and arguments match, in order only as the first open one |
| Outcomes.ExecConsumesIff | sqlmock_go18.go:282-341 | likewise exec and ExpectedExec |
| Outcomes.OutOfTurnIff | sqlmock_go18.go:211-217 | a call is out of turn exactly if, in order, the first open expectation is for another kind of call |
| Outcomes.PrepareMismatchIff | sqlmock.go:332-335 | prepare fails its later check exactly if, in order, the first open expectation is an ExpectedPrepare for another text |
| Outcomes.QueryMismatchIff | sqlmock_go18.go:241-247 | query likewise, for another text or other arguments |
| Outcomes.ExecMismatchIff | sqlmock_go18.go:323-329 | exec likewise |
| Outcomes.NotExpectedSays | sqlmock_go18.go:231-237 | a refusal without a candidate says whether all expectations are fulfilled; in order they are |
| Ordered.StepTakesFirst | sqlmock_go18.go:211-217 | in order, a call consumes the first open expectation if it matches it, else nothing |
| Ordered.RunIsGreedy | sqlmock_go18.go:203-257 | a log consumes greedily from the list of open expectations, from any state |
| Ordered.GreedyEmbeds | sqlmock.go:70-81 | what is consumed is, in order, a matching subsequence of the log |
| Ordered.GreedyIsBest | sqlmock.go:70-81 | no embedding of a longer prefix of the open expectations into the log exists |
| Ordered.OrderedIsOptimal | sqlmock.go:70-81 | the calls trigger the first k open expectations, k being the largest number that embeds in the log |
| Ordered.AllMetIffListEmbeds | sqlmock.go:29-31 | all expectations end up triggered exactly if the whole open list embeds in the log |
| Ordered.ExtraCallsNeverSpoil | sqlmock_go18.go:231-247 | inserting further calls anywhere never triggers fewer expectations |
| Ordered.StepKeepsPrefix | sqlmock_go18.go:211-217 | from a triggered prefix, a call leaves a prefix and consumes at most its next expectation |
| Unordered.StepMissesIff | sqlmock.go:231-260 | an unordered call is rejected although an open expectation matches it exactly if it is a Begin that the first open ExpectedBegin refuses |
| Unordered.ReachesIff | sqlmock.go:231-260 | a call is never turned away while a matching expectation is open exactly if no ExpectedBegin that refuses it comes before one that does not |
| Unordered.StepTakesFirstMatch | sqlmock_go18.go:218-229 | such a call consumes the first open expectation that matches it, and is rejected only if there is none |
| Unordered.RejectedMatchesNothingLeft | sqlmock_go18.go:218-237 | such a call, rejected during a run, matches nothing that is still open at its end, whatever the other calls are |
| Unordered.GreedyIsHalfOptimal | sqlmock_go18.go:218-229 | no assignment of such calls to matching expectations is more than twice as large as what the run consumes |
| Unordered.FactorTwoIsTight | sqlmock_go18.go:218-229 | two calls that two expectations could serve, of which the run serves one |
| Swapping.CommuteIff | sqlmock_go18.go:203-249 | any two calls, in either mode, commute from every state exactly if the pair is safe: rivals (in order, or two Begins) must not be told apart behind an expectation that either takes; of others, each expectation only one of them matches comes before each that both match |
| Swapping.BeginsAreRivals | sqlmock.go:231-260 | two unordered Begins and two expectations for which the order decides what is met |
| Swapping.EqualOrDisjointIsSafe | sqlmock_go18.go:203-249 | calls that match the same expectations are safe, and calls that match no common one unless they are rivals |
| Commuting.PermutationsAgree | sqlmock.go:73-79 | if all pairs of a log commute, every permutation of the log ends with the same triggered set, in either mode |
| Yielding.YieldingIsOptimal | sqlmock_go18.go:218-229 | where the assigned calls reach their expectations and yield to each other, the run consumes as many expectations as the assignment |
| Yielding.AloneServedIff | sqlmock.go:231-260 | a call alone is served whenever it can be exactly if it reaches its expectations |
| Yielding.PairServedIff | sqlmock_go18.go:218-229 | two calls, together and alone, are served as well as possible from every state exactly if both reach their expectations and the first yields to the second |
| Yielding.LogServedIff | sqlmock_go18.go:218-229 | a log and all its parts are served as well as possible from every state exactly if each call reaches its expectations and yields to all later ones |
| Yielding.SafePairYields | sqlmock_go18.go:218-229 | pairs that commute yield to each other |
| Lifecycle.VerdictIsUnique | sqlmock.go:187-212 | a state has one verdict: nil, or the lowest-index offender with its first offence |
| Lifecycle.VerdictIsStable | sqlmock.go:187-212 | without new registrations the offender's index never decreases, and a nil verdict stays nil |
| Lifecycle.ClosedImpliesHandedOut | statement.go:9-12 | in every reachable state a set closed flag means the expectation was triggered without error and its handle given out |
| Lifecycle.HandedOutByACall | sqlmock_go18.go:87-102 | every handle given out was the reply of some call of the run |
| Lifecycle.SatisfiableIffHandedOut | sqlmock.go:197-209 | a triggered must-be-closed expectation can still be satisfied exactly if its handle was given out |
| Lifecycle.ConsumedWithoutHandleIsFatal | sqlmock_go18.go:87-102 | consumed with an error, a cancelled context or no rows, it keeps every later verdict from being nil |
| Lifecycle.TriggeredIsPrefix | sqlmock.go:267-279 | in order from a fresh mock, with registration in between, the triggered expectations are a prefix of the list |
| Lifecycle.RunConserves | sqlmock_go18.go:249-257 | with mode switches and registration in between, and whatever callers were told, each triggered expectation is paid for by one call |
| Lifecycle.ReplyIs | sqlmock_go18.go:33-48 | the reply to a consuming call: missing rows or result first, then the context, then the mocked error, else served |
| Lifecycle.VerdictSays | sqlmock.go:187-212 | a verdict in terms of flags and fields: nil exactly if all are triggered and all must-be-closed prepares and queries closed |
| Scanning.ProbeByKind | sqlmock.go:156-172 | one turn of the plain loops: the lock is kept exactly if the expectation is chosen |
| Scanning.ProbeByMatch | sqlmock_go18.go:203-229 | one turn of the loops that compare text, ordered and unordered |
| Scanning.AttemptMatch | sqlmock_go18.go:219-226 | query matcher and then arguments: true exactly if both agree |
| Scanning.Scan | sqlmock_go18.go:199-229 | the loop finds the specification's first halt, counts the fulfilled, and holds at most the lock of what it found |
| Scanning.Settle | sqlmock_go18.go:231-257 | with the later checks done under the lock: the outcome and flags of one atomic step, every lock released |
| Engine.Sqlmock.Result | sqlmock_go18.go:249-257 | the returned pair leads to the specified reply whichever way the wait for delay or context ends |
| Engine.Sqlmock.MatchBegin | sqlmock.go:227-265 | begin is one atomic step |
| Engine.Sqlmock.MatchText | sqlmock.go:294-339 | prepare, query and exec are one atomic step |
| Engine.Sqlmock.MatchPlain | sqlmock_go18.go:122-155 | ping and the matching of Close, Commit and Rollback are one atomic step |
| Engine.Sqlmock.BeginTx | sqlmock_go18.go:69-84 | the call is one event of a run, with its reply |
| Engine.Sqlmock.PrepareContext | sqlmock_go18.go:87-102 | likewise; a statement is returned exactly if the call was served |
| Engine.Sqlmock.QueryContext | sqlmock_go18.go:33-48 | likewise; the rows set on the expectation are returned exactly if the call was served |
| Engine.Sqlmock.ExecContext | sqlmock_go18.go:51-66 | likewise; the result set on the expectation is returned exactly if the call was served |
| Engine.Sqlmock.PingContext | sqlmock_go18.go:105-120 | without monitoring nothing happens, else one event |
| Engine.Sqlmock.EndWith | sqlmock.go:368-400 | Commit and Rollback are one event each |
| Engine.Sqlmock.CountDown | sqlmock.go:148-151 | the count goes down and the entry goes with the last connection |
| Engine.Sqlmock.Close | sqlmock.go:144-185 | one pool event and one matching event, whatever the expectations say, with all locks free afterwards |
| Engine.Sqlmock.MatchExpectationsInOrder | sqlmock.go:136-138 | only the mode changes |
| Engine.Sqlmock.Expect | sqlmock.go:273-279 | registration appends one open expectation and changes nothing else |
| Engine.Sqlmock.ExpectPing | sqlmock_go18.go:167-175 | registers only while pings are monitored |
| Engine.Sqlmock.ExpectQuery | sqlmock.go:347-353 | registers the query with the rows of WillReturnRows, and has a reply exactly if they were set |
| Engine.Sqlmock.ExpectQueryOn | expectations.go:346-352 | the prepared text, appended to the same list |
| Engine.Sqlmock.ExpectExec | sqlmock.go:273-279 | registers the exec with the result of WillReturnResult, and has a reply exactly if it was set |
| Engine.Sqlmock.ExpectExecOn | expectations.go:356-362 | the same with the prepared text |
| Engine.Sqlmock.ExpectationsWereMet | sqlmock.go:187-212 | returns the state's verdict: nil exactly if every expectation is triggered and every must-be-closed prepare and query is closed, else the first offender; changes nothing, frees every lock |
| Engine.Statement.Close | statement.go:9-12 | sets the closed flag of its own expectation, which was handed out, and returns its close error |
| Engine.QueryRows.Close | rows.go:37-41 | closing the rows that a query returned closes the handle of that very expectation, which was handed out |
| Engine.Statement.QueryContext | sqlmock_go18.go:163-165 | a query with the statement's text on its connection |
| Engine.Statement.ExecContext | sqlmock_go18.go:158-160 | an exec with the statement's text on its connection, and its result |
| Engine.MockDriver.Open | driver.go:25-37 | the registered mock with one more connection, or an error and no change |
| Engine.MockDriver.StartUp | sqlmock.go:101-128 | the start-up ping opens one connection, is not monitored, and leaves the expectations alone |
| Engine.MockDriver.OpenMock | sqlmock.go:101-128 | a failing option ends the start-up before any connection is opened, the mock staying registered |
| Engine.MockDriver.New | driver.go:43-53 | a fresh, ordered, empty mock registered under the next generated name, with one connection open unless an option fails |
| Engine.MockDriver.NewWithDSN | driver.go:70-81 | the same under the caller's name, or an error if it is taken |
| Interleaving.Linearizable | sqlmock_go18.go:199-258 | in every interleaving, flags and results are those of the logged operations run one atomic step each |
| Interleaving.ResultSays | sqlmock_go18.go:199-258 | each result is the outcome of the operation's atomic step, up to the wording of a refusal without a candidate |
| Interleaving.RealTimeOrder | sqlmock_go18.go:199-258 | an operation finished before another started comes before it in the log |
| Interleaving.StepRefines | sqlmock_go18.go:203-257 | each locking step leaves the abstract state alone or is its operation's own atomic step |
| Interleaving.InterleavingIsSequentialRun | sqlmock_go18.go:203-257 | the triggered set of an interleaving is that of a sequential run of its linearized calls |
| Interleaving.OrderedInterleavingIsOptimal | sqlmock_go18.go:211-217 | ordered matching stays optimal for the linearized calls |
| Interleaving.PrefixSafety | sqlmock_go18.go:211-217 | in order, in every interleaving, the triggered expectations are a prefix |
| Interleaving.ConsumerMatches | sqlmock_go18.go:239-249 | in every interleaving a consumed expectation was open at the start and matches its consumer |
| Interleaving.ConsumersAreDistinct | sqlmock_go18.go:203-249 | two calls never consume the same expectation; in order, earlier calls consume earlier ones |
| Interleaving.InterleavingConserves | sqlmock_go18.go:249-257 | in every interleaving, as many operations consume as expectations are newly triggered |
| Interleaving.OneLockEach | sqlmock_go18.go:203-229 | no thread owns two expectation locks, and a finished one owns none |
| Interleaving.PoolLockComesFirst | sqlmock.go:144-157 | the pool lock is never taken by a thread that owns an expectation lock |
| Interleaving.PoolOwnerIff | sqlmock.go:144-146 | the pool lock belongs exactly to the Close or Open that has begun and not finished |
| Interleaving.FinishedFreesPool | sqlmock.go:145-146 | whoever owns the pool lock is an unfinished Close or Open |
| Interleaving.DeadlockFree | sqlmock.go:144-184 | in every reachable state all operations are finished or some thread can step |
| Interleaving.RunsTerminate | sqlmock_go18.go:203-257 | runs that waste no turn are bounded by threads times four list lengths plus four |
| Schedules.ProgramOrder | sqlmock_go18.go:199-258 | in every interleaving, the operations of a goroutine take effect in its own order, and a handle is closed after the call that obtained it |
| Schedules.OneAtATime | sqlmock_go18.go:199-258 | a goroutine starts an operation only when its earlier ones have finished, and closes only handles of finished calls |
| Schedules.EveryOrderHappens | sqlmock_go18.go:199-258 | every order of the operations that respects this is the log of some completed run |
| Schedules.CompleteLog | sqlmock_go18.go:199-258 | a completed run logs every operation exactly once |
| Confluence.ScheduleDoesNotMatter | sqlmock.go:73-75 | if calls of different goroutines are safe pairs, in either mode, completed runs trigger the same expectations under every schedule |
| Confluence.ScheduleFreeIff | sqlmock.go:70-81 | exactly then, if any of the calls may be made and from any state |
| Confluence.OrderedDependsOnSchedule | sqlmock.go:70-81 | in order, two reachable completed states of one program with disjoint expectations that differ in what is met |
| Serving.RejectedMatchesNothingLeft | sqlmock_go18.go:218-237 | in every unordered interleaving, a finished call that reaches its expectations and consumed nothing matches nothing that is open |
| Serving.GreedyIsHalfOptimal | sqlmock_go18.go:218-229 | under every schedule, no assignment of such calls to expectations is more than twice as large as what was consumed |
| Serving.YieldingIsOptimal | sqlmock_go18.go:218-229 | such calls that yield to all they may come before are served as well as possible under every schedule |
| Serving.SafeProgramIsOptimal | sqlmock.go:73-75 | so are safe programs, if within each goroutine calls yield to later ones |
| Handles.ClosedImpliesHandedOut | statement.go:9-12 | in every interleaving a set closed flag means the expectation was triggered without error and its handle given out |
| Handles.HandleFromServedCall | sqlmock_go18.go:87-102 | every handle was the reply of the call of the program that consumed its expectation |
| Handles.ServesIff | sqlmock_go18.go:33-48 | served is a prepare, or a query with rows, that is neither cancelled nor mocked to fail |
| Handles.HandedIff | sqlmock_go18.go:87-102 | exactly the handles that consuming, served calls of the program obtained are added |
| Handles.ClosedIff | statement.go:9-12 | exactly the closed flags are set whose handle was obtained and then closed, besides those set at the start |
| Handles.VerdictAtSays | sqlmock.go:187-212 | a verdict of an interleaving in terms of flags and fields |
| Handles.VerdictsImprove | sqlmock.go:187-212 | in every interleaving, after a nil verdict all are nil, and the offender's index never decreases |
| Handles.ConsumedWithoutHandleIsFatal | sqlmock_go18.go:87-102 | consumed without its handle, a must-be-closed expectation keeps every later verdict of every goroutine from being nil |
| Arguments.ArgsMatches | expectations_go18.go:32-74 | nil exactly if lengths agree and every position passes its matcher or its name or ordinal and converted value; else the first fault |
| Arguments.ArgsAgreeIff | expectations_go18.go:32-74 | what agreement asks of each position: its matcher alone, or the converted value and the name or ordinal |
| Arguments.FaultSays | expectations_go18.go:33-71 | what each reported fault says about the arguments |
| Arguments.FaultIsUnique | expectations_go18.go:43-72 | only one fault explains a call, and none explains an agreeing one |
| Arguments.CheckNamedValue | sqlmock_go19.go:11-19 | stores what the converter returns in place, even next to an error; sql.Out stays as it is |
| Arguments.ConvertValueToNamedValue | statement_go18.go:20-26 | ordinals from 1, no names, values in order |
| Arguments.OwnArgumentsMatchIff | expectations_go18.go:43-72 | a call matches an expectation written with its own arguments exactly if each converted value equals itself |
| Arguments.OwnArgumentsMatch | sqlmock_go19.go:11-19 | so it always does without sql.Out and under a reflexive equality |
| Arguments.StatementArgumentsMatchIff | statement_go18.go:11-26 | arguments numbered by the deprecated path match exactly if counts and values agree and no expected name is non-empty |
| Pool.ParseDecimal | driver.go:45-45 | decimal printing loses nothing |
| Pool.GeneratedNamesDiffer | driver.go:45-46 | generated names never repeat |
| Pool.InvariantStep | driver.go:25-53 | every legal event keeps the registry consistent and future names free |
| Pool.InvariantRun | driver.go:25-81 | so does every legal run |
| Pool.OpenedIsBalance | driver.go:34-34 | the open count is opens minus closes |
| Pool.EntryVanishesExactly | sqlmock.go:148-151 | an entry stays as it is until the last open connection of its mock closes, and goes exactly then |
| Pool.NewKeepsConsistencyIff | driver.go:43-50 | New keeps the registry consistent exactly if its name does not lead to a mock with open connections |
| Pool.ClashUnregistersTheOther | driver.go:43-50 | a run in which closing one mock unregisters another that is still open |
| Rows.Rows.NewRows | rows.go:135-141 | an empty set without definitions |
| Rows.Rows.NewRowsWithColumnDefinition | rows_go18.go:62-74 | the columns are the definitions' names |
| Rows.Rows.AddRow | rows.go:167-190 | one converted row of the columns' width, or a panic and no change |
| Rows.Rows.AddRows | rows.go:194-200 | the rows before the first panic |
| Rows.Rows.FromCSVString | rows.go:206-226 | one padded row a record until a record is too wide or the text is broken; every row keeps the columns' width |
| Rows.Rows.RowOfSays | rows.go:219-222 | which cell the parser's value for a field becomes |
| Rows.Rows.CSVRow | rows.go:219-222 | fields in place, nil behind them; fails exactly if the record is wider than the columns |
| Rows.Rows.RowError | rows.go:158-161 | registers the error for that row number |
| Rows.Rows.CloseError | rows.go:150-153 | registers the error that closing the rows returns |
| Buffers.RepeatAt | rows.go:113-113 | a repeated pattern is periodic and as long as the count says, whatever the pattern |
| Buffers.Copy | rows.go:105-105 | copies as much as both sides have and leaves the rest |
| Buffers.Overwrite | rows.go:109-114 | the whole buffer holds the pattern, position by position, whatever its length |
| Buffers.RawBytes | rows.go:95-105 | a fresh buffer with the same bytes, for non-empty byte values only |
| Expectations.RowSets.InvalidateRaw | rows.go:109-117 | all buffers lent out are overwritten, older ones stay so, stored rows are not touched |
| Expectations.RowSets.HandOut | rows.go:52-59 | each cell is delivered, byte cells in fresh buffers apart from each other and from the stored rows, and nothing else is out |
| Expectations.RowSets.Next | rows.go:44-62 | row, error or EOF by position; one cell a column; each byte cell with at least one byte in a fresh buffer with the stored bytes, every other cell as it is; all buffers lent before hold the pattern; stored rows are unchanged |
| Expectations.RowSets.NextResultSet | rows_go18.go:17-24 | moves on exactly if there is another set |
| Expectations.RowSets.Close | rows.go:37-41 | overwrites what is out, marks the rows closed, returns the set's close error |
| Expectations.RowSets.Empty | rows.go:86-93 | true exactly if no set has a row |
| Expectations.RowSets.GetDefinition | rows_go18.go:57-59 | in range for every column of the current set, and it names that column |
| Expectations.Expectation.WillReturnRows | expectations_go18.go:15-30 | sets the rows of the expectation: the definition-bearing form exactly if there is a set and every set is non-nil with definitions |
| Expectations.Expectation.WillReturnCloseError | expectations.go:325-328 | registers the error that closing the statement returns |
| Lending.Play | rows.go:37-62 | over any sequence of Next, NextResultSet and Close, exactly the byte cells with at least one byte of the rows read are lent; buffers lent since the last Next or Close hold the stored bytes, all lent before hold the pattern, and the stored rows are unchanged |
| Lending.LastTurnIs | rows.go:37-47 | the last Next or Close of a sequence is the one behind which only NextResultSet follows |
| Drain.NthNext | rows.go:44-62 | the k-th Next on a set gives row k-1 with its error, and EOF for every k beyond the rows |
| Drain.DrainReadsFirstVisits | rows_go18.go:12-24 | reading to EOF set by set terminates and yields each set once, where it first occurs, in order |
| Drain.DrainIsConcatenationIff | rows_go18.go:12-24 | that is the concatenation of all sets exactly if no set with rows is listed twice |
| Drain.RepeatedSetIsReadOnce | rows_go18.go:12-24 | a set with one row, listed twice, of which one row is read |
| Draining.ReadToEnd | rows_go18.go:12-24 | a caller that reads to EOF set by set sees exactly the lines of the cursor as a value, with the bytes stored at the start |
| Drain.RowErrorShowsIff | rows.go:158-161 | a registered error is seen exactly if its row exists |
| Query.StripQueryJoinsTokens | query.go:9-14 | for every text, the tokens joined by single spaces and trimmed |
| Query.StripQueryIsJoinIff | query.go:9-14 | trimming is invisible exactly if no end carries white space that only TrimSpace knows |
| Query.OnlyBlanksGivesCleanEnds | query.go:9-14 | texts whose white space is all known to `\s` satisfy that |
| Query.TokensOfJoin | query.go:9-14 | the tokens come back from their joined text |
| Query.StripQueryIdempotent | query.go:12-14 | stripping twice is stripping once, for every text |
| Query.EqualMatcherComparesTokens | query.go:64-71 | on such texts the equality matcher accepts exactly equal token lists |
| Query.ExoticSpaceIsInvisible | query.go:64-71 | other leading white space is invisible to it although the token lists differ |
| Query.StrippedIsClean | query.go:12-14 | a stripped text is its own tokens joined |
| Query.EqualMatcherComparesStrippedTokens | query.go:64-71 | for every pair of texts, the equality matcher compares the tokens of the stripped texts |
| Query.CleanEndsIff | query.go:64-71 | the matcher agrees with the token lists of a text and of every clean one exactly if the text is clean |
| Query.RegexpMatcherSeesTokens | query.go:45-59 | for every text, the regexp matcher depends only on the tokens, and an expectation that strips to nothing accepts only a query that does |
| Query.MatchesPatternIff | query.go:45-59 | the query is matched against the compiled expectation, and an empty expectation accepts only an empty query |
| Query.RegexpMatcherMatchesTokens | query.go:45-59 | for every text, what is compiled and what is matched are the tokens, joined and trimmed |
| Query.RegexpMatcherOnCleanTexts | query.go:45-59 | for texts with clean ends, the tokens themselves |
| Query.SeparatesIff | query.go:9-14 | the code points that separate tokens |
| Query.VanishesIff | query.go:12-14 | the code points that vanish at an end |
| Query.TrimSpaceIs | query.go:13-13 | trimming takes white space off both ends and nothing else |

## Left out

- `database/sql`: only the driver calls it makes are modelled; that it numbers arguments from 1 is part of `Arguments.Calling`.
- Delays and contexts: whether the context or the delay wins is a parameter of the call.
- Engine.MockDriver.New: options are its parameters, and one flag says that some option fails; what options applied before the failing one leave behind is not modelled.
- Engine.MockDriver.NewWithDSN: the same.
- Builder methods: but for rows, results and close errors, an expectation has its configuration from its registration on; the clashes of WithArgs and WithoutArgs are not modelled.
- Error texts and String methods: refusals keep a tag and the expectation's index.
- The regular-expression engine and the CSV reader: parameters; CSV fields arrive trimmed.
- Panics inside matchers and converters, and their recovery in attemptArgMatch: excluded by their totality. The panics of AddRow and FromCSVString are results.
- Interleaving.Linearizable: open counts are not shared state there; Close and Open take the pool lock, and `Pool` has the counting. A closed flag is one atomic write, where the code writes without a lock.
- Confluence.ScheduleFreeIff: the safety of all pairs is necessary if each part of the program may run on its own; a larger program can hide an unsafe pair.
- Yielding.LogServedIff: likewise a log can be served as well as possible although one of its parts is not.
- Scanning.Scan: the eight scan loops of the code are one loop with two bodies, as they differ in nothing else.
- Expectations.RowSets.Next: a client that writes into a lent buffer is outside the model.
- Column setters and getters, argument helpers, options, and the older build variants: nothing but assignments and earlier versions of the same logic.

# Verified models of DogPaddle's hard core

This project models the parts of DogPaddle whose correctness no single function body shows, and proves what
they are for. Run `dafny verify dfyconfig.toml` to check all of it.

**SQL lowering** (`Options`, `Sequences`, `Bags`, `Expressions`, `Relational`, `JoinConditions`, `Plans`,
`PlanMeanings`, `Dataflow`, `LoweringSteps`, `JoinSteps`, `OperatorSteps`, `SharedScans`, `LoweringState`,
`Bindings`, `QueryLowering`). Logical plans and lowered graphs of positional operators both mean bags of
rows, with NULL and three-valued logic; joined tables follow section 7.7 of ISO/IEC 9075-2:2003, and
`PlanMeanings` says of every kind of plan, row by row, what its bag holds. The class `Lowerer` lowers as the
source does - it splits ON conditions into hash keys and a residual, turns right-preserving joins around,
renames columns by position, shares one physical scan between all occurrences of a source and drops
projections that change nothing - and is proved to keep the bag of every plan it accepts, and to accept
exactly the plans it should when the factory refuses nothing more than it must. Scalar functions,
comparisons outside the key types, aggregate summaries and the factory's schema checks are arbitrary
parameters, so the theorems hold for every choice of them.

**The incremental equality join** (`JoinWeights`, `JoinPages`, `JoinRuntime`, `EquiJoinKernel`,
`JoinOperation`, `JoinMeaning`). The operation keeps two relations and, with a residual, support counts; it
consumes signed changes and emits signed differences in bounded pages that may stop anywhere. Pages list
their candidates in order, retractions first, and never a zero difference. Whatever the page boundaries,
refusals and resumptions, the differences it has committed add up to the join of the relations it has
committed - the same fragments the dataflow meaning of its node has. The counts never underflow and never
disagree with the candidates.

**Change capture** (`BigEndian`, `WireInput`, `Checkpoints`, `Deliveries`, `ConnectorConfigs`,
`ConnectorStates`, `Connectors`, `CapabilityRuns`, `CaptureRuns`). The two binary formats are decoded by a
moving cursor and proved to accept exactly the byte strings that hold, position by position, a legal value.
The connector's capability protocol is a class over objects and, on the same transition functions, a state
machine over any number of connectors. A second state machine adds the Java engine, crashes, stops and lost
acknowledgements and proves that the durable log is the source prefix that the durable checkpoint names, and
exactly which step can put that at risk.

*A result about the source.* `Connector::stop` clears the outstanding capability before it calls the host,
and the host call can fail without reaching the engine: `duration_millis` refuses a duration of more than
`i64::MAX` milliseconds, such as `Duration::MAX` (`crates/debezium/src/jvm.rs:370-372` and `438-445`). The
documentation says an outstanding delivery is aborted by a stop
(`crates/debezium/src/connector.rs:142-151`); in that case it is not, and the connector is not poisoned
either. A client that had recorded the batch and goes on polling the same connector gets the same batch
again; `CaptureRuns.UnrepresentableStopRepeats` is such a run from the start. `CaptureRuns.RiskyIffUnheard`
proves that nothing else loses exactly-once capture: a step puts it at risk if and only if it is a stop with
such a timeout, or one whose bridge call fails, made while a delivery is held on a serving connector. Two
rules keep a client safe, and both are proved: not to poll again after an unsuccessful stop before
restarting from the durable checkpoint (`CaptureRuns.RestartAfterFailedStop`, whatever the timeouts and the
bridge do), or to pass representable timeouts over a bridge that does not fail
(`CaptureRuns.RepresentableTimeoutsSuffice`).

**Columnar layout** (`Layouts`, `LayoutPositions`, `LayoutValidation`, `BodySizes`, `BoundedEncoding`). The
validator of received descriptors and the calculator of the body size are two separate recursive walks,
following the RecordBatch message of the Apache Arrow Columnar Format. The validator accepts exactly the
canonical descriptors of some shape the schema admits, which is also stated index by index, and the
calculator returns exactly the body length that acceptance demands, slot by slot, under 64-bit arithmetic
and a byte limit.

**Schemas and changes** (`Schemas`, `Arrays`, `Changes`). The schema walk with its three global budgets
decides a declarative predicate. Slices and projections keep every invariant of a change although they check
nothing again; slices compose and commute with projections; the column fast path of expression projection
equals evaluating every expression.

**Keys and identities** (`StoreKeys`, `EndpointArguments`, `ProgramIdentities`). Sortable keys order as the
integers they encode; the stream behind a program's identity determines query, scans and sink; the order of
named arguments never matters.

## Model

| member | source | states |
|---|---|---|
| QueryLowering.LowerQuery | crates/sql/src/plan.rs:167-223 | Every accepted query yields a graph with the plan's bag of rows for all source contents, under exactly the SQL schema, with each scan declared exactly once. A query is accepted only if it is supported - for a join, that some ON pair or some AND-leaf of its filter equates a column expression of one input with one of the other, in either order, over one key type - its projections, aggregates, unions and scans have unique names, its filters and residuals are Boolean and its ASOF keys agree in type; and then a factory that refuses nothing more accepts it. No internal error is possible |
| Bindings.SupportedMeans | crates/sql/src/plan.rs:225-290 | Which plans are supported, node kind by node kind: the literal join, grouping and aggregate conditions, with no reference to how keys are collected |
| PlanMeanings.JoinMeaning | crates/sql/src/plan.rs:345-399 | The meaning a join is lowered to, row by row: a pair counts the product of its weights where the condition is TRUE, a row without partner counts its own weight next to NULLs, each for exactly the kinds that keep it |
| PlanMeanings.AsOfMeaning | crates/sql/src/plan.rs:292-343 | A left row keeps its weight next to each eligible row that no other eligible row is closer than, and next to NULLs exactly where none is eligible |
| PlanMeanings.AggregateMeaning | crates/sql/src/plan.rs:401-447 | One row per group that occurs: its key values, then each call over exactly the rows of the group |
| PlanMeanings.CallMeaning | crates/sql/src/plan.rs:401-447 | COUNT counts the rows whose argument is not NULL; the other functions see exactly the multiset of non-NULL arguments |
| PlanMeanings.ProjectionMeaning | crates/sql/src/plan.rs:225-290 | A row counts all input rows whose expressions evaluate to it |
| PlanMeanings.FilterMeaning | crates/sql/src/plan.rs:225-290 | A row keeps its weight exactly where the condition is TRUE |
| PlanMeanings.DistinctMeaning | crates/sql/src/plan.rs:225-290 | Every row that occurs counts once |
| PlanMeanings.UnionMeaning | crates/sql/src/plan.rs:225-290 | A row counts the sum of its weights in the branches |
| PlanMeanings.ScanMeaning | crates/sql/src/plan.rs:449-517 | A row counts all source rows whose projected columns, in order, are it |
| QueryLowering.Lowerer.Lower | crates/sql/src/plan.rs:225-290 | Lowering any plan extends the graph by a relation with the plan's meaning, arity and unique physical names, and keeps all earlier relations and scan bindings |
| QueryLowering.Lowerer.LowerJoin | crates/sql/src/plan.rs:345-399 | Every accepted join type, with keys, residual, NULL keys, padding and multiplicities, is lowered to exactly SQL's joined table |
| QueryLowering.Lowerer.LowerAsOfJoin | crates/sql/src/plan.rs:292-343 | An ASOF join keeps its meaning, every closest eligible row, with its direction, exactness, equalities and order key |
| Relational.UntiedRow | crates/operation/src/operation/transform/asof_join/runtime.rs:65-77 | Where no two different rows are closest - the tie the runtime refuses - a left row has exactly one output row: with the one closest eligible row, or padded |
| Relational.UntiedAsOf | crates/operation/src/operation/transform/asof_join/runtime.rs:65-77 | Without ties an ASOF join neither drops nor repeats a left row |
| QueryLowering.Lowerer.LowerAggregate | crates/sql/src/plan.rs:401-447 | Grouping with the five builtin aggregates keeps its meaning; modified or unknown calls are refused |
| QueryLowering.Lowerer.LowerScan | crates/sql/src/plan.rs:449-517 | An occurrence of a source reads the shared scan and gets exactly its own columns; the search for them never fails |
| QueryLowering.Lowerer.ShareScan | crates/sql/src/plan.rs:463-503 | The first occurrence declares the scan, later ones reuse it; the count of declarations stays at most one |
| QueryLowering.Lowerer.ProjectColumns | crates/sql/src/plan.rs:519-555 | Selecting by position under target names maps the bag by those positions and gives exactly the target schema when the types agree; no operator is added if and only if the schema and the positions are already the target's |
| QueryLowering.Lowerer.LowerUnion | crates/sql/src/plan.rs:225-290 | A union of branches, each aligned to exactly the union's schema, is the sum of their bags |
| QueryLowering.Lowerer.AddTransform | crates/sql/src/plan.rs:591-615 | Declares one operator under a fresh identifier, fails exactly when the factory refuses the schema, and keeps the graph well formed |
| Bindings.OrientedBinds | crates/operation/src/operation/transform/equi_join/definition.rs:186-335 | The operator declared for a join always has agreeing key types and unique names, so the factory's own checks leave only one condition: that the residual is a Boolean |
| Bindings.AsOfBinds | crates/sql/src/plan.rs:292-343 | The operator declared for an ASOF join meets the factory's checks exactly when each pair of keys has one supported type |
| Bindings.JoinFieldNameInjective | crates/sql/src/plan.rs:934-936 | The zero-padded hexadecimal names of joined columns are distinct for distinct positions, beyond eight digits too |
| Bindings.JoinFieldNameIs | crates/sql/src/plan.rs:934-936 | Each name is the prefix followed by at least eight hexadecimal digits that spell the position, and no leading zero beyond eight |
| JoinSteps.SwappedJoinSound | crates/sql/src/plan.rs:767-825 | Right, RightSemi and RightAnti joins, run left-preserving over swapped inputs with swapped keys and a residual rewritten to the swapped ports, give SQL's join after reordering the columns |
| JoinSteps.DirectJoinSound | crates/sql/src/plan.rs:767-825 | Inner, Left, Full, LeftSemi and LeftAnti joins are the operator's output with the columns in their given order |
| JoinConditions.CollectJoinCondition | crates/sql/src/plan.rs:714-745 | One pass over ON pairs and filter conjuncts puts each, in order, exactly once: under the keys, as the oriented pair, exactly if it is a key equality, and otherwise under the residuals; there is a key exactly if the condition links the inputs |
| JoinConditions.KeyIff | crates/sql/src/plan.rs:747-765 | A conjunct becomes a given oriented key if and only if it is an equality, each side has columns, the sides resolve in different inputs in the order the key gives them, or only in the reverse order, and both have one key type |
| JoinConditions.KeysIffLinked | crates/sql/src/plan.rs:714-745 | Some key is collected if and only if some ON pair or AND-leaf of the filter is such an equality |
| JoinConditions.ConditionListed | crates/sql/src/plan.rs:714-731 | The conjuncts are the ON pairs in order, followed by exactly the AND-leaves of the filter |
| JoinConditions.SplitSound | crates/sql/src/plan.rs:714-765 | On typed rows the whole condition is TRUE exactly when all keys are non-NULL and equal and every residual is TRUE |
| JoinConditions.RewriteJoinResidualSound | crates/sql/src/plan.rs:843-901 | A residual renamed to the oriented ports has the same value on every pair of rows |
| Expressions.RewriteColumnsSound | crates/sql/src/plan.rs:903-925 | Renaming by position evaluates alike on every row, given equal arity and unique physical names |
| Relational.EquiJoinIsSqlJoin | crates/operation/src/operation/transform/equi_join/runtime/output.rs:11-65 | On the left-preserving kinds the operator's fragments, laid out as rows, are SQL's joined table |
| Relational.RightJoinBySwapping | crates/sql/src/plan.rs:767-825 | A right join is the left join of the swapped inputs with its columns put back |
| OperatorSteps.DirectionSound | crates/sql/src/plan.rs:831-841 | The direction and exactness of a comparison operator accept exactly the pairs of values the operator accepts |
| OperatorSteps.AsOfSame | crates/sql/src/plan.rs:292-343 | With renamed keys, direction and exactness the operator finds the same eligible and the same closest rows, and so the same bag, as the logical ASOF join |
| SharedScans.ScanProjections | crates/sql/src/plan.rs:618-653 | Per source, the sorted union of exactly the columns some occurrence needs; it fails only for a source that does not occur |
| SharedScans.Locate | crates/sql/src/plan.rs:504-516 | Binary search finds every needed column of an occurrence, and fails exactly when one is missing |
| SharedScans.SelectCompose | crates/sql/src/plan.rs:504-516 | Selecting an occurrence's columns from the shared projection equals selecting them from the source |
| Plans.MeaningTyped | crates/sql/src/plan.rs:225-290 | Every plan's rows have its schema's types, which is what makes key equality exact |
| Dataflow.EvaluatePrefix | crates/sql/src/plan.rs:591-615 | Declaring more operators changes no relation declared before |
| JoinWeights.WeightIsMultiplicity | crates/operation/src/operation/transform/equi_join/runtime/output.rs:11-96 | The pointwise weight of every pair and every lone row equals its multiplicity in the join's bag |
| JoinPages.QualifyingStep | crates/operation/src/operation/transform/equi_join/runtime/output.rs:132-205 | One qualifying candidate moves exactly its pair and its opposite row's padding or existence row, each to its new weight |
| JoinPages.FinalStep | crates/operation/src/operation/transform/equi_join/runtime/output.rs:141-158 | With every candidate processed, the row's own output brings every fragment to its new weight |
| JoinPages.CandidateInTurn | crates/operation/src/operation/transform/equi_join/runtime/output.rs:160-197 | What one candidate emits is about it alone, and where it emits two differences the first retracts and the second inserts |
| JoinPages.CandidateProper | crates/operation/src/operation/transform/equi_join/runtime/output.rs:160-197 | A candidate shows its pair and its correction at most once each, never with difference zero |
| JoinRuntime.AdjustMatch | crates/operation/src/operation/transform/equi_join/runtime.rs:557-581 | A support count moves with a presence edge, and its reported transition is the change of matched status |
| JoinRuntime.CountsEnd | crates/operation/src/operation/transform/equi_join/runtime.rs:472-555 | After the last page the counts of both sides are the true supports |
| JoinRuntime.EmitMatches | crates/operation/src/operation/transform/equi_join/runtime/output.rs:132-208 | A page's matches take the output from the candidates done before to the candidates done after it |
| EquiJoinKernel.ResidualPage | crates/operation/src/operation/transform/equi_join/runtime.rs:359-397 | A page under a residual advances output, counts and cursor together, and emits its matches in the order of its candidates; it is refused exactly when some fragment on it changes its multiplicity by more than a 64-bit difference, or for a crowded support count |
| EquiJoinKernel.KeysPage | crates/operation/src/operation/transform/equi_join/runtime/matches.rs:22-69 | A page without a residual decides matches by key presence alone and advances output and cursor together; it is refused exactly when some fragment on it changes its multiplicity by more than a 64-bit difference |
| EquiJoinKernel.TooLargeIff | crates/operation/src/operation/transform/equi_join/runtime/output.rs:211-213 | That limit in terms of the data: some candidate still to come meets the row, and its pair or the correction its changed status calls for is outside 64 bits |
| JoinPages.FitsUnlessOversized | crates/operation/src/operation/transform/equi_join/runtime/output.rs:198-213 | Every emitted difference is the whole change of one fragment, so a page fits exactly when no change it accounts for is oversized |
| EquiJoinKernel.StableEvent | crates/operation/src/operation/transform/equi_join/runtime.rs:605-623 | A left-only join reads the stored support of a row whose presence does not change, and needs no candidates |
| EquiJoinKernel.KeyPresentAfter | crates/operation/src/operation/transform/equi_join/runtime.rs:275-312 | The first and last edges read off the partition are exactly the changes of the key's presence |
| JoinOperation.EventPage | crates/operation/src/operation/transform/equi_join/runtime.rs:342-437 | Each page of an event leaves a resumable state that accounts for exactly the candidates before the cursor, or a settled one; its entries follow the order of the page's candidates, retractions first, the row itself last, no fragment twice and no difference zero; negative, overflowing and oversized outcomes are refused exactly |
| JoinOperation.RunEvents | crates/operation/src/operation/transform/equi_join/runtime.rs:318-466 | A transaction applies exactly the events up to its resume point, none of which breaks a limit, emits no zero difference, and moves on whenever it admits one; it is refused only at the first event that breaks a limit as the relation then stands, and succeeds whenever no event does |
| JoinOperation.EquiJoinOperation.Step | crates/operation/src/operation/transform/equi_join/runtime.rs:318-466 | Commits all of a transaction or nothing, emits only differences that are not zero, refuses only what breaks a limit, and keeps the durable invariant |
| JoinOperation.CommittedIsJoin | crates/operation/src/operation/transform/equi_join/runtime.rs:52-69 | With no event in progress, the committed differences of every fragment add up to its multiplicity in the join of the committed relations |
| JoinMeaning.OperationComputesNode | crates/operation/src/operation/transform/equi_join/runtime.rs:203-273 | An operation bound to a node's keys and residual has emitted exactly the node's dataflow meaning |
| Checkpoints.Validate | crates/debezium/src/checkpoint.rs:80-143 | Accepts exactly the byte strings that hold, byte position by byte position, a legal image - magic, version, engine name, connector class, count, entries and checksum in this order - and nothing else |
| Checkpoints.StoredIff | crates/debezium/src/checkpoint.rs:80-143 | The layout by byte positions, written without the encoder, holds of exactly the encoding of a legal image |
| Checkpoints.EncodingUnique | crates/debezium/src/checkpoint.rs:80-143 | An accepted byte string is the encoding of one image only |
| Checkpoints.KeysDistinct | crates/debezium/src/checkpoint.rs:115-125 | Adjacent strict order makes all offset keys distinct and sorted |
| Checkpoints.Matches | crates/debezium/src/checkpoint.rs:51-59 | Equals comparison with the parsed binding, and never reads into the entry count or the checksum |
| WireInput.Input.ReadNullable | crates/debezium/src/protocol.rs:72-88 | Recovers the one nullable field written there, or shows that there is none; null differs from empty |
| WireInput.Input.Take | crates/debezium/src/checkpoint.rs:155-166 | Advances past exactly the requested bytes, or leaves the cursor in place |
| WireInput.NullableIff | crates/debezium/src/protocol.rs:72-88 | A nullable field is its four length bytes, all ones for null, and then exactly its bytes |
| Deliveries.DecodeDelivery | crates/debezium/src/protocol.rs:15-70 | Returns a delivery exactly for the byte strings within the limit that hold it, byte position by byte position: magic, version, checkpoint, count, then of each record the topic and after it the value, each behind its two's complement length; refuses everything else, as too large exactly by length |
| Deliveries.StoredIff | crates/debezium/src/protocol.rs:15-110 | The layout by byte positions, written without the encoder, holds of exactly the encoding of a legal delivery |
| Deliveries.EncodingUnique | crates/debezium/src/protocol.rs:15-110 | A delivery has one encoding and an encoding one delivery |
| ConnectorConfigs.MinimumHolds | crates/debezium/src/config.rs:123-145 | No decodable delivery of a binding is shorter than the minimum |
| ConnectorConfigs.MinimumAttained | crates/debezium/src/config.rs:123-145 | A legal delivery of exactly the minimum length exists, for every binding and every checkpoint |
| ConnectorConfigs.FitsIffMinimum | crates/debezium/src/config.rs:75-85 | Some delivery of a binding fits a limit if and only if the limit is at least the minimum |
| ConnectorConfigs.NewConfig | crates/debezium/src/config.rs:28-41 | Refused exactly when the binding could not appear in a checkpoint; the default limit always has room |
| ConnectorConfigs.ConnectorConfig.Property | crates/debezium/src/config.rs:52-69 | Reserved and blank keys are refused, and no property can replace the binding |
| ConnectorConfigs.ReservedIff | crates/debezium/src/config.rs:182-201 | The reserved keys are three names and eight prefixes, each prefix alone or followed by a dot |
| ConnectorConfigs.ConnectorConfig.MaxDeliveryBytes | crates/debezium/src/config.rs:75-85 | Accepted exactly between the minimum and the largest Java integer; the invariant holds after any call |
| ConnectorConfigs.ConnectorConfig.ValidateDeliveryBound | crates/debezium/src/config.rs:99-111 | A start is accepted exactly when the smallest delivery that keeps the checkpoint fits |
| Connectors.Connector.Poll | crates/debezium/src/connector.rs:93-137 | Grants exactly the well-formed deliveries for this binding, poisons on malformed, foreign or fatal answers, and asks the host only when usable and nothing is held; each error it returns is named by the state and the host's answer |
| Connectors.Connector.Receive | crates/debezium/src/connector.rs:114-129 | Decodes and checks the binding: valid, foreign and malformed answers are told apart |
| Connectors.Connector.Ack | crates/debezium/src/connector.rs:175-192 | Consumes the delivery; only the outstanding capability reaches the host. It succeeds if and only if the host was asked and did not fail; the host's failure is returned and poisons, and a refusal has the kind its cause demands |
| Connectors.Connector.Stop | crates/debezium/src/connector.rs:152-162 | Invalidates the outstanding capability whatever the host answers, and returns exactly the host's answer |
| CapabilityRuns.RunsAreSafe | crates/debezium/src/connector.rs:93-204 | Every log of every run over any number of connectors is safe |
| CapabilityRuns.AckedAtMostOnce | crates/debezium/src/connector.rs:175-192 | No capability is acknowledged at the host twice, on any connectors |
| CapabilityRuns.AckedWhereGranted | crates/debezium/src/connector.rs:152-192 | An acknowledged capability was granted by the same connector, with no stop attempt, poisoning, consumption or later grant in between |
| CapabilityRuns.PoisonedIsSilent | crates/debezium/src/connector.rs:194-204 | After poisoning neither a poll nor an acknowledgement reaches the host |
| CapabilityRuns.AckReachesIffOpen | crates/debezium/src/connector.rs:175-192 | A live delivery reaches the host exactly when its grant is still open and its connector not poisoned |
| CapabilityRuns.PollReachesIff | crates/debezium/src/connector.rs:93-137 | After any run a poll asks the host exactly when the connector runs, was never poisoned and has no grant that is still open, and issues a capability exactly for a valid answer |
| CapabilityRuns.OneConnector | crates/debezium/src/connector.rs:175-182 | No delivery can be acknowledged on two connectors |
| CaptureRuns.CapturesExactlyOnce | system-tests/debezium-postgres/gate.py:418-580 | With crashes, stops and failed acknowledgements anywhere, the durable log is the source prefix named by the durable checkpoint - in every run that does not poll on in a session whose engine missed a stop while a delivery was held |
| CaptureRuns.RestartAfterFailedStop | crates/debezium/src/connector.rs:139-162 | The same for every client that, after a stop that did not succeed, does not poll before a restart, whatever the timeouts and the bridge's answers |
| CaptureRuns.RepresentableTimeoutsSuffice | crates/debezium/src/jvm.rs:438-445 | The same for every run whose stops have representable timeouts and a working bridge |
| CaptureRuns.UnrepresentableStopRepeats | crates/debezium/src/jvm.rs:438-445 | From the start, a stop of more than i64::MAX milliseconds lets the batch that was held be recorded twice, for every source and timeout |
| CaptureRuns.WithoutPoisoningRepeats | crates/debezium/src/connector.rs:183-189 | Without poisoning, a late acknowledgement lets a batch be recorded twice, from every state that awaits one |
| CaptureRuns.RiskyIffUnheard | crates/debezium/src/connector.rs:152-162 | A step has a continuation with working stops that breaks exactly-once capture if and only if it is a stop whose timeout exceeds i64::MAX milliseconds or whose bridge call fails, while the engine serves and a delivery is held |
| CaptureRuns.RestartCaptures | crates/debezium/src/jvm.rs:95-130 | From every reachable state a restart from the durable checkpoint captures the next record |
| CaptureRuns.CycleCaptures | crates/debezium/src/connector.rs:93-192 | From every reachable ready state one cycle of poll, record and acknowledgement makes the offered records durable, names them in the checkpoint and is ready again |
| CaptureRuns.FailedAckSilences | crates/debezium/src/connector.rs:183-192 | An acknowledgement without an answer of success poisons, and the next poll changes nothing |
| LayoutValidation.ValidateLayout | crates/change/src/codec/batch.rs:121-140 | Accepts exactly the canonical descriptors of some shape the schema admits, all of them used and the body covered - equivalently, exactly the descriptors that stand as they must at every index |
| LayoutValidation.CanonicalIffStands | crates/change/src/codec/batch.rs:121-213 | Being canonical for some admitted shape is the same as a reference by index: each field's node and buffers at their counted places with the demanded lengths and null counts, and the buffers tiling the body |
| LayoutValidation.ConsumeField | crates/change/src/codec/batch.rs:142-213 | Reads exactly the descriptors of one admitted shape of the field, or no admitted shape within the body starts here |
| LayoutValidation.LayoutCursor.NextBuffer | crates/change/src/codec/batch.rs:77-104 | Takes a buffer exactly at the running aligned offset, with the expected length and within the body |
| LayoutValidation.DescriptorsUnique | crates/change/src/codec/batch.rs:121-213 | Given schema, nodes and variable-width byte counts, at most one buffer vector and body length is accepted |
| Layouts.PlacementSound | crates/change/src/codec/batch.rs:77-104 | Accepted buffers are ordered, eight-aligned, disjoint and inside the body |
| Layouts.PlacementTiles | crates/change/src/codec/batch.rs:77-118 | They tile the body from its start with every gap under eight bytes, the last one included |
| Layouts.ShapeDetermined | crates/change/src/codec/batch.rs:142-213 | Nodes with all, or only the variable, buffer lengths determine the shape and where its descriptors end |
| Layouts.BitmapFewest | crates/change/src/codec/size.rs:107-112 | A bitmap takes the fewest bytes that hold its bits |
| BodySizes.BodyLenBounded | crates/change/src/codec/size.rs:7-37 | Succeeds with the true padded body size exactly when it is within the limit, where the size is the sum over all buffers of the bytes of exactly the slots that the windows address; no checked operation refuses a change that fits |
| BodySizes.ShapeIsSlotwise | crates/change/src/codec/size.rs:39-102 | At every nesting the variable bytes are the sum, over the slots in the window, of the bytes of exactly the child slots between consecutive offsets |
| BodySizes.BodyIsSlotwise | crates/change/src/codec/size.rs:7-102 | The canonical end of a whole change's buffers is that slot-wise sum |
| BodySizes.Visit | crates/change/src/codec/size.rs:39-75 | Charges an array of any nesting to exactly where its canonical buffers end, or shows that this passes the limit |
| BodySizes.ChangeIsCanonical | crates/change/src/codec/size.rs:39-106 | The canonical descriptors of every well-formed change are accepted, for a body of exactly the calculated size |
| BodySizes.AcceptedBodyIsExact | crates/change/src/codec/batch.rs:106-118 | Any body length the validator accepts for a change's nodes is the calculated one |
| BodySizes.SliceKeeps | crates/change/src/codec/size.rs:59-67 | A window of a well-formed array, at any nesting, is well formed |
| BodySizes.ShapeFits | crates/change/src/codec/batch.rs:161-175 | Nulls masked slot by slot satisfy the validator's counting check |
| BoundedEncoding.EncodeBounded | crates/change/src/codec/bound.rs:100-128 | Returns the plain encoding exactly when the whole entry is within the limit, and otherwise the size error; the body check refuses nothing that fits |
| BoundedEncoding.EntryIs | crates/change/src/codec/bound.rs:100-128 | What an entry holds at which bytes: marker, fingerprint, the message and the end-of-stream marker |
| BoundedEncoding.PieceStands | crates/change/src/codec/stream.rs:60-80 | A message written in pieces holds each piece where the pieces before it end |
| BoundedEncoding.BoundedWriter.WriteAll | crates/change/src/codec/stream.rs:60-80 | Writing in pieces succeeds exactly when all of them fit, and stops only because of the limit |
| Schemas.ValidateSchema | crates/change/src/schema.rs:63-68 | Succeeds exactly on schemas within all totals and depth 60, with unique names and legal types, timezones, decimals and prefixes everywhere |
| Schemas.ValidIffAccepted | crates/change/src/schema.rs:61-334 | The predicate restated over all fields below the schema, each named by its path: every one of them acceptable on its own and the totals within their budgets |
| Schemas.ValidateField | crates/change/src/schema.rs:193-251 | Charges a whole subtree exactly, and accepts it exactly when totals, depth and legality allow |
| Schemas.ValidateChildren | crates/change/src/schema.rs:162-191 | Unique names per scope; the early field count never changes acceptance |
| Schemas.SchemaBudget.ValidateMetadata | crates/change/src/schema.rs:305-334 | Charges every entry and refuses exactly reserved keys and exceeded totals |
| Changes.TryNew | crates/change/src/change.rs:36-71 | Accepts exactly the valid changes |
| Changes.SoundIff | crates/change/src/change.rs:36-71 | Over a well-formed batch a valid change is one with a difference for every row, none missing and none zero, no reserved name and only fitting decimals |
| Changes.SliceIsValid | crates/change/src/change.rs:102-119 | Slicing succeeds exactly on a non-empty range inside the change, and the slice is valid without a check |
| Changes.SliceRows | crates/change/src/change.rs:102-119 | Row j of a slice is row offset + j of the change: its difference and, at any nesting, what each column shows |
| Changes.ChangeSlicesCompose | crates/change/src/change.rs:102-119 | A slice of a slice is one slice |
| Changes.ProjectIsValid | crates/change/src/change.rs:132-143 | A projection succeeds exactly on its own schema and is valid without a check |
| Changes.ProjectPicks | crates/change/src/change.rs:132-143 | Column k of a projection is column indices[k], with its field, the differences and the metadata unchanged |
| Changes.SliceCommutesWithProject | crates/change/src/change.rs:102-143 | Slicing commutes with projecting |
| Changes.NewProjection | crates/change/src/projection.rs:36-65 | Accepts exactly strictly increasing indices in range of a valid schema |
| Changes.IdentityByLength | crates/change/src/projection.rs:89-91 | For such indices the length alone tells the identity |
| Changes.FastPathIsGeneral | crates/operation/src/expression.rs:186-220 | The column path returns on every valid input what evaluating every expression and rebuilding the change returns |
| Changes.GeneralPathMeans | crates/operation/src/expression.rs:186-220 | The general path returns the values of each expression in order under the output schema, and each failure has its cause: the schema, an expression that fails, or a rebuilt batch or change that is not valid |
| Changes.Bind | crates/operation/src/expression.rs:149-184 | The column path is chosen exactly for increasing column references that give the output schema |
| Changes.Evaluate | crates/operation/src/expression.rs:186-220 | Either path gives the result of the general one; the column path cannot fail on its own schema |
| Arrays.ValidateDecimals | crates/change/src/change.rs:221-296 | Decides whether every non-null decimal slot in the window, also under NULL parents, fits its precision |
| Arrays.SliceDecimals | crates/change/src/change.rs:102-119 | A slice shows no decimal that the original does not, at any nesting |
| Arrays.SliceShows | crates/change/src/change.rs:102-119 | Slot k of a window shows, at any nesting, what slot offset + k of the array shows |
| Arrays.DecimalsShown | crates/change/src/change.rs:221-296 | The decimals to be checked are exactly those that some slot of the window shows |
| Arrays.SlicesCompose | crates/change/src/change.rs:102-119 | Windows of nested arrays compose |
| Arrays.PrecisionFits | crates/change/src/change.rs:238-252 | The bound of every legal precision fits a 128-bit integer |
| StoreKeys.U32Keys | crates/store/src/codec.rs:115-143 | Keys order byte for byte as the integers, are injective and decode back |
| StoreKeys.U64Keys | crates/store/src/codec.rs:115-147 | The same for 64-bit integers |
| StoreKeys.I64Keys | crates/store/src/codec.rs:164-179 | The same for signed integers |
| StoreKeys.I64IsShifted | crates/store/src/codec.rs:164-169 | Flipping the top bit of the two's complement encoding is a shift by 2^63 |
| StoreKeys.UnsignedDecodes | crates/store/src/codec.rs:136-142 | Exactly the strings of the right length decode, each to the integer it encodes |
| StoreKeys.I64Decodes | crates/store/src/codec.rs:171-178 | The same for signed integers |
| BigEndian.DecodeMonotone | crates/store/src/codec.rs:47-71 | Strings of equal length are ordered as the integers they encode |
| EndpointArguments.ParseArguments | crates/sql/src/endpoint.rs:1011-1088 | Accepts exactly the lists whose arguments are known, well formed, unique and complete, and gives each name its value or default |
| EndpointArguments.GivesReads | crates/sql/src/endpoint.rs:1011-1088 | Each name reads as the literal or environment argument that was written for it, and otherwise as its default |
| EndpointArguments.OrderIrrelevant | crates/sql/src/endpoint.rs:1011-1088 | Two readings of the same arguments agree on every name |
| ProgramIdentities.Identity | crates/sql/src/program.rs:144-156 | Writes exactly the identity stream |
| ProgramIdentities.IdentityStands | crates/sql/src/program.rs:144-156 | The stream byte by byte: domain and query, the number of scans, every scan where the one before it ends, and the sink, each by its tag and its fields in order |
| ProgramIdentities.PostgresResolvesIff | crates/sql/src/endpoint.rs:446-490 | Which arguments resolve to a given Postgres scan: the connection, two nonempty table components, legal identifiers and a spool above zero |
| ProgramIdentities.MySqlResolvesIff | crates/sql/src/endpoint.rs:446-490 | The same for MySQL, whose table names the connection's database |
| ProgramIdentities.TableSinkResolvesIff | crates/sql/src/endpoint.rs:679-717 | Which arguments resolve to a given ClickHouse, Doris or Postgres sink; the first two demand the connection's database as namespace |
| ProgramIdentities.IdentityIsInjective | crates/sql/src/program.rs:144-156 | Equal streams mean equal query, equal scan lists and equal sink, as far as identity goes |
| ProgramIdentities.SameStreamIff | crates/sql/src/endpoint.rs:446-490 | End to end, over endpoints as written: two programs that resolve, each in its world, have equal streams if and only if they have the same query and the same list of endpoints with the same resolved identity-relevant arguments, table arguments included |
| ProgramIdentities.ScanPrefix | crates/sql/src/endpoint.rs:565-586 | A scan's encoding ends where it says and determines its identity-relevant fields |
| ProgramIdentities.SinkDetermined | crates/sql/src/endpoint.rs:820-851 | A sink's encoding determines its table, the namespace that is not written included |
| ProgramIdentities.SinkRecovered | crates/sql/src/endpoint.rs:679-717 | Resolving forces the unwritten namespace to the database, so the table argument is recovered |
| ProgramIdentities.ScanRecovered | crates/sql/src/endpoint.rs:446-490 | The same for the scans |
| ProgramIdentities.QualifiedIff | crates/sql/src/endpoint.rs:919-932 | A qualified table is exactly two nonempty components around one dot |
| ProgramIdentities.ArgumentOrderIrrelevant | crates/sql/src/endpoint.rs:446-490 | Reordering named arguments never changes what an endpoint resolves to |
| ProgramIdentities.DerivedIsInjective | crates/sql/src/endpoint.rs:990-1009 | Derived names come from different streams for different domains, programs, state paths and positions |
| ProgramIdentities.DerivedStands | crates/sql/src/endpoint.rs:990-1009 | The derived stream byte by byte: domain, identity and path behind their lengths, then the position |

## Left out

- DataFusion parsing, type coercion and optimisation: the model starts from plans that meet `Plans.WellFormed`, which states what the planner guarantees.
- Expressions.KeyEquality: is a stated assumption of the model rather than a result. On the supported key types (`supports_key_type`) SQL `=` is taken to be equality of values; that canonical key bytes agree with it is not modelled.
- The factory's checks beyond arity, names and key types (nullability, replayability, reserved names) are an arbitrary `Binder`; it may refuse any operator (`Rejected`), the theorems hold for whatever it accepts, and success is promised for one that refuses nothing more. The order in which several errors would be reported is not modelled.
- Physical types are kept as far as lowering distinguishes them; equality of values stands for equality of canonical key bytes.
- QueryLowering.Lowerer.LowerAsOfJoin: the meaning keeps every closest row, while the runtime refuses an ambiguous tie; `Relational.UntiedRow` shows that they agree where there is none.
- The runtimes of aggregate, distinct, ASOF join, union, sinks and flow frames: only their bag meaning is used, by the lowering proofs.
- Byte budgets of join pages: a page's boundary is whatever the store's bounded scan returns (`JoinRuntime.PageOf`), and how many events a transaction admits is a parameter. Encoding of rows and keys, and validation of a foreign resume cursor, are not modelled.
- JoinOperation.EquiJoinOperation.Step: states the net difference of every output fragment, and no zero entry; the order of entries is stated page by page (`JoinOperation.EventPage`) and not again for a whole transaction.
- JNI, JVM hosting, bundle checks and property serialisation: their answers are parameters. CRC-32, UTF-8 validity and blankness are arbitrary functions of bytes; nothing depends on which.
- Connectors.Connector.Ack: the 30 second timeout is one of the failures the host may answer with.
- CaptureRuns.CapturesExactlyOnce: excludes runs that poll on in a session whose engine missed a stop while a delivery was held, since there it is false (`CaptureRuns.UnrepresentableStopRepeats`). The client is the one the operation layer has - it polls only when it holds nothing, records before it acknowledges, and gives a held delivery up on restart; batch conversion and queue capacity are outside.
- EquiJoinKernel.ResidualPage: a crowded support count (more distinct rows than a 64-bit count holds) is stated as a necessary condition of `MatchCountOverflow`, not a sufficient one.
- ProgramIdentities.SameStreamIff: texts are taken to be shorter than 2^64 bytes.
- Fields, schemas and arrays are modelled three times, as the three crates see them: by name and SQL type (`Expressions`), by physical layout (`Layouts`, `BodySizes`) and by what validation charges (`Schemas`, `Arrays`). No lemma converts one view into another.
- Snapshot phases of the CDC sources (begin, reset, seal) are not modelled.
- Arrow array kernels and flatbuffers: arrays are windows over validity, offsets and children, and framing of the message is given as pieces of bytes. Dictionary, compressed and variadic layouts are refused by the source before this code.
- BoundedEncoding.EncodeBounded: `parse` and `decode` of a bound entry beyond the layout check are not modelled.
- Diagnostic paths and messages of schema, decimal and endpoint errors: success, failure and, where callers depend on it, the kind of error.
- `StoreKey` for byte strings and text, and the value codecs for bool and unit: the encoding is the identity or one byte.
- BLAKE3 and SHA-256: theorems are about the bytes that are hashed.
- URL parsing, decimal parsing and the environment are arbitrary functions (`ProgramIdentities.World`); the canonical rendering of the query text is taken as given.
- CDC tuning options: they do not belong to a program's identity.

# TransferBDD: the routing-policy compiler of Minesweeper

Batfish's Minesweeper verifier turns a device's routing policy into a symbolic transfer
function. `TransferBDD` walks the policy's boolean match expressions and statements. It builds
binary decision diagrams (BDDs) over the variables of an input route: whether the route is
accepted, and what its metric, local preference, administrative distance, MED and communities
become. Communities are represented by atomic predicates, one boolean per predicate.

The compiler never branches on the value of a diagram. Every diagram it builds is therefore
determined pointwise. This model fixes one assignment of the diagram variables and evaluates
the compiler there:

- a BDD is a `bool`;
- a 32-bit `BDDInteger` is a `u32` with explicit wrap-around;
- a `BDDDomain` is an enumeration value;
- `ite` is a conditional.

Everything proved holds at every assignment, and so for the diagrams.

Files:

- `common.dfy`: errors, `Result`, and 32-bit arithmetic. Most errors are a `BatfishException`
  or a null dereference in the compiler. `NotALiteralInt` is a failed cast, and
  `EmptyProtocolSet` is the `NoSuchElementException` of taking the only element of an empty
  set. `CallDepthExceeded` has no counterpart in the compiler: it is where the model's call
  bound runs out.
- `routes.dfy`: the route record (`BDDRoute`) as a value and as a mutable class (`RouteRecord`,
  whose atomic-predicate array the community statements write in place), and the merge
  algebra `ite`, `iteZero`, `zeroedRecord`.
- `policy.dfy`: the policy language, and the configuration and graph data the compiler consults.
- `matchers.dfy`: `firstBitsEqual`, `isRelevantFor`, the filter-list, community-list,
  prefix-set and community-set matchers, and `atomicPredicatesFor`. Each loop is a method proved
  equal to a specification function or predicate.
- `transfer.dfy`: both `compute` overloads as specification functions, together with
  `returnValue`, `fallthrough`, `fromExpr`, `applyLongExprModification` and `prependLength`.
- `interpreter.dfy`: the statement loop as the compiler runs it. A mutable working record is
  updated in place, `If` branches run on deep copies, and the merges build new records. Each
  method is proved equal to the specification.
- `properties.dfy`: lemmas about the specification, from first-match semantics to concrete
  policies.

Results carry two flags, returnAssigned and fallthrough. The statement compiler sets both
(lines 403-408), so a statement list's result (`TResult`) holds two booleans. Expressions
build their result with `TransferResult`'s generic no-argument constructor, which leaves both
null. `fromExpr` (716-720) sets only returnAssigned, and the `Conjunction`/`Disjunction` and
chain results set neither. An expression's result (`ExprResult`) therefore holds
`Option<bool>` flags, where `None` is null. A policy call returns its statement list's result
with both flags set, and `Not` and `WithEnvironment` keep their operand's flags. Chains read
each clause's fallthrough (lines 246, 277). Where it is null the compiler fails on a
null dereference, and the model gives `UnsetFallthrough`. Only a clause that is a policy
call, possibly under `Not` or `WithEnvironment`, can take part in a chain that compiles.

Two record references are kept apart, as in the compiler:

- the working record `curP.getData()`, which statements write;
- the record the result refers to.

The result starts out referring to the working record. After the first `If` it refers to a
freshly merged record, which the rest of that statement list no longer writes. A chain still
hands such a record to its next clause, as that clause's working record. `RecordRef` (`Working`
or `Merged(route)`) tracks this.

A freshly allocated `BDDRoute` denotes the input route's variables (`env.input`).

The route merge `ite(guard, r1, r2)` (TransferBDD.java:773-816) carries only administrative
distance, local preference, metric, MED and the atomic predicates. Prefix, prefix length,
protocol history and OSPF type are those of the fresh record, that is, the input's. A rejected
route therefore keeps the input's prefix, prefix length, protocol and OSPF type, with the other
fields zero (`Properties.ComputeOutput`).

## Model

| member | source | states |
|---|---|---|
| Common.FromLong | projects/minesweeper/src/main/java/org/batfish/minesweeper/bdd/TransferBDD.java:137-141 | a long literal becomes the 32-bit value congruent to it modulo 2^32 |
| Common.Add32 | projects/minesweeper/src/main/java/org/batfish/minesweeper/bdd/TransferBDD.java:147-156 | 32-bit addition is the exact sum below 2^32 and wraps by 2^32 above it |
| Common.Sub32 | projects/minesweeper/src/main/java/org/batfish/minesweeper/bdd/TransferBDD.java:142-146 | 32-bit subtraction is the exact difference when non-negative and wraps by 2^32 below zero |
| Routes.Ite | projects/minesweeper/src/main/java/org/batfish/minesweeper/bdd/TransferBDD.java:746-765 | `ite` over BDDs, integers and domains picks the first value where the guard holds and the second elsewhere |
| Routes.IteRoute | projects/minesweeper/src/main/java/org/batfish/minesweeper/bdd/TransferBDD.java:773-816 | the merged route carries administrative distance, local preference, metric, MED and every atomic predicate from r1 where the guard holds and from r2 elsewhere; prefix, prefix length, protocol history and OSPF type are the fresh record's (the input's) |
| Routes.MergeRecords | projects/minesweeper/src/main/java/org/batfish/minesweeper/bdd/TransferBDD.java:773-816 | the loop that fills the new record's atomic-predicate array builds exactly `IteRoute` |
| Routes.Zeroed | projects/minesweeper/src/main/java/org/batfish/minesweeper/bdd/TransferBDD.java:981-994 | metric, local preference, administrative distance, MED, prefix and prefix length are 0, the protocol is the domain's first value, and every atomic predicate is false |
| Routes.NewZeroedRecord | projects/minesweeper/src/main/java/org/batfish/minesweeper/bdd/TransferBDD.java:981-994 | the array-clearing loop builds exactly `Zeroed` |
| Routes.IteZero | projects/minesweeper/src/main/java/org/batfish/minesweeper/bdd/TransferBDD.java:768-770 | where the guard holds the merged fields are the route's; elsewhere they and every atomic predicate are zero |
| Routes.AddCommunities | projects/minesweeper/src/main/java/org/batfish/minesweeper/bdd/TransferBDD.java:609-626 | on an unreturned route the resolved predicates become true and the others keep their value; on a returned route nothing changes |
| Routes.SetCommunities | projects/minesweeper/src/main/java/org/batfish/minesweeper/bdd/TransferBDD.java:628-644 | on an unreturned route predicate i becomes `i in resolved`; on a returned route nothing changes |
| Routes.DeleteCommunities | projects/minesweeper/src/main/java/org/batfish/minesweeper/bdd/TransferBDD.java:646-660 | on an unreturned route the resolved predicates become false and the others keep their value; on a returned route nothing changes |
| Routes.RouteRecord.Copy | projects/minesweeper/src/main/java/org/batfish/minesweeper/bdd/TransferBDD.java:502-503 | `deepCopy`: a record with the same value and a fresh atomic-predicate array |
| Routes.RouteRecord.Overwrite | projects/minesweeper/src/main/java/org/batfish/minesweeper/bdd/TransferBDD.java:496 | the working record takes the value the guard's compilation left in it, in place (a called policy writes the caller's record) |
| Routes.RouteRecord.AddCommunity | projects/minesweeper/src/main/java/org/batfish/minesweeper/bdd/TransferBDD.java:609-626 | the in-place array update leaves the record equal to `AddCommunities` of its old predicates, all other fields unchanged |
| Routes.RouteRecord.SetCommunity | projects/minesweeper/src/main/java/org/batfish/minesweeper/bdd/TransferBDD.java:628-644 | the in-place array update leaves the record equal to `SetCommunities` of its old predicates, all other fields unchanged |
| Routes.RouteRecord.DeleteCommunity | projects/minesweeper/src/main/java/org/batfish/minesweeper/bdd/TransferBDD.java:646-660 | the in-place array update leaves the record equal to `DeleteCommunities` of its old predicates, all other fields unchanged |
| Matchers.FirstBitsEqual | projects/minesweeper/src/main/java/org/batfish/minesweeper/bdd/TransferBDD.java:118-130 | the conjunction loop holds exactly when the first `length` bits equal the prefix's bits (true for length 0) |
| Matchers.AtomicPredicatesFor | projects/minesweeper/src/main/java/org/batfish/minesweeper/bdd/TransferBDD.java:167-171 | succeeds exactly when every variable is known to the graph; the result is the union of their predicate sets, all below the predicate count |
| Matchers.ToRegexCommunityVar | projects/minesweeper/src/main/java/org/batfish/minesweeper/bdd/TransferBDD.java:1015-1025 | a regex is kept, an exact community becomes the anchored regex of its text, any other kind is an error |
| Matchers.MatchCommunityList | projects/minesweeper/src/main/java/org/batfish/minesweeper/bdd/TransferBDD.java:821-841 | the reverse fold computes exactly the first-match specification, including its errors |
| Matchers.CommunityListErrorSpreads | projects/minesweeper/src/main/java/org/batfish/minesweeper/bdd/TransferBDD.java:821-841 | an error on a later line is the whole list's error, since the fold visits later lines first |
| Matchers.CommunityListFirstMatch | projects/minesweeper/src/main/java/org/batfish/minesweeper/bdd/TransferBDD.java:821-841 | the list succeeds iff every line converts; it permits iff some line matches and permits and no earlier line matches; false if none matches |
| Matchers.MatchFilterList | projects/minesweeper/src/main/java/org/batfish/minesweeper/bdd/TransferBDD.java:885-905 | the reverse fold computes exactly the first-match specification, including the non-prefix-wildcard error |
| Matchers.FilterListErrorSpreads | projects/minesweeper/src/main/java/org/batfish/minesweeper/bdd/TransferBDD.java:885-905 | a non-prefix wildcard on a later line is the whole list's error |
| Matchers.FilterListFirstMatch | projects/minesweeper/src/main/java/org/batfish/minesweeper/bdd/TransferBDD.java:885-905 | the list succeeds iff every line is a prefix wildcard; it permits iff the earliest matching line permits; ignored networks never match |
| Matchers.RelevantFor | projects/minesweeper/src/main/java/org/batfish/minesweeper/bdd/TransferBDD.java:730-741 | `firstBitsEqual` over the route's address bits together with the length test computes exactly `IsRelevantFor` |
| Matchers.MatchExplicitPrefixSet | projects/minesweeper/src/main/java/org/batfish/minesweeper/bdd/TransferBDD.java:912-929 | the loop holds iff the set is empty or some non-ignored range is relevant for the route |
| Matchers.PrefixSetMatch | projects/minesweeper/src/main/java/org/batfish/minesweeper/bdd/TransferBDD.java:910-940 | an explicit set is its range test; a named set is its filter list, or an error when missing; any other set is an error |
| Matchers.MatchInlineCommunitySet | projects/minesweeper/src/main/java/org/batfish/minesweeper/bdd/TransferBDD.java:849-869 | the loop over collected variables holds iff every variable has some atomic predicate that the route carries |
| Matchers.CommunitySetMatch | projects/minesweeper/src/main/java/org/batfish/minesweeper/bdd/TransferBDD.java:846-880 | an inline list is the conjunction over its communities, a named set its community list or an error when missing, anything else an error |
| Transfer.FromExpr | projects/minesweeper/src/main/java/org/batfish/minesweeper/bdd/TransferBDD.java:716-720 | an expression result refers to the working record with the given accept value; returnAssigned is set to true and fallthrough is left unset (null) |
| Transfer.ReturnValue | projects/minesweeper/src/main/java/org/batfish/minesweeper/bdd/TransferBDD.java:969-974 | accept is kept where a return was reached and becomes `val` elsewhere; the record and fallthrough are untouched; returned becomes true |
| Transfer.Fallthrough | projects/minesweeper/src/main/java/org/batfish/minesweeper/bdd/TransferBDD.java:708-711 | fallthrough becomes true exactly where nothing returned and is kept elsewhere; accept and record untouched; returned becomes true |
| Transfer.ApplyLongExprModification | projects/minesweeper/src/main/java/org/batfish/minesweeper/bdd/TransferBDD.java:135-163 | a literal replaces the value, increments and decrements add or subtract at 32 bits, any other expression is an error |
| Transfer.PrependLength | projects/minesweeper/src/main/java/org/batfish/minesweeper/bdd/TransferBDD.java:952-964 | a literal list adds its length, a multiplied AS its literal count (a non-literal count is a failed cast), anything else is an error |
| Transfer.ChainItems | projects/minesweeper/src/main/java/org/batfish/minesweeper/bdd/TransferBDD.java:226-233 | the clauses are exactly the subroutines when no default policy is set, and the subroutines followed by a call of the default policy otherwise |
| Transfer.ChainParam | projects/minesweeper/src/main/java/org/batfish/minesweeper/bdd/TransferBDD.java:238-243 | a clause is compiled with no default policy, in chain context, one level deeper, with the caller's call context and default action |
| Transfer.SingleProtocols | projects/minesweeper/src/main/java/org/batfish/minesweeper/bdd/TransferBDD.java:292-312 | a multi-protocol match is split into one single-protocol match per protocol, in order |
| Transfer.ChainFold | projects/minesweeper/src/main/java/org/batfish/minesweeper/bdd/TransferBDD.java:222-281 | the right-to-left fold `acc = ite(fallthrough, acc, accept)` from false equals `ChainValue` of the clause results in chain order; an empty fold is false on the given records; each clause's result is `EvalExpr` of that clause, with `ChainParam`, on the record the later clauses left; every clause of a fold that succeeds has its fallthrough set |
| Transfer.ChainStep | projects/minesweeper/src/main/java/org/batfish/minesweeper/bdd/TransferBDD.java:244-247 | one fold step succeeds exactly when the clause's fallthrough is set, and fails with `UnsetFallthrough` (the null dereference at line 246) otherwise; the clause is prepended to the results and the fold's value stays `ChainValue` of them |
| Transfer.EvalLeaf | projects/minesweeper/src/main/java/org/batfish/minesweeper/bdd/TransferBDD.java:313-393 | the expressions that only test the route (also `MatchIpv4`/`MatchIpv6`, lines 180-190, and a single-protocol match, 292-312): none writes the record, each is marked returned and leaves fallthrough unset; IPv4 and AS-path matches are true, IPv6 matches false; an empty protocol set and an unknown expression are errors; a single protocol holds iff it maps to the route's protocol; prefix and community sets are their matchers, failing exactly when they fail; static booleans test the call context or are constant |
| Transfer.EvalExpr | projects/minesweeper/src/main/java/org/batfish/minesweeper/bdd/TransferBDD.java:177-393 | the expressions that only test the route are `EvalLeaf`; a call of a missing policy is `MissingPolicy`, and out of fuel `CallDepthExceeded`; an empty conjunction chain is true and an empty first-match chain an error; junctions and chains leave fallthrough unset; junctions and first-match chains also leave returnAssigned unset, and junctions refer to the working record; a policy call's result has both flags set; `WithEnvironment` writes nothing and refers to a merged record |
| Transfer.EvalJunction | projects/minesweeper/src/main/java/org/batfish/minesweeper/bdd/TransferBDD.java:192-219 | no operand leaves the accumulator and the record as they were; once false, a conjunction stays false, and once true, a disjunction stays true |
| Transfer.Finalize | projects/minesweeper/src/main/java/org/batfish/minesweeper/bdd/TransferBDD.java:687-704 | only the outermost call is finalized: without a top-level exit the default action is returned; the route keeps its merged fields where accepted and is zero where rejected; header fields are the input's |
| Transfer.MergeIf | projects/minesweeper/src/main/java/org/batfish/minesweeper/bdd/TransferBDD.java:511-552 | where a return was reached, record, accept and fallthrough keep their pre-`If` values; elsewhere the guard's branch supplies them; returned is `old or ite(guard, tReturned, fReturned)` |
| Transfer.IfStep | projects/minesweeper/src/main/java/org/batfish/minesweeper/bdd/TransferBDD.java:493-554 | an `If` succeeds only when its guard and both branches compile; the guard runs on the working record, both branches run on the record the result currently refers to (after the guard), the new result is `MergeIf` of them, and the working record is what the guard left; parameters and `doesReturn` are kept |
| Transfer.Step | projects/minesweeper/src/main/java/org/batfish/minesweeper/bdd/TransferBDD.java:412-684 | `SetMetric` fails exactly on an unsupported expression; on an unreturned route it writes the MED of a BGP route and the metric of any other, and on a returned route nothing; `SetOspfMetricType` writes type E1 on an unreturned route only; neither changes the result or the parameters |
| Transfer.ExecStmts | projects/minesweeper/src/main/java/org/batfish/minesweeper/bdd/TransferBDD.java:398-706 | a statement list compiles exactly when the loop `Run` does; an inner call returns the loop's result and record, and the outermost call's result refers to a merged (finalized) record |
| Transfer.Run | projects/minesweeper/src/main/java/org/batfish/minesweeper/bdd/TransferBDD.java:410-686 | the statement loop keeps every record shaped and the nesting depth unchanged |
| Transfer.StaticStep | projects/minesweeper/src/main/java/org/batfish/minesweeper/bdd/TransferBDD.java:412-491 | a static statement never writes the working record |
| Transfer.Compute | projects/minesweeper/src/main/java/org/batfish/minesweeper/bdd/TransferBDD.java:1000-1010 | the top-level result always refers to a merged (finalized) record |
| Interpreter.ComputeStmts | projects/minesweeper/src/main/java/org/batfish/minesweeper/bdd/TransferBDD.java:398-706 | the loop over statements, writing the working record in place, returns the specification's result and leaves the record with the specification's value, or fails with the same error |
| Interpreter.ExecStatement | projects/minesweeper/src/main/java/org/batfish/minesweeper/bdd/TransferBDD.java:412-684 | one statement, executed by updating the record's fields and array, agrees with `Step` |
| Interpreter.ExecIf | projects/minesweeper/src/main/java/org/batfish/minesweeper/bdd/TransferBDD.java:493-554 | the `If` statement, with guard writes landing in the working record, agrees with `IfStep` |
| Interpreter.RunBranches | projects/minesweeper/src/main/java/org/batfish/minesweeper/bdd/TransferBDD.java:500-509 | both branches run on deep copies of the current record, and their outcomes are the specification's |
| Interpreter.MergeBranches | projects/minesweeper/src/main/java/org/batfish/minesweeper/bdd/TransferBDD.java:511-552 | the merge through two new records is exactly `MergeIf` |
| Interpreter.ComputePolicy | projects/minesweeper/src/main/java/org/batfish/minesweeper/bdd/TransferBDD.java:1000-1010 | the compiler's entry point returns the specification's result for the policy |
| Properties.IncrementThenDecrement | projects/minesweeper/src/main/java/org/batfish/minesweeper/bdd/TransferBDD.java:142-151 | incrementing then decrementing the metric by the same constant restores it, across wrap-around |
| Properties.BitsAgreeIsSameNetwork | projects/minesweeper/src/main/java/org/batfish/minesweeper/bdd/TransferBDD.java:118-130 | the first n bits of two addresses agree iff the addresses divided by 2^(32-n) are equal |
| Properties.IsRelevantForMeaning | projects/minesweeper/src/main/java/org/batfish/minesweeper/bdd/TransferBDD.java:730-741 | a range is relevant iff the route's address is in the range's network and its length is in the range's length interval |
| Properties.FilterListDenyThenPermit | projects/minesweeper/src/main/java/org/batfish/minesweeper/bdd/TransferBDD.java:885-905 | for a deny line then a permit line, a route both match is denied and a route only the second matches is permitted |
| Properties.NotNegates | projects/minesweeper/src/main/java/org/batfish/minesweeper/bdd/TransferBDD.java:283-290 | `Not` fails exactly when its operand fails, with the same error; otherwise it negates the accept value and keeps the record, the flags and what the operand wrote |
| Properties.JunctionOfReadOnlyOperands | projects/minesweeper/src/main/java/org/batfish/minesweeper/bdd/TransferBDD.java:192-219 | over operands that do not write the record, the conjunction loop ands the accumulator with every operand's accept value and the disjunction loop ors it with some operand's |
| Properties.JunctionMeaning | projects/minesweeper/src/main/java/org/batfish/minesweeper/bdd/TransferBDD.java:192-219 | a conjunction of such operands accepts iff every operand accepts, a disjunction iff some operand does; both leave returnAssigned and fallthrough unset, and both refer to the unchanged working record |
| Properties.ExprClauseBreaksChain | projects/minesweeper/src/main/java/org/batfish/minesweeper/bdd/TransferBDD.java:244-279 | a one-clause chain (either kind) whose clause is a test, a junction or a chain always fails: with the clause's own error, or, when the clause compiles, on its unset fallthrough |
| Properties.ChainValueFirstMatch | projects/minesweeper/src/main/java/org/batfish/minesweeper/bdd/TransferBDD.java:253-281 | a chain is true iff its first clause that does not fall through accepts |
| Properties.ProtocolDisjunction | projects/minesweeper/src/main/java/org/batfish/minesweeper/bdd/TransferBDD.java:292-312 | the disjunction of single-protocol matches holds iff the route's protocol is one of the mappable protocols named |
| Properties.MatchProtocolAnyOf | projects/minesweeper/src/main/java/org/batfish/minesweeper/bdd/TransferBDD.java:292-312 | a protocol match fails only on an empty set, leaves the record alone, and holds iff the route's protocol is one of those named (an unmappable one never matches) |
| Properties.StepKeepsDecision | projects/minesweeper/src/main/java/org/batfish/minesweeper/bdd/TransferBDD.java:412-684 | after a return no statement changes accept or fallthrough, and `doesReturn` implies a return was reached |
| Properties.RunKeepsDecision | projects/minesweeper/src/main/java/org/batfish/minesweeper/bdd/TransferBDD.java:410-686 | the same over a whole statement list: the first return wins |
| Properties.ComputeDecides | projects/minesweeper/src/main/java/org/batfish/minesweeper/bdd/TransferBDD.java:687-704 | the outermost result is returned everywhere, by a statement or by the default action |
| Properties.ReturnedStepWritesNothing | projects/minesweeper/src/main/java/org/batfish/minesweeper/bdd/TransferBDD.java:562-670 | on a returned route every statement other than `If` leaves the working record and the result unchanged |
| Properties.ReturnedRunWritesNothing | projects/minesweeper/src/main/java/org/batfish/minesweeper/bdd/TransferBDD.java:410-686 | the same over a list without `If` |
| Properties.ComputeOutput | projects/minesweeper/src/main/java/org/batfish/minesweeper/bdd/TransferBDD.java:687-704 | the output keeps the input's prefix, length, protocol and OSPF type; a rejected output has zero metric, local preference, distance, MED and no community |
| Properties.EmptyPolicyRejects | projects/minesweeper/src/main/java/org/batfish/minesweeper/bdd/TransferBDD.java:687-699 | a policy without statements rejects, through the initial default action |
| Properties.ExitAcceptFreezesMetric | projects/minesweeper/src/main/java/org/batfish/minesweeper/bdd/TransferBDD.java:562-582 | for every protocol, a `SetMetric` after `ExitAccept` leaves metric and MED as they were; before it, it sets the metric of a non-BGP route and the MED of a BGP route |
| Properties.PrependAddsLength | projects/minesweeper/src/main/java/org/batfish/minesweeper/bdd/TransferBDD.java:662-670 | prepending three AS numbers adds three to the metric at 32 bits |
| Properties.SetThenAddCommunities | projects/minesweeper/src/main/java/org/batfish/minesweeper/bdd/TransferBDD.java:609-644 | setting communities x and then adding y leaves exactly the predicates of x and of y |
| Properties.FallThroughThenAccept | projects/minesweeper/src/main/java/org/batfish/minesweeper/bdd/TransferBDD.java:253-281 | a first-match chain whose first policy falls through and whose second returns true accepts |
| Properties.GuardCallWritesDecidedRoute | projects/minesweeper/src/main/java/org/batfish/minesweeper/bdd/TransferBDD.java:493-500 | a policy called from a guard writes the metric of a route an earlier `ExitAccept` decided, and the write reaches the output |
| Properties.MetricAfterIfNotInOutput | projects/minesweeper/src/main/java/org/batfish/minesweeper/bdd/TransferBDD.java:549-582 | after an `If` the result refers to the merged record, so a later `SetMetric` writes a record the output no longer reads |

## Left out

- The BDD engine is not part of this model: the factory, variable allocation, and the internals
  of `BDDInteger` and `BDDDomain`. Their values are taken at one assignment, as described above.
- The process-wide call cache (TransferBDD.java:332-334) is left out; the model re-compiles
  every `CallExpr`. On a cache hit the compiler does not run the callee at all, so the callee's
  in-place writes to the caller's working record (such as `SetMetric`, lines 581-582) are
  skipped. The returned result also refers to the record of the first call, which can be a
  different object from the caller's. For example, with a policy P = [SetMetric(IncrementMetric
  1)] that is not yet cached, `Conjunction([CallExpr P, CallExpr P])` leaves the metric m of a
  non-BGP route at m+2 in the model but m+1 in the compiler. Cache idempotence is therefore not stated.
- Policy calls are bounded by a `fuel` parameter that decreases on each call. Running out gives
  `CallDepthExceeded`. The compiler itself has no bound and recurses without end on a cyclic
  call graph.
- Debug tracing is left out, since it only prints diagnostics.
- `mkBDD` is the identity on `bool` here.
- Collaborators outside this class are inputs of the environment:
  - `collectCommunityVars` and `toCommunityVar`: community lines carry their converted variable,
    and community statements carry the variables their expression collects to;
  - `PrefixUtils.isContainedBy`: the `ignored` predicate;
  - `Protocol.fromRoutingProtocol`: the `protocolOf` map;
  - the configuration's policies, filter lists and community lists;
  - the graph's atomic predicates.
- The code of `TransferParam`, `TransferResult` and `BDDRoute` lies outside `TransferBDD.java`.
  They are modelled as `Transfer.Param`, `Transfer.TResult`/`Transfer.ExprResult` and
  `Routes.Route`/`Routes.RouteRecord`, with their fields inferred from how this class uses
  them. The model assumes the generic no-argument `TransferResult` constructor leaves its
  fields null (`None` in `Transfer.ExprResult`), that the outermost call is the one at depth 0,
  and that `indent` adds one level.
- A failed cast (a non-literal count in a multiplied AS), a null lookup and a thrown
  `BatfishException` are all modelled as `Err` values. The message text is not kept.
- `WithEnvironmentExpr` is modelled by evaluating the inner expression on a copy. Its pre- and
  post-statements are not part of the expression model.
- `SetOspfMetricType` sets `E1` whatever type it names, as the code does. Because the route merge
  does not carry the OSPF type, this write never reaches a top-level result.

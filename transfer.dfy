/** The transfer-function compiler as a specification: expressions and statement lists evaluated
    at one assignment of the decision-diagram variables, with the route record the statements
    write (`work`) kept apart from the record a result refers to. */
module Transfer {
  import opened Common
  import opened Routes
  import opened Policy
  import opened Matchers

  /** How the policy being compiled was entered. */
  datatype CallContext = NoCall | ExprCall | StmtCall

  /** Whether the policy is compiled as a clause of a chain. */
  datatype ChainContext = NoChain | InChain

  /** The compilation parameters (`TransferParam` without its record): the context flags, the
      default and local-default actions, the default policy of chains, and the nesting depth. */
  datatype Param = Param(
    callContext: CallContext,
    chainContext: ChainContext,
    defaultAccept: bool,
    defaultAcceptLocal: bool,
    defaultPolicy: Option<string>,
    depth: nat)
  {
    /** `indent()`: one level deeper. */
    function Indent(): Param {
      this.(depth := depth + 1)
    }

    /** `getInitialCall()`: the outermost statement list. */
    predicate InitialCall() {
      depth == 0
    }
  }

  /** The parameters of the outermost call. */
  const InitialParam := Param(NoCall, NoChain, false, false, None, 0)

  /** The record a result refers to: the working record object itself, whose value is whatever the
      statements have written into it, or a record built by a merge, which the statement list that
      built it no longer writes (a chain may still hand it to its next clause as that clause's
      working record). */
  datatype RecordRef = Working | Merged(route: Route)

  /** `TransferResult<TransferReturn, BDD>`: the record, the accept value, returnAssigned (some
      return or exit has been reached) and the fallthrough value. */
  datatype TResult = TResult(record: RecordRef, accept: bool, returned: bool, fallthrough: bool)

  /** A compiled result together with the working record's value afterwards. */
  datatype Outcome = Outcome(res: TResult, work: Route)

  /** The `TransferResult` of an expression. Expressions build theirs with the no-argument
      constructor, which leaves returnAssigned and fallthrough null (`None`) unless the expression
      sets them; a policy call returns its statement list's result, where both are set. */
  datatype ExprResult = ExprResult(record: RecordRef, accept: bool, returned: Option<bool>, fallthrough: Option<bool>)

  /** An expression's result together with the working record's value afterwards. */
  datatype ExprOutcome = ExprOutcome(res: ExprResult, work: Route)

  /** The statement loop's variables: `curP`, `result`, `doesReturn` and the working record. */
  datatype State = State(param: Param, res: TResult, doesReturn: bool, work: Route)

  /** The accumulator of a chain fold: the accept value so far, the chain's record, the caller's
      working record, and the results of the clauses folded so far, in chain order. */
  datatype ChainAcc = ChainAcc(acc: bool, data: RecordRef, cur: Route, clauses: seq<ExprResult>)

  /** The accumulator of a conjunction or disjunction. */
  datatype Folded = Folded(acc: bool, work: Route)

  /** The value a record reference denotes, given the working record's value. */
  function Resolve(ref: RecordRef, work: Route): Route {
    match ref
    case Working => work
    case Merged(r) => r
  }

  predicate RefShaped(env: Setting, ref: RecordRef) {
    ref.Merged? ==> Shaped(env, ref.route)
  }

  predicate OutcomeShaped(env: Setting, o: Outcome) {
    Shaped(env, o.work) && RefShaped(env, o.res.record)
  }

  predicate ExprOutcomeShaped(env: Setting, o: ExprOutcome) {
    Shaped(env, o.work) && RefShaped(env, o.res.record)
  }

  predicate StateShaped(env: Setting, st: State) {
    Shaped(env, st.work) && RefShaped(env, st.res.record)
  }

  /** `fromExpr(b)`: a plain boolean result on the working record, marked as returned, whose
      fallthrough value is left unset. */
  function FromExpr(b: bool): (r: ExprResult)
    ensures r.record == Working && r.accept == b && r.returned == Some(true) && r.fallthrough.None?
  {
    ExprResult(Working, b, Some(true), None)
  }

  /** A statement list's result, seen as an expression's: both flags set. */
  function OfStatements(t: TResult): (r: ExprResult)
    ensures r.record == t.record && r.accept == t.accept
    ensures r.returned == Some(t.returned) && r.fallthrough == Some(t.fallthrough)
  {
    ExprResult(t.record, t.accept, Some(t.returned), Some(t.fallthrough))
  }

  /** `returnValue(r, val)`: the first return wins. Where a return was already reached the accept
      value is kept, elsewhere it becomes `val`; the record and the fallthrough value are left
      alone, and the result counts as returned everywhere. */
  function ReturnValue(r: TResult, val: bool): (r': TResult)
    ensures r'.returned
    ensures r.returned ==> r'.accept == r.accept
    ensures !r.returned ==> r'.accept == val
    ensures r'.record == r.record && r'.fallthrough == r.fallthrough
  {
    r.(accept := Ite(r.returned, r.accept, val), returned := true)
  }

  /** `fallthrough(r)`: fallthrough becomes true exactly where nothing has returned yet and keeps
      its value elsewhere; the result counts as returned everywhere. */
  function Fallthrough(r: TResult): (r': TResult)
    ensures r'.returned
    ensures r.returned ==> r'.fallthrough == r.fallthrough
    ensures !r.returned ==> r'.fallthrough
    ensures r'.record == r.record && r'.accept == r.accept
  {
    r.(fallthrough := Ite(r.returned, r.fallthrough, true), returned := true)
  }

  /** `applyLongExprModification(x, e)`: a literal replaces the value, the four step expressions add
      or subtract a constant, all at 32 bits; any other expression is unsupported. */
  function ApplyLongExprModification(x: u32, e: LongExpr): (r: Result<u32>)
    ensures r.Ok? <==> !e.OtherLongExpr?
    ensures e.LiteralLong? ==> r == Ok(FromLong(e.literal))
    ensures e.IncrementMetric? ==> r == Ok(Add32(x, FromLong(e.metricAddend)))
    ensures e.IncrementLocalPreference? ==> r == Ok(Add32(x, FromLong(e.prefAddend)))
    ensures e.DecrementMetric? ==> r == Ok(Sub32(x, FromLong(e.metricSubtrahend)))
    ensures e.DecrementLocalPreference? ==> r == Ok(Sub32(x, FromLong(e.prefSubtrahend)))
  {
    match e
    case LiteralLong(v) => Ok(FromLong(v))
    case DecrementMetric(v) => Ok(Sub32(x, FromLong(v)))
    case IncrementMetric(v) => Ok(Add32(x, FromLong(v)))
    case IncrementLocalPreference(v) => Ok(Add32(x, FromLong(v)))
    case DecrementLocalPreference(v) => Ok(Sub32(x, FromLong(v)))
    case OtherLongExpr => Err(UnsupportedLongExpr)
  }

  /** `prependLength(e)`: how many AS numbers a prepend adds. A multiplied AS must have a literal
      count (the cast fails otherwise); a literal list adds its own length. */
  function PrependLength(e: AsPathListExpr): (r: Result<int>)
    ensures e.LiteralAsList? ==> r == Ok(|e.asns|)
    ensures e.MultipliedAs? ==> (r.Ok? <==> e.number.LiteralInt?)
    ensures e.MultipliedAs? && e.number.LiteralInt? ==> r == Ok(e.number.intValue)
    ensures e.OtherAsPathList? ==> r == Err(UnsupportedAsPathList)
  {
    match e
    case MultipliedAs(n) =>
      if n.LiteralInt? then Ok(n.intValue) else Err(NotALiteralInt)
    case LiteralAsList(asns) => Ok(|asns|)
    case OtherAsPathList => Err(UnsupportedAsPathList)
  }

  /** The clauses of a chain: its subroutines, then a call of the default policy when one is set. */
  function ChainItems(subs: seq<Expr>, p: Param): (items: seq<Expr>)
    ensures p.defaultPolicy.None? ==> items == subs
    ensures p.defaultPolicy.Some? ==> items == subs + [CallExpr(p.defaultPolicy.value)]
    ensures ExprsSize(items) <= ExprsSize(subs) + 1
    ensures |items| == 0 <==> |subs| == 0 && p.defaultPolicy.None?
  {
    if p.defaultPolicy.Some? then
      ExprsSizeAppend(subs, [CallExpr(p.defaultPolicy.value)]);
      subs + [CallExpr(p.defaultPolicy.value)]
    else subs
  }

  /** One single-protocol match per protocol: the disjuncts a multi-protocol match is split into. */
  function SingleProtocols(ps: seq<string>): (mps: seq<Expr>)
    ensures |mps| == |ps| && ExprsSize(mps) == |ps|
    ensures forall i :: 0 <= i < |ps| ==> mps[i] == MatchProtocol([ps[i]])
  {
    if ps == [] then []
    else
      var rest := SingleProtocols(ps[1..]);
      var mps := [MatchProtocol([ps[0]])] + rest;
      assert mps[1..] == rest;
      mps
  }

  /** The parameters a chain compiles each clause with: no default policy, chain context, one level
      deeper. */
  function ChainParam(p: Param): (q: Param)
    ensures q.defaultPolicy.None? && q.chainContext == InChain && q.depth == p.depth + 1
    ensures q.callContext == p.callContext && q.defaultAccept == p.defaultAccept
  {
    p.(defaultPolicy := None, chainContext := InChain).Indent()
  }

  /** The expressions that compile without compiling another expression. */
  predicate IsLeaf(e: Expr) {
    || e.MatchIpv4? || e.MatchIpv6? || e.MatchPrefixSet? || e.MatchPrefix6Set?
    || e.MatchCommunitySet? || e.StaticBoolean? || e.MatchAsPath? || e.OtherExpr?
    || (e.MatchProtocol? && |e.protocols| <= 1)
  }

  /** The cases of `compute(expr, p)` that only test the route: constants, the context tests, a
      single protocol, prefix and community sets. None writes the record, and each result is a
      plain returned value on the working record. */
  function EvalLeaf(env: Setting, e: Expr, p: Param, work: Route): (r: Result<ExprOutcome>)
    requires Shaped(env, work) && IsLeaf(e)
    ensures r.Ok? ==> r.value.work == work && r.value.res.record == Working
    ensures r.Ok? ==> r.value.res.returned == Some(true) && r.value.res.fallthrough.None?
    ensures e.MatchIpv4? || e.MatchAsPath? ==> r == Ok(ExprOutcome(FromExpr(true), work))
    ensures e.MatchIpv6? || e.MatchPrefix6Set? ==> r == Ok(ExprOutcome(FromExpr(false), work))
    ensures e.OtherExpr? ==> r == Err(UnsupportedExpr(e.exprKind))
    ensures e.MatchProtocol? && |e.protocols| == 0 ==> r == Err(EmptyProtocolSet)
    ensures e.MatchProtocol? && |e.protocols| == 1 ==>
      r == Ok(ExprOutcome(FromExpr(e.protocols[0] in env.protocolOf && work.protocol == env.protocolOf[e.protocols[0]]), work))
    ensures e.MatchPrefixSet? ==> (r.Ok? <==> PrefixSetMatch(env, e.prefixSet, work).Ok?)
    ensures e.MatchPrefixSet? && r.Ok? ==> r.value.res.accept == PrefixSetMatch(env, e.prefixSet, work).value
    ensures e.MatchCommunitySet? ==> (r.Ok? <==> CommunitySetMatch(env, e.communitySet, work).Ok?)
    ensures e.MatchCommunitySet? && r.Ok? ==> r.value.res.accept == CommunitySetMatch(env, e.communitySet, work).value
    ensures e.StaticBoolean? ==> r.Ok?
    ensures e.StaticBoolean? && e.staticKind == CallExprContext ==> r.value.res.accept == (p.callContext == ExprCall)
    ensures e.StaticBoolean? && e.staticKind == CallStatementContext ==> r.value.res.accept == (p.callContext == StmtCall)
    ensures e.StaticBoolean? && e.staticKind == True ==> r.value.res.accept
    ensures e.StaticBoolean? && e.staticKind == False ==> !r.value.res.accept
  {
    match e
    case MatchIpv4 => Ok(ExprOutcome(FromExpr(true), work))
    case MatchIpv6 => Ok(ExprOutcome(FromExpr(false), work))
    case MatchProtocol(ps) =>
      if |ps| == 0 then Err(EmptyProtocolSet)
      else if ps[0] !in env.protocolOf then Ok(ExprOutcome(FromExpr(false), work))
      else Ok(ExprOutcome(FromExpr(work.protocol == env.protocolOf[ps[0]]), work))
    case MatchPrefixSet(set_) =>
      var b :- PrefixSetMatch(env, set_, work);
      Ok(ExprOutcome(FromExpr(b), work))
    case MatchPrefix6Set => Ok(ExprOutcome(FromExpr(false), work))
    case MatchCommunitySet(cs) =>
      var b :- CommunitySetMatch(env, cs, work);
      Ok(ExprOutcome(FromExpr(b), work))
    case StaticBoolean(k) =>
      (match k
       case CallExprContext => Ok(ExprOutcome(FromExpr(p.callContext == ExprCall), work))
       case CallStatementContext => Ok(ExprOutcome(FromExpr(p.callContext == StmtCall), work))
       case True => Ok(ExprOutcome(FromExpr(true), work))
       case False => Ok(ExprOutcome(FromExpr(false), work)))
    case MatchAsPath => Ok(ExprOutcome(FromExpr(true), work))
    case OtherExpr(kind) => Err(UnsupportedExpr(kind))
  }

  /** `compute(expr, p)`, with the working record's value `work`. */
  function EvalExpr(env: Setting, fuel: nat, e: Expr, p: Param, work: Route): (r: Result<ExprOutcome>)
    requires Shaped(env, work)
    ensures r.Ok? ==> ExprOutcomeShaped(env, r.value)
    ensures IsLeaf(e) ==> r == EvalLeaf(env, e, p, work)
    ensures e.CallExpr? && e.calledPolicy !in env.policies ==> r == Err(MissingPolicy(e.calledPolicy))
    ensures e.CallExpr? && e.calledPolicy in env.policies && fuel == 0 ==> r == Err(CallDepthExceeded)
    ensures e.ConjunctionChain? && ChainItems(e.subroutines, p) == [] ==> r == Ok(ExprOutcome(FromExpr(true), work))
    ensures e.FirstMatchChain? && ChainItems(e.chainPolicies, p) == [] ==> r == Err(EmptyFirstMatchChain)
    ensures (e.Conjunction? || e.Disjunction? || e.ConjunctionChain? || e.FirstMatchChain?) && r.Ok? ==>
      r.value.res.fallthrough.None?
    ensures (e.Conjunction? || e.Disjunction?) && r.Ok? ==> r.value.res.record == Working && r.value.res.returned.None?
    ensures e.FirstMatchChain? && r.Ok? ==> r.value.res.returned.None?
    ensures e.ConjunctionChain? && r.Ok? ==> r.value.res.returned.None? || ChainItems(e.subroutines, p) == []
    ensures e.CallExpr? && r.Ok? ==> r.value.res.returned.Some? && r.value.res.fallthrough.Some?
    ensures e.WithEnvironment? && r.Ok? ==> r.value.work == work && r.value.res.record.Merged?
    decreases fuel, ExprSize(e), 0
  {
    if IsLeaf(e) then EvalLeaf(env, e, p, work)
    else match e
    case Conjunction(es) =>
      var f :- EvalJunction(env, fuel, es, p, true, true, work);
      Ok(ExprOutcome(ExprResult(Working, f.acc, None, None), f.work))
    case Disjunction(es) =>
      var f :- EvalJunction(env, fuel, es, p, false, false, work);
      Ok(ExprOutcome(ExprResult(Working, f.acc, None, None), f.work))
    case ConjunctionChain(subs) =>
      var items := ChainItems(subs, p);
      if items == [] then Ok(ExprOutcome(FromExpr(true), work))
      else
        var c :- ChainFold(env, fuel, items, p, Working, work);
        Ok(ExprOutcome(ExprResult(c.data, c.acc, None, None), c.cur))
    case FirstMatchChain(subs) =>
      var items := ChainItems(subs, p);
      if items == [] then Err(EmptyFirstMatchChain)
      else
        var c :- ChainFold(env, fuel, items, p, Working, work);
        Ok(ExprOutcome(ExprResult(c.data, c.acc, None, None), c.cur))
    case Not(inner) =>
      var o :- EvalExpr(env, fuel, inner, p, work);
      Ok(o.(res := o.res.(accept := !o.res.accept)))
    case MatchProtocol(ps) => EvalExpr(env, fuel, Disjunction(SingleProtocols(ps)), p, work)
    case CallExpr(name) =>
      if name !in env.policies then Err(MissingPolicy(name))
      else if fuel == 0 then Err(CallDepthExceeded)
      else
        var o :- ExecStmts(env, fuel - 1, env.policies[name], p.(callContext := ExprCall).Indent(), work);
        Ok(ExprOutcome(OfStatements(o.res), o.work))
    case WithEnvironment(inner) =>
      var o :- EvalExpr(env, fuel, inner, p, work);
      Ok(ExprOutcome(o.res.(record := Merged(Resolve(o.res.record, o.work))), work))
    case _ => assert false; Err(UnsupportedExpr(""))
  }

  /** The loop of a conjunction (`conj`) or disjunction: every operand is compiled, in order, one
      level deeper, and its accept value folded into `acc`. */
  function EvalJunction(env: Setting, fuel: nat, es: seq<Expr>, p: Param, conj: bool, acc: bool, work: Route): (r: Result<Folded>)
    requires Shaped(env, work)
    ensures r.Ok? ==> Shaped(env, r.value.work)
    ensures es == [] ==> r == Ok(Folded(acc, work))
    ensures r.Ok? && conj && !acc ==> !r.value.acc
    ensures r.Ok? && !conj && acc ==> r.value.acc
    decreases fuel, ExprsSize(es), 1
  {
    if es == [] then Ok(Folded(acc, work))
    else
      var o :- EvalExpr(env, fuel, es[0], p.Indent(), work);
      var acc' := if conj then acc && o.res.accept else acc || o.res.accept;
      EvalJunction(env, fuel, es[1..], p, conj, acc', o.work)
  }

  /** The loop of a chain, from the last clause to the first: each clause is compiled on the
      chain's record with no default policy, in chain context, one level deeper, and
      `acc = ite(fallthrough, acc, accept)`. The chain's record becomes the clause's record; while
      it is the working record, what the clause writes is the caller's too. A clause whose result
      leaves fallthrough unset (null) fails. */
  function ChainFold(env: Setting, fuel: nat, items: seq<Expr>, p: Param, data: RecordRef, cur: Route): (r: Result<ChainAcc>)
    requires Shaped(env, cur) && RefShaped(env, data)
    ensures r.Ok? ==> Shaped(env, r.value.cur) && RefShaped(env, r.value.data)
    ensures r.Ok? ==> |r.value.clauses| == |items| && r.value.acc == ChainValue(r.value.clauses)
    ensures r.Ok? ==> forall i :: 0 <= i < |r.value.clauses| ==> r.value.clauses[i].fallthrough.Some?
    ensures items == [] ==> r == Ok(ChainAcc(false, data, cur, []))
    ensures r.Ok? && items != [] ==>
      && ChainFold(env, fuel, items[1..], p, data, cur).Ok?
      && var later := ChainFold(env, fuel, items[1..], p, data, cur).value;
         && r.value.clauses[1..] == later.clauses
         && EvalExpr(env, fuel, items[0], ChainParam(p), Resolve(later.data, later.cur)).Ok?
         && r.value.clauses[0] == EvalExpr(env, fuel, items[0], ChainParam(p), Resolve(later.data, later.cur)).value.res
    decreases fuel, ExprsSize(items), 1
  {
    if items == [] then Ok(ChainAcc(false, data, cur, []))
    else
      var later :- ChainFold(env, fuel, items[1..], p, data, cur);
      var o :- EvalExpr(env, fuel, items[0], ChainParam(p), Resolve(later.data, later.cur));
      ChainStep(env, o, later)
  }

  /** One clause of the chain fold: the clause's result `o`, compiled on the record the later
      clauses left, is folded into `later` by `acc = ite(fallthrough, acc, accept)`, and the
      clause's record becomes the chain's. A clause that leaves fallthrough unset fails. */
  function ChainStep(env: Setting, o: ExprOutcome, later: ChainAcc): (r: Result<ChainAcc>)
    requires ExprOutcomeShaped(env, o) && Shaped(env, later.cur) && RefShaped(env, later.data)
    ensures r.Ok? <==> o.res.fallthrough.Some?
    ensures r.Err? ==> r.error == UnsetFallthrough
    ensures r.Ok? ==> Shaped(env, r.value.cur) && RefShaped(env, r.value.data)
    ensures r.Ok? ==> r.value.clauses == [o.res] + later.clauses
    ensures r.Ok? && later.acc == ChainValue(later.clauses) ==> r.value.acc == ChainValue(r.value.clauses)
  {
    if o.res.fallthrough.None? then Err(UnsetFallthrough)
    else
      var acc := Ite(o.res.fallthrough.value, later.acc, o.res.accept);
      var clauses := [o.res] + later.clauses;
      assert clauses[1..] == later.clauses;
      if later.data.Working? then Ok(ChainAcc(acc, o.res.record, o.work, clauses))
      else Ok(ChainAcc(acc, Merged(Resolve(o.res.record, o.work)), later.cur, clauses))
  }

  /** A clause result that falls through. */
  predicate FallsThrough(c: ExprResult) {
    c.fallthrough == Some(true)
  }

  /** What a chain's clause results decide, read first clause first: a clause that falls through
      defers to the clauses after it; the last one defers to false. */
  function ChainValue(clauses: seq<ExprResult>): bool {
    if clauses == [] then false
    else Ite(FallsThrough(clauses[0]), ChainValue(clauses[1..]), clauses[0].accept)
  }

  /** The loop's initial variables: nothing returned, accept and fallthrough false, the result's
      record the working record. */
  function InitState(p: Param, work: Route): State {
    State(p, TResult(Working, false, false, false), false, work)
  }

  /** The outermost call's finalization: if no statement returned, the default action is returned;
      then the record is zeroed wherever the route is not accepted. Inner calls are left as they
      are. */
  function Finalize(env: Setting, st: State): (o: Outcome)
    requires StateShaped(env, st)
    ensures OutcomeShaped(env, o) && o.work == st.work
    ensures !st.param.InitialCall() ==> o.res == st.res
    ensures st.param.InitialCall() ==> o.res.record.Merged?
    ensures st.param.InitialCall() && st.doesReturn ==> o.res.accept == st.res.accept
    ensures st.param.InitialCall() && !st.doesReturn ==>
      o.res.accept == (if st.res.returned then st.res.accept else st.param.defaultAccept)
    ensures st.param.InitialCall() && o.res.accept ==> CarriedOf(o.res.record.route) == CarriedOf(Resolve(st.res.record, st.work))
    ensures st.param.InitialCall() && !o.res.accept ==> CarriedOf(o.res.record.route) == CarriedOf(Zeroed(env.input))
    ensures st.param.InitialCall() ==>
      && o.res.record.route.prefix == env.input.prefix && o.res.record.route.prefixLength == env.input.prefixLength
      && o.res.record.route.protocol == env.input.protocol && o.res.record.route.ospfMetric == env.input.ospfMetric
  {
    if st.param.InitialCall() then
      var res := if st.doesReturn then st.res else ReturnValue(st.res, st.param.defaultAccept);
      Outcome(res.(record := Merged(IteZero(env.input, res.accept, Resolve(res.record, st.work)))), st.work)
    else Outcome(st.res, st.work)
  }

  /** `compute(statements, p)`: run the statement loop from the initial variables, then finalize. */
  function ExecStmts(env: Setting, fuel: nat, stmts: seq<Stmt>, p: Param, work: Route): (r: Result<Outcome>)
    requires Shaped(env, work)
    ensures r.Ok? ==> OutcomeShaped(env, r.value)
    ensures r.Ok? <==> Run(env, fuel, stmts, InitState(p, work)).Ok?
    ensures r.Ok? && !p.InitialCall() ==>
      && r.value.res == Run(env, fuel, stmts, InitState(p, work)).value.res
      && r.value.work == Run(env, fuel, stmts, InitState(p, work)).value.work
    ensures r.Ok? && p.InitialCall() ==> r.value.res.record.Merged?
    decreases fuel, StmtsSize(stmts), 3
  {
    var st :- Run(env, fuel, stmts, InitState(p, work));
    Ok(Finalize(env, st))
  }

  /** The statement loop itself: each statement in turn, stopping at the first error. */
  function Run(env: Setting, fuel: nat, stmts: seq<Stmt>, st: State): (r: Result<State>)
    requires StateShaped(env, st)
    ensures r.Ok? ==> StateShaped(env, r.value) && r.value.param.depth == st.param.depth
    decreases fuel, StmtsSize(stmts), 2
  {
    if stmts == [] then Ok(st)
    else
      var st1 :- Step(env, fuel, stmts[0], st);
      Run(env, fuel, stmts[1..], st1)
  }

  /** One static statement. */
  function StaticStep(k: StaticKind, st: State): (r: Result<State>)
    ensures r.Ok? ==> r.value.work == st.work && r.value.param.depth == st.param.depth
  {
    match k
    case ExitAccept => Ok(st.(doesReturn := true, res := ReturnValue(st.res, true)))
    case Unsuppress => Ok(st.(doesReturn := true, res := ReturnValue(st.res, true)))
    case ReturnTrue => Ok(st.(doesReturn := true, res := ReturnValue(st.res, true)))
    case ExitReject => Ok(st.(doesReturn := true, res := ReturnValue(st.res, false)))
    case Suppress => Ok(st.(doesReturn := true, res := ReturnValue(st.res, false)))
    case ReturnFalse => Ok(st.(doesReturn := true, res := ReturnValue(st.res, false)))
    case SetDefaultActionAccept => Ok(st.(param := st.param.(defaultAccept := true)))
    case SetDefaultActionReject => Ok(st.(param := st.param.(defaultAccept := false)))
    case SetLocalDefaultActionAccept => Ok(st.(param := st.param.(defaultAcceptLocal := true)))
    case SetLocalDefaultActionReject => Ok(st.(param := st.param.(defaultAcceptLocal := false)))
    case ReturnLocalDefaultAction => Ok(st.(res := ReturnValue(st.res, st.param.defaultAcceptLocal)))
    case FallThrough => Ok(st.(res := Fallthrough(st.res)))
    case Return => Ok(st)
    case RemovePrivateAs => Ok(st)
    case OtherStatic(name) => Err(UnsupportedStatement(name))
  }

  /** The merge after an `If`: where a return was already reached the pre-`If` record, accept and
      fallthrough stay; elsewhere the branch the guard picks supplies them. */
  function MergeIf(env: Setting, res: TResult, current: Route, guard: bool, t: Outcome, f: Outcome): (r: TResult)
    requires Shaped(env, current) && OutcomeShaped(env, t) && OutcomeShaped(env, f)
    ensures r.record.Merged? && Shaped(env, r.record.route)
    ensures res.returned ==>
      && r.returned && r.accept == res.accept && r.fallthrough == res.fallthrough
      && CarriedOf(r.record.route) == CarriedOf(current)
    ensures !res.returned && guard ==>
      && r.returned == t.res.returned && r.accept == t.res.accept && r.fallthrough == t.res.fallthrough
      && CarriedOf(r.record.route) == CarriedOf(Resolve(t.res.record, t.work))
    ensures !res.returned && !guard ==>
      && r.returned == f.res.returned && r.accept == f.res.accept && r.fallthrough == f.res.fallthrough
      && CarriedOf(r.record.route) == CarriedOf(Resolve(f.res.record, f.work))
    ensures r.record.route.prefix == env.input.prefix && r.record.route.prefixLength == env.input.prefixLength
    ensures r.record.route.protocol == env.input.protocol && r.record.route.ospfMetric == env.input.ospfMetric
  {
    var r1 := Resolve(t.res.record, t.work);
    var r2 := Resolve(f.res.record, f.work);
    var already := res.returned;
    TResult(
      Merged(IteRoute(env.input, already, current, IteRoute(env.input, guard, r1, r2))),
      Ite(already, res.accept, Ite(guard, t.res.accept, f.res.accept)),
      already || Ite(guard, t.res.returned, f.res.returned),
      Ite(already, res.fallthrough, Ite(guard, t.res.fallthrough, f.res.fallthrough)))
  }

  /** The `If` statement: the guard is compiled on the working record, both branches on copies of
      the result's current record, one level deeper, and the results are merged. */
  function IfStep(env: Setting, fuel: nat, g: Expr, t: seq<Stmt>, f: seq<Stmt>, st: State): (r: Result<State>)
    requires StateShaped(env, st)
    ensures r.Ok? ==> StateShaped(env, r.value) && r.value.param == st.param && r.value.doesReturn == st.doesReturn
    ensures r.Ok? ==>
      && EvalExpr(env, fuel, g, st.param.Indent(), st.work).Ok?
      && var go := EvalExpr(env, fuel, g, st.param.Indent(), st.work).value;
         var current := Resolve(st.res.record, go.work);
         && ExecStmts(env, fuel, t, st.param.Indent(), current).Ok?
         && ExecStmts(env, fuel, f, st.param.Indent(), current).Ok?
         && var tb := ExecStmts(env, fuel, t, st.param.Indent(), current).value;
            var fb := ExecStmts(env, fuel, f, st.param.Indent(), current).value;
            && r.value.res == MergeIf(env, st.res, current, go.res.accept, tb, fb)
            && r.value.work == go.work
    decreases fuel, StmtSize(If(g, t, f)), 0
  {
    var go :- EvalExpr(env, fuel, g, st.param.Indent(), st.work);
    var current := Resolve(st.res.record, go.work);
    var tb :- ExecStmts(env, fuel, t, st.param.Indent(), current);
    var fb :- ExecStmts(env, fuel, f, st.param.Indent(), current);
    Ok(st.(res := MergeIf(env, st.res, current, go.res.accept, tb, fb), work := go.work))
  }

  /** One iteration of the statement loop. */
  function Step(env: Setting, fuel: nat, s: Stmt, st: State): (r: Result<State>)
    requires StateShaped(env, st)
    ensures r.Ok? ==> StateShaped(env, r.value) && r.value.param.depth == st.param.depth
    ensures s.SetMetric? ==> (r.Ok? <==> !s.metricExpr.OtherLongExpr?)
    ensures s.SetMetric? && r.Ok? ==>
      && r.value.res == st.res && r.value.param == st.param && r.value.doesReturn == st.doesReturn
      && (st.res.returned ==> r.value.work == st.work)
      && (!st.res.returned && st.work.protocol == Bgp ==>
            r.value.work == st.work.(med := ApplyLongExprModification(st.work.med, s.metricExpr).value))
      && (!st.res.returned && st.work.protocol != Bgp ==>
            r.value.work == st.work.(metric := ApplyLongExprModification(st.work.metric, s.metricExpr).value))
    ensures s.SetOspfMetricType? ==>
      && r.Ok? && r.value.res == st.res && r.value.param == st.param
      && r.value.work == st.work.(ospfMetric := if st.res.returned then st.work.ospfMetric else E1)
    decreases fuel, StmtSize(s), 1
  {
    match s
    case StaticStmt(k) => StaticStep(k, st)
    case If(g, t, f) => IfStep(env, fuel, g, t, f, st)
    case SetDefaultPolicy(name) => Ok(st.(param := st.param.(defaultPolicy := Some(name))))
    case SetMetric(e) =>
      var isBgp := st.work.protocol == Bgp;
      var ignoreMed := !isBgp || st.res.returned;
      var ignoreMet := isBgp || st.res.returned;
      var med :- ApplyLongExprModification(st.work.med, e);
      var met := ApplyLongExprModification(st.work.metric, e).value;
      Ok(st.(work := st.work.(med := Ite(ignoreMed, st.work.med, med), metric := Ite(ignoreMet, st.work.metric, met))))
    case SetOspfMetricType(_) =>
      Ok(st.(work := st.work.(ospfMetric := Ite(st.res.returned, st.work.ospfMetric, E1))))
    case SetLocalPreference(e) =>
      var lp :- ApplyLongExprModification(st.work.localPref, e);
      Ok(st.(work := st.work.(localPref := Ite(st.res.returned, st.work.localPref, lp))))
    case AddCommunity(vars) =>
      var aps :- AtomicPredicatesFor(env, vars);
      Ok(st.(work := st.work.(comms := AddCommunities(st.work.comms, aps, st.res.returned))))
    case SetCommunity(vars) =>
      var aps :- AtomicPredicatesFor(env, vars);
      Ok(st.(work := st.work.(comms := SetCommunities(st.work.comms, aps, st.res.returned))))
    case DeleteCommunity(vars) =>
      var aps :- AtomicPredicatesFor(env, vars);
      Ok(st.(work := st.work.(comms := DeleteCommunities(st.work.comms, aps, st.res.returned))))
    case PrependAsPath(e) =>
      var cost :- PrependLength(e);
      var met := Add32(st.work.metric, FromLong(cost));
      Ok(st.(work := st.work.(metric := Ite(st.res.returned, st.work.metric, met))))
    case SetOrigin => Ok(st)
    case SetNextHop => Ok(st)
    case OtherStmt(kind) => Err(UnsupportedStatement(kind))
  }

  /** `compute(ignoredNetworks)`: the policy's statements compiled from the initial parameters on a
      record of the input variables. */
  function Compute(env: Setting, fuel: nat, stmts: seq<Stmt>): (r: Result<Outcome>)
    ensures r.Ok? ==> OutcomeShaped(env, r.value) && r.value.res.record.Merged?
  {
    var st :- Run(env, fuel, stmts, InitState(InitialParam, env.input));
    Ok(Finalize(env, st))
  }
}

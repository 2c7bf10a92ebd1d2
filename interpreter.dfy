/** The statement interpreter as the compiler runs it: a loop over the statements that reassigns
    `curP`, `result` and `doesReturn` and writes the working route record in place, with `If`
    branches run on deep copies and merged into newly built records. Each method is proved to do
    what the specification in `Transfer` says. */
module Interpreter {
  import opened Common
  import opened Routes
  import opened Policy
  import opened Matchers
  import opened Transfer

  /** The loop variables other than the working record. */
  datatype Control = Control(param: Param, res: TResult, doesReturn: bool)

  function ControlOf(st: State): Control {
    Control(st.param, st.res, st.doesReturn)
  }

  function StateOf(ctl: Control, work: Route): State {
    State(ctl.param, ctl.res, ctl.doesReturn, work)
  }

  /** `compute(statements, p)` on the working record object `work`: the statement loop, then the
      outermost call's finalization. The result and the record's final value are those of
      `ExecStmts`. */
  method ComputeStmts(env: Setting, fuel: nat, stmts: seq<Stmt>, p: Param, work: RouteRecord) returns (out: Result<TResult>)
    requires work.comms.Length == env.numAps
    modifies work, work.comms
    ensures ExecStmts(env, fuel, stmts, p, old(work.Value())).Ok? ==>
      out == Ok(ExecStmts(env, fuel, stmts, p, old(work.Value())).value.res) &&
      work.Value() == ExecStmts(env, fuel, stmts, p, old(work.Value())).value.work
    ensures ExecStmts(env, fuel, stmts, p, old(work.Value())).Err? ==>
      out == Err(ExecStmts(env, fuel, stmts, p, old(work.Value())).error)
    decreases fuel, StmtsSize(stmts), 2
  {
    var curP := p;
    var doesReturn := false;
    var result := TResult(Working, false, false, false);
    ghost var start := InitState(p, work.Value());
    var i := 0;
    while i < |stmts|
      invariant 0 <= i <= |stmts|
      invariant RefShaped(env, result.record)
      invariant Run(env, fuel, stmts, start) == Run(env, fuel, stmts[i..], State(curP, result, doesReturn, work.Value()))
    {
      StmtsSizeElement(stmts, i);
      assert stmts[i..][1..] == stmts[i + 1..];
      var ctl := ExecStatement(env, fuel, stmts[i], Control(curP, result, doesReturn), work);
      if ctl.Err? {
        return Err(ctl.error);
      }
      curP, result, doesReturn := ctl.value.param, ctl.value.res, ctl.value.doesReturn;
      i := i + 1;
    }
    if curP.InitialCall() {
      if !doesReturn {
        result := ReturnValue(result, curP.defaultAccept);
      }
      var current := Resolve(result.record, work.Value());
      var zeroed := NewZeroedRecord(env.input);
      var retVal := MergeRecords(env.input, result.accept, current, zeroed);
      result := result.(record := Merged(retVal));
    }
    out := Ok(result);
  }

  /** One iteration of the statement loop: the new loop variables and the working record's new
      value are those of `Step`. */
  method ExecStatement(env: Setting, fuel: nat, s: Stmt, ctl: Control, work: RouteRecord) returns (r: Result<Control>)
    requires work.comms.Length == env.numAps && RefShaped(env, ctl.res.record)
    modifies work, work.comms
    ensures Step(env, fuel, s, StateOf(ctl, old(work.Value()))).Ok? ==>
      r == Ok(ControlOf(Step(env, fuel, s, StateOf(ctl, old(work.Value()))).value)) &&
      work.Value() == Step(env, fuel, s, StateOf(ctl, old(work.Value()))).value.work
    ensures Step(env, fuel, s, StateOf(ctl, old(work.Value()))).Err? ==>
      r == Err(Step(env, fuel, s, StateOf(ctl, old(work.Value()))).error)
    decreases fuel, StmtSize(s), 1
  {
    var curP, result, doesReturn := ctl.param, ctl.res, ctl.doesReturn;
    match s {
      case StaticStmt(k) =>
        match k {
          case ExitAccept =>
            doesReturn := true;
            result := ReturnValue(result, true);
          case Unsuppress =>
            doesReturn := true;
            result := ReturnValue(result, true);
          case ReturnTrue =>
            doesReturn := true;
            result := ReturnValue(result, true);
          case ExitReject =>
            doesReturn := true;
            result := ReturnValue(result, false);
          case Suppress =>
            doesReturn := true;
            result := ReturnValue(result, false);
          case ReturnFalse =>
            doesReturn := true;
            result := ReturnValue(result, false);
          case SetDefaultActionAccept =>
            curP := curP.(defaultAccept := true);
          case SetDefaultActionReject =>
            curP := curP.(defaultAccept := false);
          case SetLocalDefaultActionAccept =>
            curP := curP.(defaultAcceptLocal := true);
          case SetLocalDefaultActionReject =>
            curP := curP.(defaultAcceptLocal := false);
          case ReturnLocalDefaultAction =>
            if curP.defaultAcceptLocal {
              result := ReturnValue(result, true);
            } else {
              result := ReturnValue(result, false);
            }
          case FallThrough =>
            result := Fallthrough(result);
          case Return =>
          case RemovePrivateAs =>
          case OtherStatic(name) =>
            return Err(UnsupportedStatement(name));
        }
      case If(g, t, f) =>
        var ifCtl := ExecIf(env, fuel, g, t, f, Control(curP, result, doesReturn), work);
        return ifCtl;
      case SetDefaultPolicy(name) =>
        curP := curP.(defaultPolicy := Some(name));
      case SetMetric(e) =>
        var isBgp := work.protocol == Bgp;
        var ignoreMed := !isBgp || result.returned;
        var ignoreMet := isBgp || result.returned;
        var newMed := ApplyLongExprModification(work.med, e);
        if newMed.Err? {
          return Err(newMed.error);
        }
        var med := Ite(ignoreMed, work.med, newMed.value);
        var newMet := ApplyLongExprModification(work.metric, e);
        var met := Ite(ignoreMet, work.metric, newMet.value);
        work.med := med;
        work.metric := met;
      case SetOspfMetricType(_) =>
        var newValue := E1;
        work.ospfMetric := Ite(result.returned, work.ospfMetric, newValue);
      case SetLocalPreference(e) =>
        var newValue := ApplyLongExprModification(work.localPref, e);
        if newValue.Err? {
          return Err(newValue.error);
        }
        work.localPref := Ite(result.returned, work.localPref, newValue.value);
      case AddCommunity(vars) =>
        var commAPs := AtomicPredicatesFor(env, vars);
        if commAPs.Err? {
          return Err(commAPs.error);
        }
        work.AddCommunity(commAPs.value, result.returned);
      case SetCommunity(vars) =>
        var commAPs := AtomicPredicatesFor(env, vars);
        if commAPs.Err? {
          return Err(commAPs.error);
        }
        work.SetCommunity(commAPs.value, result.returned);
      case DeleteCommunity(vars) =>
        var commAPs := AtomicPredicatesFor(env, vars);
        if commAPs.Err? {
          return Err(commAPs.error);
        }
        work.DeleteCommunity(commAPs.value, result.returned);
      case PrependAsPath(e) =>
        var prependCost := PrependLength(e);
        if prependCost.Err? {
          return Err(prependCost.error);
        }
        var newValue := Add32(work.metric, FromLong(prependCost.value));
        work.metric := Ite(result.returned, work.metric, newValue);
      case SetOrigin =>
      case SetNextHop =>
      case OtherStmt(kind) =>
        return Err(UnsupportedStatement(kind));
    }
    r := Ok(Control(curP, result, doesReturn));
  }

  /** The `If` statement: the guard is compiled on the working record (a policy it calls may write
      that record), both branches run on deep copies of the result's current record, and their
      results are merged. */
  method ExecIf(env: Setting, fuel: nat, g: Expr, t: seq<Stmt>, f: seq<Stmt>, ctl: Control, work: RouteRecord)
    returns (r: Result<Control>)
    requires work.comms.Length == env.numAps && RefShaped(env, ctl.res.record)
    modifies work, work.comms
    ensures IfStep(env, fuel, g, t, f, StateOf(ctl, old(work.Value()))).Ok? ==>
      r == Ok(ControlOf(IfStep(env, fuel, g, t, f, StateOf(ctl, old(work.Value()))).value)) &&
      work.Value() == IfStep(env, fuel, g, t, f, StateOf(ctl, old(work.Value()))).value.work
    ensures IfStep(env, fuel, g, t, f, StateOf(ctl, old(work.Value()))).Err? ==>
      r == Err(IfStep(env, fuel, g, t, f, StateOf(ctl, old(work.Value()))).error)
    decreases fuel, StmtSize(If(g, t, f)), 0
  {
    ghost var st := StateOf(ctl, work.Value());
    var curP, result := ctl.param, ctl.res;
    var gr := EvalExpr(env, fuel, g, curP.Indent(), work.Value());
    if gr.Err? {
      assert IfStep(env, fuel, g, t, f, st) == Err(gr.error);
      return Err(gr.error);
    }
    work.Overwrite(gr.value.work);
    var guard := gr.value.res.accept;
    var current := Resolve(result.record, work.Value());
    var branches := RunBranches(env, fuel, t, f, curP.Indent(), current);
    if branches.Err? {
      assert IfStep(env, fuel, g, t, f, st) == Err(branches.error);
      return Err(branches.error);
    }
    var (trueBranch, falseBranch) := branches.value;
    result := MergeBranches(env, result, current, guard, trueBranch, falseBranch);
    assert IfStep(env, fuel, g, t, f, st) == Ok(st.(res := result, work := gr.value.work));
    r := Ok(Control(curP, result, ctl.doesReturn));
  }

  /** The merge after an `If`, as the compiler builds it: the branch records are merged under the
      guard, that record with the current one under returnAssigned, and the three flags likewise. */
  method MergeBranches(env: Setting, result: TResult, current: Route, guard: bool, trueBranch: Outcome, falseBranch: Outcome)
    returns (merged: TResult)
    requires Shaped(env, current) && OutcomeShaped(env, trueBranch) && OutcomeShaped(env, falseBranch)
    ensures merged == MergeIf(env, result, current, guard, trueBranch, falseBranch)
  {
    var alreadyReturned := result.returned;
    var r1 := Resolve(trueBranch.res.record, trueBranch.work);
    var r2 := Resolve(falseBranch.res.record, falseBranch.work);
    var picked := MergeRecords(env.input, guard, r1, r2);
    var recordVal := MergeRecords(env.input, alreadyReturned, current, picked);
    var returnVal := Ite(alreadyReturned, result.accept, Ite(guard, trueBranch.res.accept, falseBranch.res.accept));
    var returnAss := alreadyReturned || Ite(guard, trueBranch.res.returned, falseBranch.res.returned);
    var fallThrough := Ite(alreadyReturned, result.fallthrough,
      Ite(guard, trueBranch.res.fallthrough, falseBranch.res.fallthrough));
    merged := TResult(Merged(recordVal), returnVal, returnAss, fallThrough);
  }

  /** The two branches of an `If`, each run on a deep copy of `current`; the outcome of each is
      its result and its copy's final value. */
  method RunBranches(env: Setting, fuel: nat, t: seq<Stmt>, f: seq<Stmt>, p: Param, current: Route)
    returns (r: Result<(Outcome, Outcome)>)
    requires Shaped(env, current)
    ensures ExecStmts(env, fuel, t, p, current).Err? ==> r == Err(ExecStmts(env, fuel, t, p, current).error)
    ensures ExecStmts(env, fuel, t, p, current).Ok? && ExecStmts(env, fuel, f, p, current).Err? ==>
      r == Err(ExecStmts(env, fuel, f, p, current).error)
    ensures ExecStmts(env, fuel, t, p, current).Ok? && ExecStmts(env, fuel, f, p, current).Ok? ==>
      r == Ok((ExecStmts(env, fuel, t, p, current).value, ExecStmts(env, fuel, f, p, current).value))
    decreases fuel, StmtsSize(t) + StmtsSize(f), 3
  {
    var pTrue := new RouteRecord.Copy(current);
    var pFalse := new RouteRecord.Copy(current);
    var trueBranch := ComputeStmts(env, fuel, t, p, pTrue);
    if trueBranch.Err? {
      return Err(trueBranch.error);
    }
    var falseBranch := ComputeStmts(env, fuel, f, p, pFalse);
    if falseBranch.Err? {
      return Err(falseBranch.error);
    }
    r := Ok((Outcome(trueBranch.value, pTrue.Value()), Outcome(falseBranch.value, pFalse.Value())));
  }

  /** `compute(ignoredNetworks)`: a record of the input variables is allocated and the policy's
      statements are compiled on it from the initial parameters. */
  method ComputePolicy(env: Setting, fuel: nat, stmts: seq<Stmt>) returns (out: Result<TResult>)
    ensures Compute(env, fuel, stmts).Ok? ==> out == Ok(Compute(env, fuel, stmts).value.res)
    ensures Compute(env, fuel, stmts).Err? ==> out == Err(Compute(env, fuel, stmts).error)
  {
    var o := new RouteRecord.Copy(env.input);
    out := ComputeStmts(env, fuel, stmts, InitialParam, o);
  }
}

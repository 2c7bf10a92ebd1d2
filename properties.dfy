/** Properties of the compiled semantics: first-match folds, the freezing of a decided route,
    finalization, the protocol match, and the behaviour the two record references produce. */
module Properties {
  import opened Common
  import opened Routes
  import opened Policy
  import opened Matchers
  import opened Transfer

  // ---------------------------------------------------------------------------------------------
  // Numeric helpers

  /** Incrementing and then decrementing by the same constant gives back the value, across the
      32-bit wrap-around. */
  lemma IncrementThenDecrement(x: u32, v: int)
    ensures ApplyLongExprModification(x, IncrementMetric(v)).Ok?
    ensures ApplyLongExprModification(ApplyLongExprModification(x, IncrementMetric(v)).value, DecrementMetric(v)) == Ok(x)
  {
  }

  /** The top `n` bits of a 32-bit value, as a number. */
  function TopBits(x: u32, n: PrefixLength): int {
    x as int / Pow2(32 - n)
  }

  lemma {:induction false} DivByDouble(x: nat, d: nat)
    requires d > 0
    ensures x / (2 * d) == (x / d) / 2
  {
    var q := x / d;
    var r := x % d;
    assert x == d * q + r;
    var q2 := q / 2;
    var b := q % 2;
    assert q == 2 * q2 + b;
    assert x == (2 * d) * q2 + (d * b + r) by {
      calc {
        x;
        d * q + r;
        d * (2 * q2 + b) + r;
        (2 * d) * q2 + (d * b + r);
      }
    }
    assert 0 <= d * b + r < 2 * d;
    DivUnique(x, 2 * d, q2, d * b + r);
  }

  lemma DivUnique(x: int, d: int, q: int, r: int)
    requires d > 0 && x == d * q + r && 0 <= r < d
    ensures x / d == q
  {
    var q', r' := x / d, x % d;
    assert x == d * q' + r';
    MulBounds(d, q' - q);
    assert d * q' - d * q == d * (q' - q);
  }

  lemma {:induction false} MulBounds(d: int, k: int)
    requires d > 0
    ensures k >= 1 ==> d * k >= d
    ensures k <= -1 ==> d * k <= -d
    decreases if k < 0 then -k else k
  {
    if k > 1 {
      MulBounds(d, k - 1);
      assert d * k == d * (k - 1) + d;
    } else if k < -1 {
      MulBounds(d, k + 1);
      assert d * k == d * (k + 1) - d;
    }
  }

  lemma Pow2ThirtyTwo()
    ensures Pow2(32) == Modulus
  {
    assert Pow2(8) == 256;
    assert Pow2(16) == 65536;
    assert Pow2(24) == 16777216;
  }

  /** One more top bit: the top `n + 1` bits are the top `n` bits followed by bit `n`. */
  lemma TopBitsStep(x: u32, n: nat)
    requires n < 32
    ensures TopBits(x, n + 1) == 2 * TopBits(x, n) + (if BitAt(x, n) then 1 else 0)
  {
    assert Pow2(32 - n) == 2 * Pow2(31 - n);
    DivByDouble(x as int, Pow2(31 - n));
  }

  /** `firstBitsEqual` in arithmetic terms: the first `n` bits of two addresses agree exactly when
      the addresses lie in the same network of length `n`. */
  lemma {:induction false} BitsAgreeIsSameNetwork(x: u32, y: u32, n: PrefixLength)
    ensures (forall i :: 0 <= i < n ==> BitAt(x, i) == BitAt(y, i)) <==> TopBits(x, n) == TopBits(y, n)
  {
    if n == 0 {
      Pow2ThirtyTwo();
    } else {
      BitsAgreeIsSameNetwork(x, y, n - 1);
      TopBitsStep(x, n - 1);
      TopBitsStep(y, n - 1);
    }
  }

  /** `isRelevantFor` in arithmetic terms: the route's address lies in the range's network and its
      prefix length in the range's length interval. */
  lemma IsRelevantForMeaning(r: Route, range: PrefixRange)
    ensures IsRelevantFor(r, range) <==>
      && TopBits(r.prefix, range.prefix.length) == TopBits(range.prefix.start, range.prefix.length)
      && range.lengthRange.start <= r.prefixLength <= range.lengthRange.end
  {
    BitsAgreeIsSameNetwork(r.prefix, range.prefix.start, range.prefix.length);
  }

  // ---------------------------------------------------------------------------------------------
  // Matchers

  /** A list `[(P1, deny), (P2, permit)]` denies a route both lines match and permits a route only
      the second one matches. */
  lemma FilterListDenyThenPermit(env: Setting, deny: FilterLine, permit: FilterLine, r: Route)
    requires !deny.permit && permit.permit
    requires deny.wildcard.PrefixWildcard? && permit.wildcard.PrefixWildcard?
    ensures FilterListMatch(env, [deny, permit], r).Ok?
    ensures FilterLineMatches(env, deny, r) ==> FilterListMatch(env, [deny, permit], r) == Ok(false)
    ensures !FilterLineMatches(env, deny, r) && FilterLineMatches(env, permit, r) ==>
      FilterListMatch(env, [deny, permit], r) == Ok(true)
  {
    assert [deny, permit][1..] == [permit];
    assert [permit][1..] == [];
    assert FilterListMatch(env, [], r) == Ok(false);
    assert FilterListMatch(env, [permit], r) == Ok(FilterLineMatches(env, permit, r));
  }

  // ---------------------------------------------------------------------------------------------
  // Expressions

  /** A chain is decided by its first clause that does not fall through; if every clause falls
      through, it is false. */
  lemma {:induction false} ChainValueFirstMatch(clauses: seq<ExprResult>)
    ensures ChainValue(clauses) <==>
      exists i :: 0 <= i < |clauses| && !FallsThrough(clauses[i]) && clauses[i].accept &&
        forall j :: 0 <= j < i ==> FallsThrough(clauses[j])
  {
    if clauses != [] {
      var tail := clauses[1..];
      ChainValueFirstMatch(tail);
      assert forall i :: 1 <= i < |clauses| ==> clauses[i] == tail[i - 1];
      if !FallsThrough(clauses[0]) {
        if !clauses[0].accept {
          forall i | 0 <= i < |clauses| && !FallsThrough(clauses[i]) && clauses[i].accept
            ensures !(forall j :: 0 <= j < i ==> FallsThrough(clauses[j]))
          {
            assert i > 0;
          }
        }
      } else if ChainValue(clauses) {
        var k :| 0 <= k < |tail| && !FallsThrough(tail[k]) && tail[k].accept &&
          forall j :: 0 <= j < k ==> FallsThrough(tail[j]);
        assert forall j :: 0 <= j < k + 1 ==> FallsThrough(clauses[j]) by {
          forall j | 0 <= j < k + 1 ensures FallsThrough(clauses[j]) {
            if j > 0 { assert clauses[j] == tail[j - 1]; }
          }
        }
      } else {
        forall i | 0 <= i < |clauses| && !FallsThrough(clauses[i]) && clauses[i].accept
          ensures !(forall j :: 0 <= j < i ==> FallsThrough(clauses[j]))
        {
          assert i > 0 && clauses[i] == tail[i - 1];
          var j :| 0 <= j < i - 1 && !FallsThrough(tail[j]);
          assert clauses[j + 1] == tail[j];
        }
      }
    }
  }

  /** A single-protocol match holds when the protocol maps to a protocol-history value and the
      route has it. */
  predicate ProtocolIs(env: Setting, name: string, work: Route) {
    name in env.protocolOf && work.protocol == env.protocolOf[name]
  }

  lemma {:induction false} ProtocolDisjunction(env: Setting, fuel: nat, ps: seq<string>, p: Param, acc: bool, work: Route)
    requires Shaped(env, work)
    ensures EvalJunction(env, fuel, SingleProtocols(ps), p, false, acc, work) ==
      Ok(Folded(acc || exists i :: 0 <= i < |ps| && ProtocolIs(env, ps[i], work), work))
  {
    var mps := SingleProtocols(ps);
    if ps != [] {
      assert mps[1..] == SingleProtocols(ps[1..]);
      var acc' := acc || ProtocolIs(env, ps[0], work);
      assert mps[0] == MatchProtocol([ps[0]]) && IsLeaf(mps[0]);
      assert EvalLeaf(env, mps[0], p.Indent(), work) == Ok(ExprOutcome(FromExpr(ProtocolIs(env, ps[0], work)), work));
      assert EvalExpr(env, fuel, mps[0], p.Indent(), work) == Ok(ExprOutcome(FromExpr(ProtocolIs(env, ps[0], work)), work));
      assert EvalJunction(env, fuel, mps, p, false, acc, work) == EvalJunction(env, fuel, mps[1..], p, false, acc', work);
      ProtocolDisjunction(env, fuel, ps[1..], p, acc', work);
      assert (exists i :: 0 <= i < |ps| && ProtocolIs(env, ps[i], work)) <==>
        ProtocolIs(env, ps[0], work) || exists i :: 0 <= i < |ps[1..]| && ProtocolIs(env, ps[1..][i], work)
      by {
        if exists i :: 0 <= i < |ps| && ProtocolIs(env, ps[i], work) {
          var i :| 0 <= i < |ps| && ProtocolIs(env, ps[i], work);
          if i > 0 { assert ps[1..][i - 1] == ps[i]; }
        }
      }
    }
  }

  /** `MatchProtocol(ps)`: an error on an empty set; otherwise the route's protocol is one of the
      protocols named, and the working record is left alone. */
  lemma MatchProtocolAnyOf(env: Setting, fuel: nat, ps: seq<string>, p: Param, work: Route)
    requires Shaped(env, work)
    ensures EvalExpr(env, fuel, MatchProtocol(ps), p, work).Ok? <==> |ps| > 0
    ensures |ps| > 0 ==>
      && EvalExpr(env, fuel, MatchProtocol(ps), p, work).value.work == work
      && (EvalExpr(env, fuel, MatchProtocol(ps), p, work).value.res.accept <==>
          exists i :: 0 <= i < |ps| && ProtocolIs(env, ps[i], work))
  {
    if |ps| > 1 {
      ProtocolDisjunction(env, fuel, ps, p, false, work);
    }
  }

  /** `Not` negates the accept value of its operand and keeps everything else: the record, the
      flags, what the operand wrote, and its failure. */
  lemma NotNegates(env: Setting, fuel: nat, e: Expr, p: Param, work: Route)
    requires Shaped(env, work)
    ensures var r := EvalExpr(env, fuel, Not(e), p, work);
      var o := EvalExpr(env, fuel, e, p, work);
      && (r.Ok? <==> o.Ok?)
      && (r.Err? ==> r.error == o.error)
      && (r.Ok? ==>
        && r.value.res.accept == !o.value.res.accept
        && r.value.work == o.value.work
        && r.value.res.record == o.value.res.record
        && r.value.res.returned == o.value.res.returned
        && r.value.res.fallthrough == o.value.res.fallthrough)
  {
    assert !IsLeaf(Not(e));
  }

  /** An operand of a conjunction or disjunction that compiles and leaves the working record as
      it found it. */
  predicate LeavesRecord(env: Setting, fuel: nat, e: Expr, p: Param, work: Route)
    requires Shaped(env, work)
  {
    var o := EvalExpr(env, fuel, e, p, work);
    o.Ok? && o.value.work == work
  }

  /** The operand's accept value, when it compiles. */
  predicate OperandAccepts(env: Setting, fuel: nat, e: Expr, p: Param, work: Route)
    requires Shaped(env, work)
  {
    var o := EvalExpr(env, fuel, e, p, work);
    o.Ok? && o.value.res.accept
  }

  /** The loop of `Conjunction`/`Disjunction` over operands that do not write the record: the
      accumulator is anded with every operand's accept value, or ored with some operand's. */
  lemma {:induction false} JunctionOfReadOnlyOperands(env: Setting, fuel: nat, es: seq<Expr>, p: Param, conj: bool, acc: bool, work: Route)
    requires Shaped(env, work)
    requires forall i :: 0 <= i < |es| ==> LeavesRecord(env, fuel, es[i], p.Indent(), work)
    ensures conj ==>
      EvalJunction(env, fuel, es, p, conj, acc, work) ==
      Ok(Folded(acc && forall i :: 0 <= i < |es| ==> OperandAccepts(env, fuel, es[i], p.Indent(), work), work))
    ensures !conj ==>
      EvalJunction(env, fuel, es, p, conj, acc, work) ==
      Ok(Folded(acc || exists i :: 0 <= i < |es| && OperandAccepts(env, fuel, es[i], p.Indent(), work), work))
    decreases |es|
  {
    if es != [] {
      assert LeavesRecord(env, fuel, es[0], p.Indent(), work);
      var o := EvalExpr(env, fuel, es[0], p.Indent(), work).value;
      var acc' := if conj then acc && o.res.accept else acc || o.res.accept;
      var rest := es[1..];
      forall i | 0 <= i < |rest|
        ensures LeavesRecord(env, fuel, rest[i], p.Indent(), work)
      {
        assert rest[i] == es[i + 1];
      }
      JunctionOfReadOnlyOperands(env, fuel, rest, p, conj, acc', work);
      assert EvalJunction(env, fuel, es, p, conj, acc, work) == EvalJunction(env, fuel, rest, p, conj, acc', work);
      if conj {
        var all := forall i :: 0 <= i < |es| ==> OperandAccepts(env, fuel, es[i], p.Indent(), work);
        var allRest := forall i :: 0 <= i < |rest| ==> OperandAccepts(env, fuel, rest[i], p.Indent(), work);
        assert all == (o.res.accept && allRest) by {
          if all {
            forall i | 0 <= i < |rest|
              ensures OperandAccepts(env, fuel, rest[i], p.Indent(), work)
            {
              assert rest[i] == es[i + 1];
            }
          }
          if o.res.accept && allRest {
            forall i | 0 <= i < |es|
              ensures OperandAccepts(env, fuel, es[i], p.Indent(), work)
            {
              if i > 0 { assert es[i] == rest[i - 1]; }
            }
          }
        }
      } else {
        var some := exists i :: 0 <= i < |es| && OperandAccepts(env, fuel, es[i], p.Indent(), work);
        var someRest := exists i :: 0 <= i < |rest| && OperandAccepts(env, fuel, rest[i], p.Indent(), work);
        assert some == (o.res.accept || someRest) by {
          if some {
            var i :| 0 <= i < |es| && OperandAccepts(env, fuel, es[i], p.Indent(), work);
            if i > 0 { assert rest[i - 1] == es[i]; }
          }
          if someRest {
            var i :| 0 <= i < |rest| && OperandAccepts(env, fuel, rest[i], p.Indent(), work);
            assert es[i + 1] == rest[i];
          }
        }
      }
    }
  }

  /** A conjunction of operands that do not write the record accepts exactly when every operand
      accepts, a disjunction exactly when some operand does; both leave returnAssigned and
      fallthrough unset, and both refer to the working record, unchanged. */
  lemma JunctionMeaning(env: Setting, fuel: nat, es: seq<Expr>, p: Param, work: Route)
    requires Shaped(env, work)
    requires forall i :: 0 <= i < |es| ==> LeavesRecord(env, fuel, es[i], p.Indent(), work)
    ensures EvalExpr(env, fuel, Conjunction(es), p, work) == Ok(ExprOutcome(ExprResult(Working,
      forall i :: 0 <= i < |es| ==> OperandAccepts(env, fuel, es[i], p.Indent(), work), None, None), work))
    ensures EvalExpr(env, fuel, Disjunction(es), p, work) == Ok(ExprOutcome(ExprResult(Working,
      exists i :: 0 <= i < |es| && OperandAccepts(env, fuel, es[i], p.Indent(), work), None, None), work))
  {
    JunctionOfReadOnlyOperands(env, fuel, es, p, true, true, work);
    JunctionOfReadOnlyOperands(env, fuel, es, p, false, false, work);
  }


  // ---------------------------------------------------------------------------------------------
  // The statement loop

  /** The loop's own invariant: where `doesReturn` is set, a return has been reached. */
  predicate ReturnRecorded(st: State) {
    st.doesReturn ==> st.res.returned
  }

  /** Once a return has been reached, a statement changes neither the accept value nor the
      fallthrough value, and the route stays returned; the loop invariant is kept as well. */
  lemma StepKeepsDecision(env: Setting, fuel: nat, s: Stmt, st: State)
    requires StateShaped(env, st) && Step(env, fuel, s, st).Ok?
    ensures ReturnRecorded(st) ==> ReturnRecorded(Step(env, fuel, s, st).value)
    ensures st.res.returned ==>
      && Step(env, fuel, s, st).value.res.returned
      && Step(env, fuel, s, st).value.res.accept == st.res.accept
      && Step(env, fuel, s, st).value.res.fallthrough == st.res.fallthrough
  {
    match s
    case If(g, t, f) =>
      var go := EvalExpr(env, fuel, g, st.param.Indent(), st.work).value;
      var current := Resolve(st.res.record, go.work);
      var tb := ExecStmts(env, fuel, t, st.param.Indent(), current).value;
      var fb := ExecStmts(env, fuel, f, st.param.Indent(), current).value;
      assert Step(env, fuel, s, st).value.res == MergeIf(env, st.res, current, go.res.accept, tb, fb);
    case _ =>
  }

  /** The first return wins over a whole statement list: what a returned route decides is final. */
  lemma {:induction false} RunKeepsDecision(env: Setting, fuel: nat, stmts: seq<Stmt>, st: State)
    requires StateShaped(env, st) && Run(env, fuel, stmts, st).Ok?
    ensures ReturnRecorded(st) ==> ReturnRecorded(Run(env, fuel, stmts, st).value)
    ensures st.res.returned ==>
      && Run(env, fuel, stmts, st).value.res.returned
      && Run(env, fuel, stmts, st).value.res.accept == st.res.accept
      && Run(env, fuel, stmts, st).value.res.fallthrough == st.res.fallthrough
    decreases stmts
  {
    if stmts != [] {
      var st1 := Step(env, fuel, stmts[0], st).value;
      StepKeepsDecision(env, fuel, stmts[0], st);
      RunKeepsDecision(env, fuel, stmts[1..], st1);
    }
  }

  /** Every compiled policy decides every route: the outermost result counts as returned
      everywhere, either through a return statement or through the default action. */
  lemma ComputeDecides(env: Setting, fuel: nat, stmts: seq<Stmt>)
    requires Compute(env, fuel, stmts).Ok?
    ensures Compute(env, fuel, stmts).value.res.returned
  {
    var st := Run(env, fuel, stmts, InitState(InitialParam, env.input)).value;
    RunKeepsDecision(env, fuel, stmts, InitState(InitialParam, env.input));
    assert ReturnRecorded(st);
  }

  /** On a returned route, a statement other than `If` writes nothing: the working record and the
      result are as they were (only the parameters and `doesReturn` may change). */
  lemma ReturnedStepWritesNothing(env: Setting, fuel: nat, s: Stmt, st: State)
    requires StateShaped(env, st) && st.res.returned && !s.If?
    requires Step(env, fuel, s, st).Ok?
    ensures Step(env, fuel, s, st).value.work == st.work
    ensures Step(env, fuel, s, st).value.res == st.res
  {
    match s
    case StaticStmt(k) =>
    case SetMetric(e) =>
    case AddCommunity(vars) =>
    case SetCommunity(vars) =>
    case DeleteCommunity(vars) =>
    case _ =>
  }

  /** The same over a statement list without `If`: after a return nothing is written. */
  lemma {:induction false} ReturnedRunWritesNothing(env: Setting, fuel: nat, stmts: seq<Stmt>, st: State)
    requires StateShaped(env, st) && st.res.returned
    requires forall i :: 0 <= i < |stmts| ==> !stmts[i].If?
    requires Run(env, fuel, stmts, st).Ok?
    ensures Run(env, fuel, stmts, st).value.work == st.work
    ensures Run(env, fuel, stmts, st).value.res == st.res
    decreases stmts
  {
    if stmts != [] {
      ReturnedStepWritesNothing(env, fuel, stmts[0], st);
      var st1 := Step(env, fuel, stmts[0], st).value;
      ReturnedRunWritesNothing(env, fuel, stmts[1..], st1);
    }
  }

  // ---------------------------------------------------------------------------------------------
  // The outermost compilation

  /** The output route of the outermost compilation: its prefix, prefix length, protocol and OSPF
      type are the input's; where it is rejected, every merged field and every atomic predicate is
      zero. */
  lemma ComputeOutput(env: Setting, fuel: nat, stmts: seq<Stmt>)
    requires Compute(env, fuel, stmts).Ok?
    ensures var out := Compute(env, fuel, stmts).value.res.record.route;
      && out.prefix == env.input.prefix && out.prefixLength == env.input.prefixLength
      && out.protocol == env.input.protocol && out.ospfMetric == env.input.ospfMetric
    ensures var o := Compute(env, fuel, stmts).value;
      !o.res.accept ==>
        && o.res.record.route.metric == 0 && o.res.record.route.localPref == 0
        && o.res.record.route.adminDist == 0 && o.res.record.route.med == 0
        && forall i :: 0 <= i < |o.res.record.route.comms| ==> !o.res.record.route.comms[i]
  {
    var st := Run(env, fuel, stmts, InitState(InitialParam, env.input)).value;
    var o := Finalize(env, st);
    assert CarriedOf(o.res.record.route) == CarriedOf(Zeroed(env.input)) || o.res.accept;
  }

  /** One turn of the statement loop, for unfolding concrete lists. */
  lemma RunUnfold(env: Setting, fuel: nat, stmts: seq<Stmt>, st: State)
    requires StateShaped(env, st) && stmts != [] && Step(env, fuel, stmts[0], st).Ok?
    ensures Run(env, fuel, stmts, st) == Run(env, fuel, stmts[1..], Step(env, fuel, stmts[0], st).value)
  {
  }

  /** An inner statement list (any call below the outermost) is not finalized: its outcome is the
      loop's final result and working record. */
  lemma InnerExecStmts(env: Setting, fuel: nat, stmts: seq<Stmt>, p: Param, work: Route)
    requires Shaped(env, work) && !p.InitialCall()
    requires Run(env, fuel, stmts, InitState(p, work)).Ok?
    ensures var st := Run(env, fuel, stmts, InitState(p, work)).value;
      ExecStmts(env, fuel, stmts, p, work) == Ok(Outcome(st.res, st.work))
  {
    var st := Run(env, fuel, stmts, InitState(p, work)).value;
    assert Finalize(env, st) == Outcome(st.res, st.work);
  }

  /** An empty policy applies the default action, which starts as reject. */
  lemma EmptyPolicyRejects(env: Setting, fuel: nat)
    ensures Compute(env, fuel, []).Ok?
    ensures !Compute(env, fuel, []).value.res.accept
  {
  }

  /** A route decided by `ExitAccept` keeps the metric it had: a later `SetMetric` is ignored,
      whereas the same statement before the exit is applied. */
  lemma ExitAcceptFreezesMetric(env: Setting, fuel: nat)
    ensures var o := Compute(env, fuel, [StaticStmt(ExitAccept), SetMetric(LiteralLong(100))]);
      && o.Ok? && o.value.res.accept
      && o.value.res.record.route.metric == env.input.metric
      && o.value.res.record.route.med == env.input.med
    ensures var o := Compute(env, fuel, [SetMetric(LiteralLong(100)), StaticStmt(ExitAccept)]);
      && o.Ok? && o.value.res.accept
      && (env.input.protocol != Bgp ==> o.value.res.record.route.metric == 100)
      && (env.input.protocol == Bgp ==> o.value.res.record.route.med == 100)
  {
    var s0 := InitState(InitialParam, env.input);
    var a1 := Step(env, fuel, StaticStmt(ExitAccept), s0).value;
    assert a1.res == TResult(Working, true, true, false) && a1.work == env.input && a1.doesReturn;
    var a2 := Step(env, fuel, SetMetric(LiteralLong(100)), a1).value;
    assert a2 == a1;
    var la := [StaticStmt(ExitAccept), SetMetric(LiteralLong(100))];
    RunUnfold(env, fuel, la, s0);
    RunUnfold(env, fuel, la[1..], a1);
    assert la[1..][1..] == [];
    var b1 := Step(env, fuel, SetMetric(LiteralLong(100)), s0).value;
    assert b1.res == s0.res;
    assert env.input.protocol != Bgp ==> b1.work.metric == 100;
    assert env.input.protocol == Bgp ==> b1.work.med == 100;
    var b2 := Step(env, fuel, StaticStmt(ExitAccept), b1).value;
    assert b2.res == TResult(Working, true, true, false) && b2.work == b1.work && b2.doesReturn;
    var lb := [SetMetric(LiteralLong(100)), StaticStmt(ExitAccept)];
    RunUnfold(env, fuel, lb, s0);
    RunUnfold(env, fuel, lb[1..], b1);
    assert lb[1..][1..] == [];
  }

  /** A prepend of three AS numbers adds three to the metric, at 32 bits. */
  lemma PrependAddsLength(env: Setting, fuel: nat, a: int, b: int, c: int)
    ensures var o := Compute(env, fuel, [PrependAsPath(LiteralAsList([a, b, c])), StaticStmt(ExitAccept)]);
      o.Ok? && o.value.res.accept && o.value.res.record.route.metric == Add32(env.input.metric, 3)
  {
    var s0 := InitState(InitialParam, env.input);
    var s1 := Step(env, fuel, PrependAsPath(LiteralAsList([a, b, c])), s0).value;
    assert s1.work.metric == Add32(env.input.metric, 3) && s1.res == s0.res;
    var s2 := Step(env, fuel, StaticStmt(ExitAccept), s1).value;
    var l := [PrependAsPath(LiteralAsList([a, b, c])), StaticStmt(ExitAccept)];
    RunUnfold(env, fuel, l, s0);
    RunUnfold(env, fuel, l[1..], s1);
    assert l[1..][1..] == [];
  }

  /** Setting the communities `x` and then adding `y` leaves exactly the atomic predicates of `x`
      and of `y`. */
  lemma SetThenAddCommunities(env: Setting, fuel: nat, x: CommunityVar, y: CommunityVar)
    requires x in env.apsOf && y in env.apsOf
    ensures var o := Compute(env, fuel, [SetCommunity({x}), AddCommunity({y}), StaticStmt(ExitAccept)]);
      && o.Ok? && o.value.res.accept
      && |o.value.res.record.route.comms| == env.numAps
      && forall i :: 0 <= i < env.numAps ==>
           (o.value.res.record.route.comms[i] <==> i in env.apsOf[x] || i in env.apsOf[y])
  {
    var stmts := [SetCommunity({x}), AddCommunity({y}), StaticStmt(ExitAccept)];
    var s0 := InitState(InitialParam, env.input);
    var ax := AtomicPredicatesFor(env, {x});
    var ay := AtomicPredicatesFor(env, {y});
    assert ax.Ok? && forall i :: i in ax.value <==> i in env.apsOf[x];
    assert ay.Ok? && forall i :: i in ay.value <==> i in env.apsOf[y];
    var s1 := Step(env, fuel, stmts[0], s0).value;
    assert s1.work.comms == SetCommunities(env.input.comms, ax.value, false) && s1.res == s0.res;
    var s2 := Step(env, fuel, stmts[1], s1).value;
    assert s2.work.comms == AddCommunities(s1.work.comms, ay.value, false) && s2.res == s0.res;
    var s3 := Step(env, fuel, stmts[2], s2).value;
    assert forall i :: 0 <= i < env.numAps ==> (s2.work.comms[i] <==> i in env.apsOf[x] || i in env.apsOf[y]);
    RunUnfold(env, fuel, stmts, s0);
    RunUnfold(env, fuel, stmts[1..], s1);
    RunUnfold(env, fuel, stmts[1..][1..], s2);
    assert stmts[1..][1..][1..] == [];
  }

  // ---------------------------------------------------------------------------------------------
  // Chains

  /** `FirstMatchChain([A, B])` where `A` falls through and `B` returns true accepts; with no
      default policy the chain's value is the first non-falling-through clause's. */
  lemma FallThroughThenAccept(env: Setting, fuel: nat, p: Param, work: Route, a: string, b: string)
    requires Shaped(env, work) && fuel >= 1 && p.defaultPolicy.None?
    requires a in env.policies && env.policies[a] == [StaticStmt(FallThrough)]
    requires b in env.policies && env.policies[b] == [StaticStmt(ReturnTrue)]
    ensures var o := EvalExpr(env, fuel, FirstMatchChain([CallExpr(a), CallExpr(b)]), p, work);
      o.Ok? && o.value.res.accept
  {
    var items := [CallExpr(a), CallExpr(b)];
    var eb := ExprResult(Working, true, Some(true), Some(false));
    var ea := ExprResult(Working, false, Some(true), Some(true));
    CallOfOneStatic(env, fuel, b, ChainParam(p), work, ReturnTrue);
    CallOfOneStatic(env, fuel, a, ChainParam(p), work, FallThrough);
    assert items[1..] == [CallExpr(b)] && items[1..][1..] == [];
    assert ChainFold(env, fuel, items[1..][1..], p, Working, work) == Ok(ChainAcc(false, Working, work, []));
    var later := ChainFold(env, fuel, items[1..], p, Working, work);
    assert later == ChainStep(env, ExprOutcome(eb, work), ChainAcc(false, Working, work, []));
    assert [eb] + [] == [eb];
    assert later == Ok(ChainAcc(true, Working, work, [eb]));
    var c := ChainFold(env, fuel, items, p, Working, work);
    assert c == ChainStep(env, ExprOutcome(ea, work), later.value);
    assert [ea] + [eb] == [ea, eb];
    assert c == Ok(ChainAcc(true, Working, work, [ea, eb]));
    ChainValueFirstMatch(c.value.clauses);
  }

  /** A call of a policy made of one static statement returns that statement's result on the
      unchanged record, with both flags set. */
  lemma CallOfOneStatic(env: Setting, fuel: nat, name: string, q: Param, work: Route, k: StaticKind)
    requires Shaped(env, work) && fuel >= 1
    requires name in env.policies && env.policies[name] == [StaticStmt(k)]
    requires StaticStep(k, InitState(q.(callContext := ExprCall).Indent(), work)).Ok?
    ensures EvalExpr(env, fuel, CallExpr(name), q, work) ==
      Ok(ExprOutcome(OfStatements(StaticStep(k, InitState(q.(callContext := ExprCall).Indent(), work)).value.res), work))
  {
    var q' := q.(callContext := ExprCall).Indent();
    RunUnfold(env, fuel - 1, [StaticStmt(k)], InitState(q', work));
    assert [StaticStmt(k)][1..] == [];
    InnerExecStmts(env, fuel - 1, [StaticStmt(k)], q', work);
  }


  /** A chain clause that is a plain expression (a test, a conjunction or disjunction, or another
      chain) leaves fallthrough unset, so the chain cannot read it: a one-clause chain of it fails
      with the clause's own error or, when the clause compiles, on the unset value. */
  lemma {:induction false} ExprClauseBreaksChain(env: Setting, fuel: nat, e: Expr, p: Param, work: Route)
    requires Shaped(env, work) && p.defaultPolicy.None?
    requires IsLeaf(e) || e.Conjunction? || e.Disjunction? || e.ConjunctionChain? || e.FirstMatchChain?
    ensures EvalExpr(env, fuel, FirstMatchChain([e]), p, work).Err?
    ensures EvalExpr(env, fuel, ConjunctionChain([e]), p, work).Err?
    ensures EvalExpr(env, fuel, e, ChainParam(p), work).Ok? ==>
      && EvalExpr(env, fuel, FirstMatchChain([e]), p, work) == Err(UnsetFallthrough)
      && EvalExpr(env, fuel, ConjunctionChain([e]), p, work) == Err(UnsetFallthrough)
  {
    assert ChainItems([e], p) == [e];
    assert [e][1..] == [];
    assert ChainFold(env, fuel, [], p, Working, work) == Ok(ChainAcc(false, Working, work, []));
    var o := EvalExpr(env, fuel, e, ChainParam(p), work);
    if o.Ok? {
      assert o.value.res.fallthrough.None?;
      assert ChainFold(env, fuel, [e], p, Working, work) == Err(UnsetFallthrough);
    } else {
      assert ChainFold(env, fuel, [e], p, Working, work) == Err(o.error);
    }
  }

  // ---------------------------------------------------------------------------------------------
  // What the two record references produce

  /** A guard that calls a policy writes into the working record even on a route an earlier exit
      has decided: the call's own result has not returned, so its `SetMetric` applies, and the
      written record is what the `If` merges as the already-returned route. */
  lemma GuardCallWritesDecidedRoute(env: Setting, fuel: nat, name: string)
    requires env.input.protocol != Bgp && fuel >= 1
    requires name in env.policies && env.policies[name] == [SetMetric(LiteralLong(100))]
    ensures var o := Compute(env, fuel, [StaticStmt(ExitAccept), If(CallExpr(name), [], [])]);
      o.Ok? && o.value.res.accept && o.value.res.record.route.metric == 100
  {
    var stmts := [StaticStmt(ExitAccept), If(CallExpr(name), [], [])];
    var s0 := InitState(InitialParam, env.input);
    var s1 := Step(env, fuel, stmts[0], s0).value;
    assert s1.res == TResult(Working, true, true, false) && s1.work == env.input && s1.doesReturn;
    var q := s1.param.Indent().(callContext := ExprCall).Indent();
    var c1 := Step(env, fuel - 1, SetMetric(LiteralLong(100)), InitState(q, env.input)).value;
    assert c1.work.metric == 100 && c1.res == TResult(Working, false, false, false);
    RunUnfold(env, fuel - 1, [SetMetric(LiteralLong(100))], InitState(q, env.input));
    assert [SetMetric(LiteralLong(100))][1..] == [];
    var go := EvalExpr(env, fuel, CallExpr(name), s1.param.Indent(), s1.work);
    InnerExecStmts(env, fuel - 1, [SetMetric(LiteralLong(100))], s1.param.Indent().(callContext := ExprCall).Indent(), env.input);
    assert go == Ok(ExprOutcome(OfStatements(c1.res), c1.work));
    var current := c1.work;
    var branch := ExecStmts(env, fuel, [], s1.param.Indent(), current);
    InnerExecStmts(env, fuel, [], s1.param.Indent(), current);
    assert branch == Ok(Outcome(TResult(Working, false, false, false), current));
    var merged := MergeIf(env, s1.res, current, go.value.res.accept, branch.value, branch.value);
    assert IfStep(env, fuel, CallExpr(name), [], [], s1) == Ok(s1.(res := merged, work := c1.work));
    var s2 := Step(env, fuel, stmts[1], s1).value;
    assert s2 == s1.(res := merged, work := c1.work);
    assert s2.res.accept && s2.doesReturn && s2.res.record.route.metric == 100;
    RunUnfold(env, fuel, stmts, s0);
    RunUnfold(env, fuel, stmts[1..], s1);
    assert stmts[1..][1..] == [];
  }

  /** A statement after an `If` writes the working record, which the result no longer refers to: a
      `SetMetric` there never reaches the output. */
  lemma MetricAfterIfNotInOutput(env: Setting, fuel: nat)
    requires env.input.protocol != Bgp
    ensures var o := Compute(env, fuel,
        [StaticStmt(SetDefaultActionAccept), If(StaticBoolean(True), [], []), SetMetric(LiteralLong(100))]);
      o.Ok? && o.value.res.accept && o.value.res.record.route.metric == env.input.metric
  {
    var stmts := [StaticStmt(SetDefaultActionAccept), If(StaticBoolean(True), [], []), SetMetric(LiteralLong(100))];
    var s0 := InitState(InitialParam, env.input);
    var s1 := Step(env, fuel, stmts[0], s0).value;
    assert s1.param.defaultAccept && s1.res == s0.res && s1.work == env.input;
    var branch := ExecStmts(env, fuel, [], s1.param.Indent(), env.input);
    InnerExecStmts(env, fuel, [], s1.param.Indent(), env.input);
    assert branch == Ok(Outcome(TResult(Working, false, false, false), env.input));
    var merged := MergeIf(env, s1.res, env.input, true, branch.value, branch.value);
    assert IfStep(env, fuel, StaticBoolean(True), [], [], s1) == Ok(s1.(res := merged));
    var s2 := Step(env, fuel, stmts[1], s1);
    assert s2.Ok? && s2.value.res.record.Merged? && s2.value.res.record.route.metric == env.input.metric;
    assert !s2.value.res.returned && !s2.value.doesReturn && s2.value.param == s1.param;
    var s3 := Step(env, fuel, stmts[2], s2.value).value;
    assert s3.res == s2.value.res && s3.param == s1.param && !s3.doesReturn;
    RunUnfold(env, fuel, stmts, s0);
    RunUnfold(env, fuel, stmts[1..], s1);
    RunUnfold(env, fuel, stmts[1..][1..], s2.value);
    assert stmts[1..][1..][1..] == [];
  }
}

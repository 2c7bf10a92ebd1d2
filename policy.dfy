/** The routing-policy vocabulary the compiler consumes (boolean match expressions and
    statements), and the collaborators it consults: the device configuration, the network graph's
    atomic predicates, the ignored networks and the input route's own variables. */
module Policy {
  import opened Common
  import opened Routes

  /** A community variable: a literal community, a regex over communities, or some other kind. */
  datatype CommunityVarKind = Exact | Regex | OtherVarKind
  datatype CommunityVar = CommunityVar(kind: CommunityVarKind, text: string)

  /** A community-list line, with its match condition already converted to a community variable. */
  datatype CommunityLine = CommunityLine(permit: bool, condition: CommunityVar)

  /** An inclusive range of prefix lengths. */
  datatype SubRange = SubRange(start: int, end: int)

  /** An IP wildcard is either a plain prefix or a general address/mask pair. */
  datatype IpWildcard = PrefixWildcard(prefix: Prefix) | MaskWildcard

  datatype FilterLine = FilterLine(permit: bool, wildcard: IpWildcard, lengthRange: SubRange)

  datatype PrefixRange = PrefixRange(prefix: Prefix, lengthRange: SubRange)

  datatype PrefixSetExpr =
    | ExplicitPrefixSet(ranges: seq<PrefixRange>)
    | NamedPrefixSet(prefixSetName: string)
    | OtherPrefixSet

  datatype CommunitySetExpr =
    | InlineCommunityList(lines: seq<CommunityLine>)
    | NamedCommunitySet(communitySetName: string)
    | OtherCommunitySet

  /** The constant boolean expressions; two of them ask how the policy was entered. */
  datatype StaticBool = CallExprContext | CallStatementContext | True | False

  datatype Expr =
    | MatchIpv4
    | MatchIpv6
    | Conjunction(conjuncts: seq<Expr>)
    | Disjunction(disjuncts: seq<Expr>)
    | ConjunctionChain(subroutines: seq<Expr>)
    | FirstMatchChain(chainPolicies: seq<Expr>)
    | Not(negated: Expr)
    | MatchProtocol(protocols: seq<string>)
    | MatchPrefixSet(prefixSet: PrefixSetExpr)
    | MatchPrefix6Set
    | CallExpr(calledPolicy: string)
    | WithEnvironment(inner: Expr)
    | MatchCommunitySet(communitySet: CommunitySetExpr)
    | StaticBoolean(staticKind: StaticBool)
    | MatchAsPath
    | OtherExpr(exprKind: string)

  /** Expressions that compute a new metric or local preference from the current one. */
  datatype LongExpr =
    | LiteralLong(literal: int)
    | DecrementMetric(metricSubtrahend: int)
    | IncrementMetric(metricAddend: int)
    | IncrementLocalPreference(prefAddend: int)
    | DecrementLocalPreference(prefSubtrahend: int)
    | OtherLongExpr

  datatype IntExpr = LiteralInt(intValue: int) | OtherIntExpr

  datatype AsPathListExpr =
    | MultipliedAs(number: IntExpr)
    | LiteralAsList(asns: seq<int>)
    | OtherAsPathList

  /** The OSPF external metric type a statement asks for. */
  datatype OspfMetricType = OspfE1 | OspfE2

  /** The statements without arguments. */
  datatype StaticKind =
    | ExitAccept | ExitReject | ReturnTrue | ReturnFalse | Suppress | Unsuppress
    | SetDefaultActionAccept | SetDefaultActionReject
    | SetLocalDefaultActionAccept | SetLocalDefaultActionReject
    | ReturnLocalDefaultAction | FallThrough | Return | RemovePrivateAs
    | OtherStatic(staticName: string)

  /** Statements. The community statements carry the community variables their expression
      collects to. */
  datatype Stmt =
    | StaticStmt(kind: StaticKind)
    | If(guard: Expr, trueStmts: seq<Stmt>, falseStmts: seq<Stmt>)
    | SetDefaultPolicy(defaultPolicy: string)
    | SetMetric(metricExpr: LongExpr)
    | SetOspfMetricType(metricType: OspfMetricType)
    | SetLocalPreference(prefExpr: LongExpr)
    | AddCommunity(added: set<CommunityVar>)
    | SetCommunity(replacement: set<CommunityVar>)
    | DeleteCommunity(deleted: set<CommunityVar>)
    | PrependAsPath(asPath: AsPathListExpr)
    | SetOrigin
    | SetNextHop
    | OtherStmt(stmtKind: string)

  /** Everything the compiler reads besides the policy itself: the number of atomic predicates and
      each community variable's atomic predicates (from the graph), the configuration's routing
      policies, route-filter lists and community lists, the ignored-networks test, the mapping of
      vendor protocols to the protocol-history domain, and the value of the input route (which is
      also what any newly allocated record denotes). */
  datatype Env = Env(
    numAps: nat,
    apsOf: map<CommunityVar, set<nat>>,
    policies: map<string, seq<Stmt>>,
    filterLists: map<string, seq<FilterLine>>,
    communityLists: map<string, seq<CommunityLine>>,
    ignored: Prefix -> bool,
    protocolOf: map<string, Protocol>,
    input: Route)
  {
    /** Records have one atomic predicate per index below `numAps`, and the graph hands out only
        such indices. */
    predicate Valid() {
      && |input.comms| == numAps
      && forall c | c in apsOf :: forall i | i in apsOf[c] :: i < numAps
    }
  }

  type Setting = e: Env | e.Valid()
    witness Env(0, map[], map[], map[], map[], _ => false, map[], Route(0, 0, 0, 0, 0, 0, O, Connected, []))

  /** A route record of the shape every record in one compilation has. */
  predicate Shaped(env: Setting, r: Route) {
    |r.comms| == env.numAps
  }

  // Sizes of expressions and statements, used as termination measures.

  function ExprSize(e: Expr): (n: nat)
    ensures n >= 1
  {
    match e
    case Conjunction(es) => 1 + ExprsSize(es)
    case Disjunction(es) => 1 + ExprsSize(es)
    case ConjunctionChain(es) => 2 + ExprsSize(es)
    case FirstMatchChain(es) => 2 + ExprsSize(es)
    case Not(inner) => 1 + ExprSize(inner)
    case WithEnvironment(inner) => 1 + ExprSize(inner)
    case MatchProtocol(ps) => if |ps| <= 1 then 1 else 2 + |ps|
    case _ => 1
  }

  function ExprsSize(es: seq<Expr>): (n: nat)
    ensures n >= |es|
  {
    if es == [] then 0 else ExprSize(es[0]) + ExprsSize(es[1..])
  }

  function StmtSize(s: Stmt): (n: nat)
    ensures n >= 1
  {
    match s
    case If(g, t, f) => 1 + ExprSize(g) + StmtsSize(t) + StmtsSize(f)
    case _ => 1
  }

  function StmtsSize(ss: seq<Stmt>): (n: nat)
    ensures n >= |ss|
  {
    if ss == [] then 0 else StmtSize(ss[0]) + StmtsSize(ss[1..])
  }

  lemma {:induction false} ExprsSizeAppend(a: seq<Expr>, b: seq<Expr>)
    ensures ExprsSize(a + b) == ExprsSize(a) + ExprsSize(b)
  {
    if a != [] {
      assert (a + b)[1..] == a[1..] + b;
      ExprsSizeAppend(a[1..], b);
    } else {
      assert a + b == b;
    }
  }

  lemma {:induction false} StmtsSizeElement(ss: seq<Stmt>, i: nat)
    requires i < |ss|
    ensures StmtSize(ss[i]) <= StmtsSize(ss)
  {
    if i > 0 {
      StmtsSizeElement(ss[1..], i - 1);
    }
  }
}

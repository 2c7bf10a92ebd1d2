/** Shared vocabulary: failure-compatible results, the compiler's fatal errors,
    and the 32-bit integer domain that diagram integers range over. */
module Common {

  datatype Option<+T> = None | Some(value: T)

  /** The compilation errors that abort the whole transfer function. Most are a
      `BatfishException` or a null dereference in the compiler; `NotALiteralInt` is a failed
      cast, `EmptyProtocolSet` the `NoSuchElementException` of taking the only element of an
      empty set, and `CallDepthExceeded` has no counterpart in the compiler (it marks where the
      model's call bound runs out). */
  datatype Error =
    | UnsupportedExpr(exprKind: string)          // an expression kind the evaluator does not know
    | UnsupportedStatement(stmtKind: string)     // a statement kind the interpreter does not know
    | UnsupportedLongExpr                        // a metric/preference expression that is not a literal or step
    | UnsupportedAsPathList                      // an AS-path list that is neither multiplied nor literal
    | NotALiteralInt                             // a multiplied AS path whose count is not a literal
    | UnsupportedPrefixSet                       // a prefix-set expression that is neither explicit nor named
    | UnsupportedCommunitySet                    // a community-set expression that is neither inline nor named
    | UnsupportedCommunityVarType                // a community variable that is neither exact nor a regex
    | NonPrefixWildcard                          // a route-filter line whose wildcard is not a prefix
    | EmptyFirstMatchChain                       // a first-match chain with no clause and no default policy
    | EmptyProtocolSet                           // a protocol match that names no protocol
    | MissingPolicy(policyName: string)          // a called policy the configuration does not define
    | MissingFilterList(listName: string)        // a named prefix set the configuration does not define
    | MissingCommunityList(listName: string)     // a named community set the configuration does not define
    | MissingAtomicPredicates                    // a community variable the graph has no atomic predicates for
    | CallDepthExceeded                          // policy calls nested deeper than the fuel bound
    | UnsetFallthrough                           // a chain clause whose result leaves fallthrough null

  datatype Result<+T> = Ok(value: T) | Err(error: Error) {
    predicate IsFailure() { Err? }
    function PropagateFailure<U>(): Result<U>
      requires Err?
    {
      Err(error)
    }
    function Extract(): T
      requires Ok?
    {
      value
    }
  }

  const Modulus: int := 0x1_0000_0000

  /** A 32-bit unsigned value: what one diagram integer of width 32 denotes at one assignment. */
  newtype u32 = x: int | 0 <= x < 0x1_0000_0000

  /** `BDDInteger.makeFromValue(factory, 32, v)`: the low 32 bits of `v` (two's complement for
      negative `v`, which is what the Euclidean remainder gives). */
  function FromLong(v: int): (r: u32)
    ensures (r as int - v) % Modulus == 0
  {
    (v % Modulus) as u32
  }

  /** `BDDInteger.add`: a ripple-carry adder that drops the final carry. */
  function Add32(a: u32, b: u32): (r: u32)
    ensures a as int + b as int < Modulus ==> r as int == a as int + b as int
    ensures a as int + b as int >= Modulus ==> r as int == a as int + b as int - Modulus
  {
    ((a as int + b as int) % Modulus) as u32
  }

  /** `BDDInteger.sub`: subtraction that wraps below zero. */
  function Sub32(a: u32, b: u32): (r: u32)
    ensures b <= a ==> r as int == a as int - b as int
    ensures a < b ==> r as int == a as int - b as int + Modulus
  {
    ((a as int - b as int) % Modulus) as u32
  }

  function Pow2(n: nat): (r: nat)
    ensures r >= 1
  {
    if n == 0 then 1 else 2 * Pow2(n - 1)
  }

  /** `Ip.getBitAtPosition(ip, i)`: bit `i` of a 32-bit address, counted from the most
      significant bit. */
  function BitAt(ip: u32, i: nat): bool
    requires i < 32
  {
    (ip as int / Pow2(31 - i)) % 2 == 1
  }
}

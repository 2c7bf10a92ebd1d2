/** The symbolic route record and its branch-merge algebra, evaluated at one assignment of the
    decision-diagram variables: a BDD is then a `bool`, a 32-bit BDDInteger a `u32` and a
    BDDDomain one value of its enumeration. Every combinator of the compiler is pointwise, so
    what holds here for one assignment holds for the diagrams. */
module Routes {
  import opened Common

  /** Route-origination protocols (the protocol-history domain, in domain order). */
  datatype Protocol = Connected | Static | Ospf | Bgp

  /** OSPF metric types (the OSPF-metric domain, in domain order). */
  datatype OspfType = O | OIA | E1 | E2

  type PrefixLength = n: nat | n <= 32

  /** An IPv4 prefix: its start address and its length. */
  datatype Prefix = Prefix(start: u32, length: PrefixLength)

  /** A route record at one assignment. `comms[i]` says whether the route carries a community
      consistent with atomic predicate `i`. */
  datatype Route = Route(
    prefix: u32,
    prefixLength: nat,
    adminDist: u32,
    localPref: u32,
    metric: u32,
    med: u32,
    ospfMetric: OspfType,
    protocol: Protocol,
    comms: seq<bool>)

  /** The part of a record that the route merge carries over from its two inputs. */
  datatype Carried = Carried(adminDist: u32, localPref: u32, metric: u32, med: u32, comms: seq<bool>)

  function CarriedOf(r: Route): Carried {
    Carried(r.adminDist, r.localPref, r.metric, r.med, r.comms)
  }

  /** The 32 bits of the route's destination address, most significant first (the
      diagram bit-vector of the prefix). */
  function PrefixBits(r: Route): (bits: seq<bool>)
    ensures |bits| == 32
    ensures forall i :: 0 <= i < 32 ==> bits[i] == BitAt(r.prefix, i)
  {
    seq(32, i requires 0 <= i < 32 => BitAt(r.prefix, i))
  }

  /** `b.ite(x, y)` on BDDs, `x.ite(b, y)` on BDDIntegers and the domain ite: per assignment, the
      first value where the guard holds and the second elsewhere. */
  function Ite<T>(guard: bool, x: T, y: T): (r: T)
    ensures guard ==> r == x
    ensures !guard ==> r == y
  {
    if guard then x else y
  }

  /** `ite(guard, r1, r2)` on records. The result is a newly allocated record, which denotes the
      input variables (`input`); only administrative distance, local preference, metric, MED and
      the atomic predicates are then overwritten with the merge. Prefix, prefix length, protocol
      history and OSPF type stay those of the fresh record. */
  function IteRoute(input: Route, guard: bool, r1: Route, r2: Route): (r: Route)
    requires |r1.comms| == |input.comms| && |r2.comms| == |input.comms|
    ensures CarriedOf(r) == (if guard then CarriedOf(r1) else CarriedOf(r2))
    ensures r.prefix == input.prefix && r.prefixLength == input.prefixLength
    ensures r.ospfMetric == input.ospfMetric && r.protocol == input.protocol
  {
    Route(
      input.prefix,
      input.prefixLength,
      Ite(guard, r1.adminDist, r2.adminDist),
      Ite(guard, r1.localPref, r2.localPref),
      Ite(guard, r1.metric, r2.metric),
      Ite(guard, r1.med, r2.med),
      input.ospfMetric,
      input.protocol,
      seq(|input.comms|, i requires 0 <= i < |input.comms| => Ite(guard, r1.comms[i], r2.comms[i])))
  }

  /** `zeroedRecord()`: the values a dropped route carries. The OSPF type is never set, so it
      keeps the fresh record's variables; protocol history is set to domain index 0. */
  function Zeroed(input: Route): (z: Route)
    ensures z.metric == 0 && z.localPref == 0 && z.adminDist == 0 && z.med == 0
    ensures z.prefix == 0 && z.prefixLength == 0 && z.protocol == Connected
    ensures z.ospfMetric == input.ospfMetric
    ensures |z.comms| == |input.comms| && forall i :: 0 <= i < |z.comms| ==> !z.comms[i]
  {
    Route(0, 0, 0, 0, 0, 0, input.ospfMetric, Connected, seq(|input.comms|, _ => false))
  }

  /** `iteZero(guard, r)`: keep the record where the guard holds, zero it elsewhere. */
  function IteZero(input: Route, guard: bool, r: Route): (z: Route)
    requires |r.comms| == |input.comms|
    ensures guard ==> CarriedOf(z) == CarriedOf(r)
    ensures !guard ==> z.metric == 0 && z.localPref == 0 && z.adminDist == 0 && z.med == 0
    ensures !guard ==> forall i :: 0 <= i < |z.comms| ==> !z.comms[i]
    ensures |z.comms| == |input.comms|
  {
    IteRoute(input, guard, r, Zeroed(input))
  }

  /** `ite(guard, r1, r2)` as the compiler runs it: allocate a record and fill its atomic-predicate
      array one index at a time. */
  method MergeRecords(input: Route, guard: bool, r1: Route, r2: Route) returns (ret: Route)
    requires |r1.comms| == |input.comms| && |r2.comms| == |input.comms|
    ensures ret == IteRoute(input, guard, r1, r2)
  {
    var n := |input.comms|;
    var comms := new bool[n];
    for i := 0 to n
      invariant forall k :: 0 <= k < i ==> comms[k] == Ite(guard, r1.comms[k], r2.comms[k])
    {
      comms[i] := Ite(guard, r1.comms[i], r2.comms[i]);
    }
    ret := Route(
      input.prefix,
      input.prefixLength,
      Ite(guard, r1.adminDist, r2.adminDist),
      Ite(guard, r1.localPref, r2.localPref),
      Ite(guard, r1.metric, r2.metric),
      Ite(guard, r1.med, r2.med),
      input.ospfMetric,
      input.protocol,
      comms[..]);
  }

  /** `zeroedRecord()` as the compiler runs it: every atomic predicate cleared in a loop. */
  method NewZeroedRecord(input: Route) returns (z: Route)
    ensures z == Zeroed(input)
  {
    var n := |input.comms|;
    var comms := new bool[n];
    for i := 0 to n
      invariant forall k :: 0 <= k < i ==> !comms[k]
    {
      comms[i] := false;
    }
    z := Route(0, 0, 0, 0, 0, 0, input.ospfMetric, Connected, comms[..]);
  }

  /** `AddCommunity` on the atomic-predicate vector: on a route that has already returned nothing
      changes; otherwise the resolved indices become true and the others keep their value. */
  function AddCommunities(comms: seq<bool>, aps: set<nat>, returned: bool): (r: seq<bool>)
    ensures |r| == |comms|
    ensures returned ==> r == comms
    ensures !returned ==> forall i :: 0 <= i < |r| ==> r[i] == (i in aps || comms[i])
  {
    seq(|comms|, i requires 0 <= i < |comms| => if i in aps then Ite(returned, comms[i], true) else comms[i])
  }

  /** `SetCommunity`: on a route that has not returned, index `i` becomes `i in aps`. */
  function SetCommunities(comms: seq<bool>, aps: set<nat>, returned: bool): (r: seq<bool>)
    ensures |r| == |comms|
    ensures returned ==> r == comms
    ensures !returned ==> forall i :: 0 <= i < |r| ==> r[i] == (i in aps)
  {
    seq(|comms|, i requires 0 <= i < |comms| => Ite(returned, comms[i], i in aps))
  }

  /** `DeleteCommunity`: on a route that has not returned, the resolved indices become false. */
  function DeleteCommunities(comms: seq<bool>, aps: set<nat>, returned: bool): (r: seq<bool>)
    ensures |r| == |comms|
    ensures returned ==> r == comms
    ensures !returned ==> forall i :: 0 <= i < |r| ==> r[i] == (comms[i] && i !in aps)
  {
    seq(|comms|, i requires 0 <= i < |comms| => if i in aps then Ite(returned, comms[i], false) else comms[i])
  }

  /** A route record object, updated in place by the statement interpreter through its setters
      and through its atomic-predicate array. */
  class RouteRecord {
    var prefix: u32
    var prefixLength: nat
    var adminDist: u32
    var localPref: u32
    var metric: u32
    var med: u32
    var ospfMetric: OspfType
    var protocol: Protocol
    const comms: array<bool>

    /** The record's current value. */
    function Value(): Route
      reads this, comms
    {
      Route(prefix, prefixLength, adminDist, localPref, metric, med, ospfMetric, protocol, comms[..])
    }

    /** `deepCopy()`: a record with the given value and an array of its own. */
    constructor Copy(r: Route)
      ensures Value() == r && fresh(comms)
    {
      prefix, prefixLength := r.prefix, r.prefixLength;
      adminDist, localPref, metric, med := r.adminDist, r.localPref, r.metric, r.med;
      ospfMetric, protocol := r.ospfMetric, r.protocol;
      var a := new bool[|r.comms|];
      for i := 0 to |r.comms|
        invariant forall k :: 0 <= k < i ==> a[k] == r.comms[k]
      {
        a[i] := r.comms[i];
      }
      comms := a;
    }

    /** Store a whole value into the record (used where a nested call changed it). */
    method Overwrite(r: Route)
      requires |r.comms| == comms.Length
      modifies this, comms
      ensures Value() == r
    {
      for i := 0 to comms.Length
        invariant forall k :: 0 <= k < i ==> comms[k] == r.comms[k]
      {
        comms[i] := r.comms[i];
      }
      assert comms[..] == r.comms;
      prefix, prefixLength := r.prefix, r.prefixLength;
      adminDist, localPref, metric, med := r.adminDist, r.localPref, r.metric, r.med;
      ospfMetric, protocol := r.ospfMetric, r.protocol;
    }

    /** The `AddCommunity` loop: each resolved index is written in place. */
    method AddCommunity(aps: set<nat>, returned: bool)
      requires forall ap | ap in aps :: ap < comms.Length
      modifies comms
      ensures Value() == old(Value()).(comms := AddCommunities(old(comms[..]), aps, returned))
    {
      var todo := aps;
      while todo != {}
        invariant todo <= aps
        invariant forall k :: 0 <= k < comms.Length ==>
          comms[k] == if k in aps - todo then Ite(returned, old(comms[k]), true) else old(comms[k])
        decreases todo
      {
        var ap :| ap in todo;
        comms[ap] := Ite(returned, comms[ap], true);
        todo := todo - {ap};
      }
    }

    /** The `SetCommunity` loop: every index of the array is rewritten. */
    method SetCommunity(aps: set<nat>, returned: bool)
      modifies comms
      ensures Value() == old(Value()).(comms := SetCommunities(old(comms[..]), aps, returned))
    {
      for ap := 0 to comms.Length
        invariant forall k :: 0 <= k < ap ==> comms[k] == Ite(returned, old(comms[k]), k in aps)
        invariant forall k :: ap <= k < comms.Length ==> comms[k] == old(comms[k])
      {
        comms[ap] := Ite(returned, comms[ap], ap in aps);
      }
    }

    /** The `DeleteCommunity` loop: each resolved index is cleared in place. */
    method DeleteCommunity(aps: set<nat>, returned: bool)
      requires forall ap | ap in aps :: ap < comms.Length
      modifies comms
      ensures Value() == old(Value()).(comms := DeleteCommunities(old(comms[..]), aps, returned))
    {
      var todo := aps;
      while todo != {}
        invariant todo <= aps
        invariant forall k :: 0 <= k < comms.Length ==>
          comms[k] == if k in aps - todo then Ite(returned, old(comms[k]), false) else old(comms[k])
        decreases todo
      {
        var ap :| ap in todo;
        comms[ap] := Ite(returned, comms[ap], false);
        todo := todo - {ap};
      }
    }
  }
}

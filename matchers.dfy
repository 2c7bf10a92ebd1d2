/** Prefix and community matching: route-filter lists, prefix sets, community lists and community
    sets turned into conditions on the route record, with ordered first-match-wins lists built as a
    reverse fold. */
module Matchers {
  import opened Common
  import opened Routes
  import opened Policy

  /** `firstBitsEqual(bits, p, length)`: a conjunction, bit by bit, of `bits[i]` or its negation,
      following the bits of the prefix's start address. */
  method FirstBitsEqual(bits: seq<bool>, p: Prefix, length: nat) returns (acc: bool)
    requires length <= |bits| && length <= 32
    ensures acc <==> forall i :: 0 <= i < length ==> bits[i] == BitAt(p.start, i)
  {
    acc := true;
    for i := 0 to length
      invariant acc <==> forall k :: 0 <= k < i ==> bits[k] == BitAt(p.start, k)
    {
      var res := BitAt(p.start, i);
      if res {
        acc := acc && bits[i];
      } else {
        acc := acc && !bits[i];
      }
    }
  }

  /** The first `length` address bits of the route agree with those of `ip`. */
  predicate BitsAgree(r: Route, ip: u32, length: PrefixLength) {
    forall i :: 0 <= i < length ==> BitAt(r.prefix, i) == BitAt(ip, i)
  }

  /** `isRelevantFor(route, range)`: the route's address starts with the range's prefix and its
      prefix length lies in the range's inclusive length interval. */
  predicate IsRelevantFor(r: Route, range: PrefixRange) {
    && BitsAgree(r, range.prefix.start, range.prefix.length)
    && range.lengthRange.start <= r.prefixLength <= range.lengthRange.end
  }

  /** `isRelevantFor` as the compiler computes it: `firstBitsEqual` over the route's address bits
      and the range's prefix, and the length interval test. */
  method RelevantFor(r: Route, range: PrefixRange) returns (b: bool)
    ensures b == IsRelevantFor(r, range)
  {
    var prefixMatch := FirstBitsEqual(PrefixBits(r), range.prefix, range.prefix.length);
    var lenMatch := range.lengthRange.start <= r.prefixLength <= range.lengthRange.end;
    b := lenMatch && prefixMatch;
  }

  /** `atomicPredicatesFor(vars)`: the union of the graph's atomic predicates for each variable;
      a variable the graph does not know is a null dereference. */
  function AtomicPredicatesFor(env: Setting, vars: set<CommunityVar>): (r: Result<set<nat>>)
    ensures r.Ok? <==> forall c | c in vars :: c in env.apsOf
    ensures r.Ok? ==> forall i :: i in r.value <==> exists c :: c in vars && c in env.apsOf && i in env.apsOf[c]
    ensures r.Ok? ==> forall i | i in r.value :: i < env.numAps
  {
    if forall c | c in vars :: c in env.apsOf then
      Ok(set c, i | c in vars && c in env.apsOf && i in env.apsOf[c] :: i)
    else
      Err(MissingAtomicPredicates)
  }

  /** The disjunction of the route's atomic predicates over `aps` (`factory.orAll`). */
  predicate AnyHolds(r: Route, aps: set<nat>)
    requires forall i | i in aps :: i < |r.comms|
  {
    exists i :: i in aps && r.comms[i]
  }

  /** `toRegexCommunityVar`: an exact community becomes the anchored regex matching it. */
  function ToRegexCommunityVar(c: CommunityVar): (r: Result<CommunityVar>)
    ensures r.Ok? <==> c.kind != OtherVarKind
    ensures r.Ok? ==> r.value.kind == Regex
    ensures c.kind == Regex ==> r == Ok(c)
    ensures c.kind == Exact ==> r == Ok(CommunityVar(Regex, "^" + c.text + "$"))
  {
    match c.kind
    case Regex => Ok(c)
    case Exact => Ok(CommunityVar(Regex, "^" + c.text + "$"))
    case OtherVarKind => Err(UnsupportedCommunityVarType)
  }

  /** Whether one community-list line's condition holds of the route. */
  function CommunityLineHolds(env: Setting, line: CommunityLine, r: Route): Result<bool>
    requires Shaped(env, r)
  {
    var cvar :- ToRegexCommunityVar(line.condition);
    var aps :- AtomicPredicatesFor(env, {cvar});
    Ok(AnyHolds(r, aps))
  }

  /** `matchCommunityList` as the fold it is: the lines after the first are folded before it, and
      the first line's condition decides between its action and theirs. */
  function CommunityListMatch(env: Setting, lines: seq<CommunityLine>, r: Route): Result<bool>
    requires Shaped(env, r)
  {
    if lines == [] then Ok(false)
    else
      var rest :- CommunityListMatch(env, lines[1..], r);
      var holds :- CommunityLineHolds(env, lines[0], r);
      Ok(Ite(holds, lines[0].permit, rest))
  }

  /** `matchCommunityList`: reverse the lines and fold `acc = ite(c, action, acc)` from false. */
  method MatchCommunityList(env: Setting, lines: seq<CommunityLine>, r: Route) returns (res: Result<bool>)
    requires Shaped(env, r)
    ensures res == CommunityListMatch(env, lines, r)
  {
    var acc := false;
    var i := |lines|;
    while i > 0
      invariant 0 <= i <= |lines|
      invariant CommunityListMatch(env, lines[i..], r) == Ok(acc)
    {
      i := i - 1;
      assert lines[i..][1..] == lines[i + 1..];
      var line := lines[i];
      var cvar := ToRegexCommunityVar(line.condition);
      if cvar.Err? {
        CommunityListErrorSpreads(env, lines, i, r);
        return Err(cvar.error);
      }
      var aps := AtomicPredicatesFor(env, {cvar.value});
      if aps.Err? {
        CommunityListErrorSpreads(env, lines, i, r);
        return Err(aps.error);
      }
      var c := AnyHolds(r, aps.value);
      acc := Ite(c, line.permit, acc);
    }
    assert lines[0..] == lines;
    res := Ok(acc);
  }

  /** An error in a suffix of a community list is the error of the whole list. */
  lemma {:induction false} CommunityListErrorSpreads(env: Setting, lines: seq<CommunityLine>, i: nat, r: Route)
    requires Shaped(env, r) && i <= |lines|
    requires CommunityListMatch(env, lines[i..], r).Err?
    ensures CommunityListMatch(env, lines, r) == CommunityListMatch(env, lines[i..], r)
  {
    if i > 0 {
      assert lines[1..][i - 1..] == lines[i..];
      CommunityListErrorSpreads(env, lines[1..], i - 1, r);
    }
  }

  /** A filter-list line that can match at all: a plain prefix outside the ignored networks,
      whose range the route is relevant for. */
  predicate FilterLineMatches(env: Setting, line: FilterLine, r: Route) {
    && line.wildcard.PrefixWildcard?
    && !env.ignored(line.wildcard.prefix)
    && IsRelevantFor(r, PrefixRange(line.wildcard.prefix, line.lengthRange))
  }

  /** `matchFilterList` as the fold it is; any non-prefix wildcard aborts, lines inside the ignored
      networks are skipped. */
  function FilterListMatch(env: Setting, lines: seq<FilterLine>, r: Route): Result<bool> {
    if lines == [] then Ok(false)
    else
      var rest :- FilterListMatch(env, lines[1..], r);
      if lines[0].wildcard.MaskWildcard? then Err(NonPrefixWildcard)
      else if env.ignored(lines[0].wildcard.prefix) then Ok(rest)
      else
        var range := PrefixRange(lines[0].wildcard.prefix, lines[0].lengthRange);
        Ok(Ite(IsRelevantFor(r, range), lines[0].permit, rest))
  }

  /** An error in a suffix of a route-filter list is the error of the whole list. */
  lemma {:induction false} FilterListErrorSpreads(env: Setting, lines: seq<FilterLine>, i: nat, r: Route)
    requires i <= |lines|
    requires FilterListMatch(env, lines[i..], r).Err?
    ensures FilterListMatch(env, lines, r) == FilterListMatch(env, lines[i..], r)
  {
    if i > 0 {
      assert lines[1..][i - 1..] == lines[i..];
      FilterListErrorSpreads(env, lines[1..], i - 1, r);
    }
  }

  /** `matchFilterList`: reverse the lines and fold `acc = ite(matches, action, acc)` from false. */
  method MatchFilterList(env: Setting, lines: seq<FilterLine>, r: Route) returns (res: Result<bool>)
    ensures res == FilterListMatch(env, lines, r)
  {
    var acc := false;
    var i := |lines|;
    while i > 0
      invariant 0 <= i <= |lines|
      invariant FilterListMatch(env, lines[i..], r) == Ok(acc)
    {
      i := i - 1;
      assert lines[i..][1..] == lines[i + 1..];
      var line := lines[i];
      if !line.wildcard.PrefixWildcard? {
        FilterListErrorSpreads(env, lines, i, r);
        return Err(NonPrefixWildcard);
      }
      var pfx := line.wildcard.prefix;
      if !env.ignored(pfx) {
        var range := PrefixRange(pfx, line.lengthRange);
        var matches := RelevantFor(r, range);
        acc := Ite(matches, line.permit, acc);
      }
    }
    assert lines[0..] == lines;
    res := Ok(acc);
  }

  /** An explicit prefix set: an empty set restricts nothing; otherwise some range outside the
      ignored networks is relevant for the route. */
  predicate ExplicitSetMatch(env: Setting, ranges: seq<PrefixRange>, r: Route) {
    || |ranges| == 0
    || exists i :: 0 <= i < |ranges| && !env.ignored(ranges[i].prefix) && IsRelevantFor(r, ranges[i])
  }

  /** The `ExplicitPrefixSet` case of `matchPrefixSet`: an OR over the ranges. */
  method MatchExplicitPrefixSet(env: Setting, ranges: seq<PrefixRange>, r: Route) returns (b: bool)
    ensures b == ExplicitSetMatch(env, ranges, r)
  {
    if |ranges| == 0 {
      return true;
    }
    var acc := false;
    for i := 0 to |ranges|
      invariant acc <==> exists k :: 0 <= k < i && !env.ignored(ranges[k].prefix) && IsRelevantFor(r, ranges[k])
    {
      if !env.ignored(ranges[i].prefix) {
        var relevant := RelevantFor(r, ranges[i]);
        acc := acc || relevant;
      }
    }
    b := acc;
  }

  /** `matchPrefixSet`: explicit sets as above, named sets through the configuration's route-filter
      list of that name. */
  function PrefixSetMatch(env: Setting, e: PrefixSetExpr, r: Route): (res: Result<bool>)
    ensures e.ExplicitPrefixSet? ==> res == Ok(ExplicitSetMatch(env, e.ranges, r))
    ensures e.NamedPrefixSet? && e.prefixSetName !in env.filterLists ==> res == Err(MissingFilterList(e.prefixSetName))
    ensures e.NamedPrefixSet? && e.prefixSetName in env.filterLists ==>
      res == FilterListMatch(env, env.filterLists[e.prefixSetName], r)
    ensures e.OtherPrefixSet? ==> res == Err(UnsupportedPrefixSet)
  {
    match e
    case ExplicitPrefixSet(ranges) => Ok(ExplicitSetMatch(env, ranges, r))
    case NamedPrefixSet(name) =>
      if name in env.filterLists then FilterListMatch(env, env.filterLists[name], r)
      else Err(MissingFilterList(name))
    case OtherPrefixSet => Err(UnsupportedPrefixSet)
  }

  /** The community variables an inline community list mentions. */
  function LineVars(lines: seq<CommunityLine>): set<CommunityVar> {
    set i | 0 <= i < |lines| :: lines[i].condition
  }

  /** An inline community list as a set: every community it mentions is carried by the route. */
  function InlineSetMatch(env: Setting, lines: seq<CommunityLine>, r: Route): Result<bool>
    requires Shaped(env, r)
  {
    if forall c | c in LineVars(lines) :: c in env.apsOf then
      Ok(forall c | c in LineVars(lines) && c in env.apsOf :: AnyHolds(r, env.apsOf[c]))
    else
      Err(MissingAtomicPredicates)
  }

  /** The `CommunityList` case of `matchCommunitySet`: an AND, over the mentioned communities, of
      the OR of each one's atomic predicates. */
  method MatchInlineCommunitySet(env: Setting, lines: seq<CommunityLine>, r: Route) returns (res: Result<bool>)
    requires Shaped(env, r)
    ensures res == InlineSetMatch(env, lines, r)
  {
    var comms := LineVars(lines);
    var acc := true;
    var done: set<CommunityVar> := {};
    while comms - done != {}
      invariant done <= comms
      invariant forall c | c in done :: c in env.apsOf
      invariant acc <==> forall c | c in done && c in env.apsOf :: AnyHolds(r, env.apsOf[c])
      decreases comms - done
    {
      var comm :| comm in comms - done;
      var aps := AtomicPredicatesFor(env, {comm});
      if aps.Err? {
        return Err(aps.error);
      }
      assert aps.value == env.apsOf[comm];
      acc := acc && AnyHolds(r, aps.value);
      done := done + {comm};
    }
    res := Ok(acc);
  }

  /** `matchCommunitySet`: inline lists as a set, named lists through the configuration's
      community list of that name, matched first-match-wins. */
  function CommunitySetMatch(env: Setting, e: CommunitySetExpr, r: Route): (res: Result<bool>)
    requires Shaped(env, r)
    ensures e.InlineCommunityList? ==> res == InlineSetMatch(env, e.lines, r)
    ensures e.NamedCommunitySet? && e.communitySetName !in env.communityLists ==>
      res == Err(MissingCommunityList(e.communitySetName))
    ensures e.NamedCommunitySet? && e.communitySetName in env.communityLists ==>
      res == CommunityListMatch(env, env.communityLists[e.communitySetName], r)
    ensures e.OtherCommunitySet? ==> res == Err(UnsupportedCommunitySet)
  {
    match e
    case InlineCommunityList(lines) => InlineSetMatch(env, lines, r)
    case NamedCommunitySet(name) =>
      if name in env.communityLists then CommunityListMatch(env, env.communityLists[name], r)
      else Err(MissingCommunityList(name))
    case OtherCommunitySet => Err(UnsupportedCommunitySet)
  }
  /** A community list matches by its first matching line: it is computed without error exactly
      when every line's condition is, and it accepts exactly when some permitting line holds and no
      line before it does. */
  lemma {:induction false} CommunityListFirstMatch(env: Setting, lines: seq<CommunityLine>, r: Route)
    requires Shaped(env, r)
    ensures CommunityListMatch(env, lines, r).Ok? <==>
      forall i :: 0 <= i < |lines| ==> CommunityLineHolds(env, lines[i], r).Ok?
    ensures CommunityListMatch(env, lines, r).Ok? ==>
      (CommunityListMatch(env, lines, r).value <==>
        exists i :: 0 <= i < |lines| && CommunityLineHolds(env, lines[i], r) == Ok(true) && lines[i].permit &&
          forall j :: 0 <= j < i ==> CommunityLineHolds(env, lines[j], r) == Ok(false))
  {
    if lines != [] {
      var tail := lines[1..];
      CommunityListFirstMatch(env, tail, r);
      assert forall i :: 1 <= i < |lines| ==> lines[i] == tail[i - 1];
      var m := CommunityListMatch(env, lines, r);
      if m.Ok? {
        var h := CommunityLineHolds(env, lines[0], r);
        assert h.Ok? && CommunityListMatch(env, tail, r).Ok?;
        if h.value {
          if !lines[0].permit {
            forall i | 0 <= i < |lines| && lines[i].permit
              ensures !(forall j :: 0 <= j < i ==> CommunityLineHolds(env, lines[j], r) == Ok(false))
            {
              assert i > 0 && CommunityLineHolds(env, lines[0], r) == Ok(true);
            }
          }
        } else if m.value {
          var k :| 0 <= k < |tail| && CommunityLineHolds(env, tail[k], r) == Ok(true) && tail[k].permit &&
            forall j :: 0 <= j < k ==> CommunityLineHolds(env, tail[j], r) == Ok(false);
          assert forall j :: 0 <= j < k + 1 ==> CommunityLineHolds(env, lines[j], r) == Ok(false) by {
            forall j | 0 <= j < k + 1 ensures CommunityLineHolds(env, lines[j], r) == Ok(false) {
              if j > 0 { assert lines[j] == tail[j - 1]; }
            }
          }
        } else {
          forall i | 0 <= i < |lines| && CommunityLineHolds(env, lines[i], r) == Ok(true) && lines[i].permit
            ensures !(forall j :: 0 <= j < i ==> CommunityLineHolds(env, lines[j], r) == Ok(false))
          {
            assert i > 0 && lines[i] == tail[i - 1];
            var j :| 0 <= j < i - 1 && CommunityLineHolds(env, tail[j], r) != Ok(false);
            assert lines[j + 1] == tail[j];
          }
        }
      }
    }
  }

  /** A route-filter list matches by its first matching line: it is computed without error exactly
      when every line is a plain prefix, and it permits exactly when some permitting line matches
      and no line before it does. */
  lemma {:induction false} FilterListFirstMatch(env: Setting, lines: seq<FilterLine>, r: Route)
    ensures FilterListMatch(env, lines, r).Ok? <==> forall i :: 0 <= i < |lines| ==> lines[i].wildcard.PrefixWildcard?
    ensures FilterListMatch(env, lines, r).Ok? ==>
      (FilterListMatch(env, lines, r).value <==>
        exists i :: 0 <= i < |lines| && FilterLineMatches(env, lines[i], r) && lines[i].permit &&
          forall j :: 0 <= j < i ==> !FilterLineMatches(env, lines[j], r))
  {
    if lines != [] {
      var tail := lines[1..];
      FilterListFirstMatch(env, tail, r);
      assert forall i :: 1 <= i < |lines| ==> lines[i] == tail[i - 1];
      var m := FilterListMatch(env, lines, r);
      if m.Ok? {
        assert FilterListMatch(env, tail, r).Ok?;
        if FilterLineMatches(env, lines[0], r) {
          if !lines[0].permit {
            forall i | 0 <= i < |lines| && lines[i].permit
              ensures !(forall j :: 0 <= j < i ==> !FilterLineMatches(env, lines[j], r))
            {
              assert i > 0 && FilterLineMatches(env, lines[0], r);
            }
          }
        } else if m.value {
          var k :| 0 <= k < |tail| && FilterLineMatches(env, tail[k], r) && tail[k].permit &&
            forall j :: 0 <= j < k ==> !FilterLineMatches(env, tail[j], r);
          assert forall j :: 0 <= j < k + 1 ==> !FilterLineMatches(env, lines[j], r) by {
            forall j | 0 <= j < k + 1 ensures !FilterLineMatches(env, lines[j], r) {
              if j > 0 { assert lines[j] == tail[j - 1]; }
            }
          }
        } else {
          forall i | 0 <= i < |lines| && FilterLineMatches(env, lines[i], r) && lines[i].permit
            ensures !(forall j :: 0 <= j < i ==> !FilterLineMatches(env, lines[j], r))
          {
            assert i > 0 && lines[i] == tail[i - 1];
            var j :| 0 <= j < i - 1 && FilterLineMatches(env, tail[j], r);
            assert lines[j + 1] == tail[j];
          }
        }
      }
    }
  }
}

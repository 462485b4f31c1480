/**
 Page limits re-resolved for each provider (src/core/limits.ts). A limit is kept as the
 caller gave it, possibly symbolic, beside the number written into the query.
*/
module Limits {
  import opened Numbers
  import opened Wrappers

  /** What a caller may pass: `Other` is anything that is not a safe integer, "default" or "max". */
  datatype LimitValue = Default | Max | Number(n: int) | Other

  /** The query's own property `limit`. */
  datatype Property = Missing | Undefined | Present(value: LimitValue)

  /** One page policy; `None` stands for a configured value that is absent. */
  datatype Override = Override(defaultLimit: Option<LimitValue>, maxLimit: Option<LimitValue>)

  datatype Target = Target(defaultLimit: LimitValue, maxLimit: LimitValue, endpoints: map<string, Override>)

  datatype LimitError = BadMaximum | BadDefault | BadLimit

  predicate IsSafeInteger(v: LimitValue) { v.Number? && -MAX_SAFE_INTEGER <= v.n <= MAX_SAFE_INTEGER }

  function Prefer(o: Option<LimitValue>, otherwise: LimitValue): LimitValue { if o.Some? then o.value else otherwise }

  /** The default and maximum in force for an endpoint. */
  function PageLimits(target: Target, endpoint: Option<string>): (LimitValue, LimitValue) {
    if endpoint.Some? && endpoint.value in target.endpoints then
      var o := target.endpoints[endpoint.value];
      (Prefer(o.defaultLimit, target.defaultLimit), Prefer(o.maxLimit, target.maxLimit))
    else (target.defaultLimit, target.maxLimit)
  }

  /** inferPageEndpoint: the one path with a page policy of its own, with or without a final slash. */
  function InferPageEndpoint(pathname: string): Option<string> {
    if EndsWith(pathname, "/api/v1/network/nodes") || EndsWith(pathname, "/api/v1/network/nodes/") then
      Some("network.nodes")
    else None
  }

  predicate EndsWith(s: string, end: string) { |end| <= |s| && s[|s| - |end|..] == end }

  function Clamp(n: int, maxLimit: int): int {
    var low := if n < maxLimit then n else maxLimit;
    if 1 > low then 1 else low
  }

  function ResolveLimitValue(target: Target, limit: Option<LimitValue>, endpoint: Option<string>)
    : (r: Result<Option<int>, LimitError>)
    ensures r.Ok? && r.value.Some? ==> PageLimits(target, endpoint).1.Number? &&
                                       1 <= r.value.value <= PageLimits(target, endpoint).1.n
    ensures r.Ok? ==> (r.value.None? <==> limit.None?)
  {
    if limit.None? then Ok(None)
    else
      var (defaultLimit, maxLimit) := PageLimits(target, endpoint);
      if !IsSafeInteger(maxLimit) || maxLimit.n < 1 then Err(BadMaximum)
      else if !IsSafeInteger(defaultLimit) || defaultLimit.n < 1 then Err(BadDefault)
      else if !limit.value.Default? && !limit.value.Max? && !IsSafeInteger(limit.value) then Err(BadLimit)
      else
        var n := if limit.value.Default? then defaultLimit.n else if limit.value.Max? then maxLimit.n else limit.value.n;
        Ok(Some(Clamp(n, maxLimit.n)))
  }

  // ------------------------------------------------------------------ one query

  /** What is known of one query: the remembered limit and its own property. */
  datatype State = State(retained: Option<LimitValue>, limit: Property)

  function Requested(st: State): Option<LimitValue> {
    if st.retained.Some? then st.retained else if st.limit.Present? then Some(st.limit.value) else None
  }

  function PrepareStep(st: State, target: Target, explicitLimit: Option<LimitValue>, endpoint: Option<string>)
    : (State, Result<(), LimitError>)
  {
    var asked := if explicitLimit.Some? then State(explicitLimit, Present(explicitLimit.value)) else st;
    if !asked.limit.Present? then (asked, Ok(()))
    else
      var kept := State(Requested(asked), asked.limit);
      match ResolveLimitValue(target, Requested(asked), endpoint)
      case Err(e) => (kept, Err(e))
      case Ok(None) => (kept.(limit := Undefined), Ok(()))
      case Ok(Some(n)) => (kept.(limit := Present(Number(n))), Ok(()))
  }

  function ResolvedStep(st: State, target: Target, endpoint: Option<string>): Result<Option<int>, LimitError> {
    if st.limit.Missing? then Ok(None) else ResolveLimitValue(target, Requested(st), endpoint)
  }

  class Query {
    var limit: Property

    constructor (limit: Property)
      ensures this.limit == limit
    {
      this.limit := limit;
    }
  }

  /** The table of remembered limits, keyed by query object. */
  class RequestedLimits {
    var requested: map<Query, LimitValue>

    constructor ()
      ensures requested == map[]
    {
      requested := map[];
    }

    ghost function StateOf(query: Query): State
      reads this, query
    {
      State(if query in requested then Some(requested[query]) else None, query.limit)
    }

    method PrepareQueryLimit(target: Target, query: Query, explicitLimit: Option<LimitValue>, endpoint: Option<string>)
      returns (r: Result<(), LimitError>)
      modifies this, query
      ensures (StateOf(query), r) == old(PrepareStep(StateOf(query), target, explicitLimit, endpoint))
      ensures requested - {query} == old(requested) - {query}
    {
      hide ResolveLimitValue;
      if explicitLimit.Some? {
        requested := requested[query := explicitLimit.value];
        query.limit := Present(explicitLimit.value);
      }
      if !query.limit.Present? { return Ok(()); }
      var wanted := if query in requested then requested[query] else query.limit.value;
      requested := requested[query := wanted];
      var resolved := ResolveLimitValue(target, Some(wanted), endpoint);
      if resolved.Err? { return Err(resolved.error); }
      query.limit := if resolved.value.Some? then Present(Number(resolved.value.value)) else Undefined;
      return Ok(());
    }

    method ResolvedQueryLimit(target: Target, query: Query, endpoint: Option<string>)
      returns (r: Result<Option<int>, LimitError>)
      ensures r == ResolvedStep(StateOf(query), target, endpoint)
    {
      if query.limit.Missing? { return Ok(None); }
      var wanted := if query in requested then Some(requested[query])
                    else if query.limit.Present? then Some(query.limit.value) else None;
      r := ResolveLimitValue(target, wanted, endpoint);
    }
  }

  // ----------------------------------------------------------------- properties

  /** One preparation of a query for a provider; it may carry an explicit limit, and it may fail. */
  datatype Preparation = Preparation(target: Target, explicitLimit: Option<LimitValue>, endpoint: Option<string>)

  function Prepared(st: State, ps: seq<Preparation>): State
    decreases |ps|
  {
    if ps == [] then st
    else Prepared(PrepareStep(st, ps[0].target, ps[0].explicitLimit, ps[0].endpoint).0, ps[1..])
  }

  /** What the caller asked for: the last explicit limit, or else the query's own. */
  function Intent(own: Property, ps: seq<Preparation>): Option<LimitValue> {
    if ps == [] then if own.Present? then Some(own.value) else None
    else if ps[|ps| - 1].explicitLimit.Some? then ps[|ps| - 1].explicitLimit
    else Intent(own, ps[..|ps| - 1])
  }

  lemma {:induction false} PreparedLast(st: State, ps: seq<Preparation>)
    requires ps != []
    ensures var p := ps[|ps| - 1];
            Prepared(st, ps) == PrepareStep(Prepared(st, ps[..|ps| - 1]), p.target, p.explicitLimit, p.endpoint).0
    decreases |ps|
  {
    hide PrepareStep;
    if |ps| > 1 {
      var next := PrepareStep(st, ps[0].target, ps[0].explicitLimit, ps[0].endpoint).0;
      PreparedLast(next, ps[1..]);
      assert ps[1..][..|ps| - 2] == ps[..|ps| - 1][1..];
    } else {
      assert ps[1..] == [] && ps[..0] == [];
    }
  }

  /** However often the query was prepared, what it is remembered to ask for is the intent. */
  lemma {:induction false} IntentIsKept(own: Property, ps: seq<Preparation>)
    ensures var st := Prepared(State(None, own), ps);
            Requested(st) == Intent(own, ps) && (Intent(own, ps).Some? <==> st.limit.Present?) &&
            (st.retained.Some? || st.limit == own)
    decreases |ps|
  {
    hide ResolveLimitValue;
    if ps != [] {
      IntentIsKept(own, ps[..|ps| - 1]);
      PreparedLast(State(None, own), ps);
    }
  }

  /**
   After any preparations for any providers, failed ones included, the limit for a target
   is the caller's own limit resolved for that target alone, and lies in 1..maxLimit.
  */
  lemma LimitDependsOnIntentAlone(own: Property, ps: seq<Preparation>, target: Target, endpoint: Option<string>)
    ensures var r := ResolvedStep(Prepared(State(None, own), ps), target, endpoint);
            r == ResolveLimitValue(target, Intent(own, ps), endpoint) &&
            (r.Ok? && r.value.Some? ==> 1 <= r.value.value <= PageLimits(target, endpoint).1.n)
  {
    IntentIsKept(own, ps);
  }

  /** Re-resolving the resolved number instead agrees exactly when the first provider did not cut below the second. */
  lemma ClampingDoesNotCompose(n: int, first: int, second: int)
    requires first >= 1 && second >= 1
    ensures Clamp(Clamp(n, first), second) == Clamp(n, second) <==> n <= first || second <= first
  {
  }

  function Distance(a: int, b: int): int { if a <= b then b - a else a - b }

  /** A page policy that can be used: both limits are positive safe integers. */
  predicate Usable(policy: (LimitValue, LimitValue)) {
    IsSafeInteger(policy.0) && policy.0.n >= 1 && IsSafeInteger(policy.1) && policy.1.n >= 1
  }

  /** The number of items a limit asks for under a policy. */
  function Wanted(limit: LimitValue, policy: (LimitValue, LimitValue)): LimitValue {
    match limit
    case Default => policy.0
    case Max => policy.1
    case _ => limit
  }

  /**
   A limit that is given is resolved exactly under a usable policy and when it asks for a
   safe integer; the result is the permitted page size nearest to what it asks for.
  */
  lemma ResolvesToNearest(target: Target, limit: LimitValue, endpoint: Option<string>, size: int)
    ensures var policy := PageLimits(target, endpoint);
            var r := ResolveLimitValue(target, Some(limit), endpoint);
            && (r.Ok? <==> Usable(policy) && IsSafeInteger(Wanted(limit, policy)))
            && (r.Ok? ==> r.value.Some? && 1 <= r.value.value <= policy.1.n)
            && (r.Ok? && 1 <= size <= policy.1.n ==>
                  Distance(r.value.value, Wanted(limit, policy).n) <= Distance(size, Wanted(limit, policy).n) &&
                  (Distance(r.value.value, Wanted(limit, policy).n) == Distance(size, Wanted(limit, policy).n) ==>
                     size == r.value.value))
  {
    var policy := PageLimits(target, endpoint);
    if Usable(policy) && IsSafeInteger(Wanted(limit, policy)) && 1 <= size <= policy.1.n {
      ClampIsNearest(Wanted(limit, policy).n, policy.1.n, size);
    }
  }

  /** Clamping picks the permitted page size nearest to the one asked for. */
  lemma ClampIsNearest(n: int, maxLimit: int, size: int)
    requires 1 <= size <= maxLimit
    ensures 1 <= Clamp(n, maxLimit) <= maxLimit
    ensures Distance(Clamp(n, maxLimit), n) <= Distance(size, n)
    ensures Distance(Clamp(n, maxLimit), n) == Distance(size, n) ==> size == Clamp(n, maxLimit)
  {
  }

  /** Each field of an endpoint's policy is its own override if it has one, and else the target's. */
  lemma PolicyInForce(target: Target, name: string)
    ensures PageLimits(target, None) == (target.defaultLimit, target.maxLimit)
    ensures name !in target.endpoints ==> PageLimits(target, Some(name)) == (target.defaultLimit, target.maxLimit)
    ensures name in target.endpoints ==>
              var o, p := target.endpoints[name], PageLimits(target, Some(name));
              && (o.defaultLimit == Some(p.0) || (o.defaultLimit == None && p.0 == target.defaultLimit))
              && (o.maxLimit == Some(p.1) || (o.maxLimit == None && p.1 == target.maxLimit))
  {
  }

  /** Only paths that end in /api/v1/network/nodes, or that and a slash, have an endpoint of their own. */
  lemma OnlyNodesHaveAnEndpoint(pathname: string)
    ensures InferPageEndpoint(pathname) ==
            if exists prefix :: pathname == prefix + "/api/v1/network/nodes" || pathname == prefix + "/api/v1/network/nodes/"
            then Some("network.nodes") else None
  {
    EndsWithIs(pathname, "/api/v1/network/nodes");
    EndsWithIs(pathname, "/api/v1/network/nodes/");
    hide EndsWith;
  }

  lemma EndsWithIs(s: string, end: string)
    ensures EndsWith(s, end) <==> exists prefix :: s == prefix + end
  {
    if EndsWith(s, end) { assert s == s[..|s| - |end|] + end; }
  }

  /**
   A preparation that succeeds writes the number its provider allows into the query; one that
   fails leaves the limit that was there, and without a limit nothing is written.
  */
  lemma PreparationWrites(own: Property, ps: seq<Preparation>, p: Preparation)
    ensures var st := Prepared(State(None, own), ps);
            var (next, r) := PrepareStep(st, p.target, p.explicitLimit, p.endpoint);
            var limit := Intent(own, ps + [p]);
            var allowed := ResolveLimitValue(p.target, limit, p.endpoint);
            match limit
            case None => r == Ok(()) && next == st
            case Some(v) =>
              && next.retained == Some(v)
              && (allowed.Ok? ==> r == Ok(()) && allowed.value.Some? && next.limit == Present(Number(allowed.value.value)))
              && (allowed.Err? ==> r == Err(allowed.error) &&
                                   next.limit == if p.explicitLimit.Some? then Present(v) else st.limit)
  {
    hide ResolveLimitValue;
    IntentIsKept(own, ps);
    assert (ps + [p])[..|ps|] == ps;
    hide Prepared, Intent;
  }

  /** Safe integers are those whose magnitude is below two to the 53rd. */
  lemma SafeIntegersAre(v: LimitValue)
    ensures IsSafeInteger(v) <==> v.Number? && -0x20_0000_0000_0000 < v.n < 0x20_0000_0000_0000
  {
  }
}

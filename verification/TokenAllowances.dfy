/**
 Token allowance queries, built call by call (AccountTokenAllowancesDSL, src/dsl/accounts.ts)
 or mapped at once (AccountsMapper.tokenAllowances, src/resources/accounts/mapper.ts). The
 grammars of account paths and of single values are parameters: what is proved holds for any.
*/
module TokenAllowances {
  import opened Comparators
  import opened Wrappers

  datatype Grammar = Grammar(isPath: string -> bool, isSpender: string -> bool, isToken: string -> bool)

  datatype Error =
    | BadPath | NoPath | EmptyArray | BadOperator | Cardinality | BadValue
    | EqualityNotAlone | TooManyEqualities | TooManyLowerBounds | TooManyUpperBounds
    | TokenWithoutSpender | UpperNotCoupled | LowerNotCoupled

  /** An argument that is one string or an array of strings. */
  datatype Values = Single(value: string) | Array(values: seq<string>)

  function ListOf(v: Values): seq<string> { if v.Single? then [v.value] else v.values }

  // ------------------------------------------------------ repeated comparators

  const MAXIMUM := 100

  predicate IsFilter(ok: string -> bool, f: string) {
    var p := ParseComparatorValue(f, NO_NE);
    p.Ok? && ok(p.value.value)
  }

  /** The operator of a filter whose text parses; a bare value is an equality. */
  function Op(f: string): Operator {
    var p := ParseComparatorValue(f, ALL);
    if p.Ok? then EffectiveOperator(p.value) else Eq
  }

  predicate IsEquality(o: Operator) { o == Eq }

  predicate IsLower(o: Operator) { o == Gt || o == Gte }

  predicate IsUpper(o: Operator) { o == Lt || o == Lte }

  /** How many of the filters have an operator of one kind. */
  function CountOf(fs: seq<string>, kind: Operator -> bool): (n: nat)
    ensures n <= |fs|
  {
    if fs == [] then 0 else CountOf(fs[..|fs| - 1], kind) + if kind(Op(fs[|fs| - 1])) then 1 else 0
  }

  /** The failure of a list of filters, if any, in the order the checks are made. */
  function Fault(ok: string -> bool, fs: seq<string>): Option<Error> {
    if |fs| == 0 || |fs| > MAXIMUM then Some(Cardinality)
    else if exists i :: 0 <= i < |fs| && !IsFilter(ok, fs[i]) then Some(BadValue)
    else
      var equalities, lowers, uppers := CountOf(fs, IsEquality), CountOf(fs, IsLower), CountOf(fs, IsUpper);
      if equalities > 0 && |fs| > 1 then Some(EqualityNotAlone)
      else if equalities > 1 then Some(TooManyEqualities)
      else if lowers > 1 then Some(TooManyLowerBounds)
      else if uppers > 1 then Some(TooManyUpperBounds)
      else None
  }

  method ValidateRepeatedComparatorFilters(ok: string -> bool, values: seq<string>) returns (r: Option<Error>)
    ensures r == Fault(ok, values)
  {
    hide IsFilter, Op;
    if |values| == 0 || |values| > MAXIMUM { return Some(Cardinality); }
    for n := 0 to |values|
      invariant forall i :: 0 <= i < n ==> IsFilter(ok, values[i])
    {
      if !IsFilter(ok, values[n]) { return Some(BadValue); }
    }
    var equalities, lowers, uppers := 0, 0, 0;
    for n := 0 to |values|
      invariant equalities == CountOf(values[..n], IsEquality)
      invariant lowers == CountOf(values[..n], IsLower)
      invariant uppers == CountOf(values[..n], IsUpper)
    {
      var operator := Op(values[n]);
      assert values[..n + 1][..n] == values[..n];
      if IsEquality(operator) { equalities := equalities + 1; }
      if IsLower(operator) { lowers := lowers + 1; }
      if IsUpper(operator) { uppers := uppers + 1; }
    }
    assert values[..|values|] == values;
    if equalities > 0 && |values| > 1 { return Some(EqualityNotAlone); }
    if equalities > 1 { return Some(TooManyEqualities); }
    if lowers > 1 { return Some(TooManyLowerBounds); }
    if uppers > 1 { return Some(TooManyUpperBounds); }
    return None;
  }

  // ------------------------------------------------------------------- coupling

  /** opOf: the text before the first colon, unless the colon comes first or is missing. */
  function OperatorText(f: string): string {
    var i := FirstOf(f, ':');
    if 0 < i < |f| then f[..i] else "eq"
  }

  predicate SomeText(fs: seq<string>, a: string, b: string) {
    exists i :: 0 <= i < |fs| && (OperatorText(fs[i]) == a || OperatorText(fs[i]) == b)
  }

  function CouplingFault(spender: seq<string>, token: seq<string>): Option<Error> {
    if SomeText(token, "lt", "lte") && !SomeText(spender, "lte", "eq") then Some(UpperNotCoupled)
    else if SomeText(token, "gt", "gte") && !SomeText(spender, "gte", "eq") then Some(LowerNotCoupled)
    else None
  }

  // ----------------------------------------------------------------- the mapper

  datatype Query = Query(path: string, spenderId: Option<Values>, tokenId: Option<Values>)

  datatype Request = Request(path: string, spenderId: Option<Values>, tokenId: Option<Values>)

  function FiltersOf(v: Option<Values>): seq<string> { if v.None? then [] else ListOf(v.value) }

  function MapTokenAllowances(g: Grammar, q: Query): Result<Request, Error> {
    var spender, token := FiltersOf(q.spenderId), FiltersOf(q.tokenId);
    if !g.isPath(q.path) then Err(BadPath)
    else if q.spenderId.Some? && Fault(g.isSpender, spender).Some? then Err(Fault(g.isSpender, spender).value)
    else if q.tokenId.Some? && q.spenderId.None? then Err(TokenWithoutSpender)
    else if q.tokenId.Some? && Fault(g.isToken, token).Some? then Err(Fault(g.isToken, token).value)
    else if CouplingFault(spender, token).Some? then Err(CouplingFault(spender, token).value)
    else Ok(Request(q.path, q.spenderId, q.tokenId))
  }

  /** The occurrences of a parameter in the query string: one per array element, one for a single value. */
  function Occurrences(v: Option<Values>): seq<string> { FiltersOf(v) }

  // ---------------------------------------------------------------- the builder

  datatype Call =
    | SetPath(path: string)
    | Spender(values: Values)
    | SpenderCompare(operator: Operator, value: string)
    | Token(values: Values)
    | TokenCompare(operator: Operator, value: string)

  datatype State = State(path: Option<string>, spender: seq<string>, token: seq<string>)

  /** `eq` is written as the bare value, any other operator in front of it. */
  function AsEqOrOp(operator: Operator, value: string): string {
    if operator == Eq then value else NameOf(operator) + ":" + value
  }

  /** The filters a call adds, or why it is refused before they are looked at. */
  function Added(c: Call): Result<seq<string>, Error> {
    match c
    case SetPath(_) => Ok([])
    case Spender(v) => if ListOf(v) == [] then Err(EmptyArray) else Ok(ListOf(v))
    case Token(v) => if ListOf(v) == [] then Err(EmptyArray) else Ok(ListOf(v))
    case SpenderCompare(o, v) => if o !in NO_NE then Err(BadOperator) else Ok([AsEqOrOp(o, v)])
    case TokenCompare(o, v) => if o !in NO_NE then Err(BadOperator) else Ok([AsEqOrOp(o, v)])
  }

  predicate OnSpender(c: Call) { c.Spender? || c.SpenderCompare? }

  /** One call: either the filters are appended and still valid, or nothing changes. */
  function CallStep(g: Grammar, st: State, c: Call): (State, Option<Error>) {
    if c.SetPath? then if g.isPath(c.path) then (st.(path := Some(c.path)), None) else (st, Some(BadPath))
    else if Added(c).Err? then (st, Some(Added(c).error))
    else if OnSpender(c) then
      var next := st.spender + Added(c).value;
      if Fault(g.isSpender, next).None? then (st.(spender := next), None) else (st, Fault(g.isSpender, next))
    else
      var next := st.token + Added(c).value;
      if Fault(g.isToken, next).None? then (st.(token := next), None) else (st, Fault(g.isToken, next))
  }

  function OneOrArray(fs: seq<string>): Option<Values> {
    if fs == [] then None else if |fs| == 1 then Some(Single(fs[0])) else Some(Array(fs))
  }

  function BuildStep(st: State): Result<Request, Error> {
    if st.path.None? || st.path.value == [] then Err(NoPath)
    else if |st.token| > 0 && |st.spender| == 0 then Err(TokenWithoutSpender)
    else if CouplingFault(st.spender, st.token).Some? then Err(CouplingFault(st.spender, st.token).value)
    else Ok(Request(st.path.value, OneOrArray(st.spender), OneOrArray(st.token)))
  }

  class AccountTokenAllowancesDSL {
    const grammar: Grammar
    var path: Option<string>
    var spenderFilters: seq<string>
    var tokenFilters: seq<string>

    constructor (grammar: Grammar)
      ensures this.grammar == grammar && Now() == State(None, [], [])
    {
      this.grammar := grammar;
      path, spenderFilters, tokenFilters := None, [], [];
    }

    function Now(): State
      reads this
    {
      State(path, spenderFilters, tokenFilters)
    }

    method IdOrAliasOrEvmAddress(v: string) returns (r: Option<Error>)
      modifies this
      ensures (Now(), r) == CallStep(grammar, old(Now()), SetPath(v))
    {
      if !grammar.isPath(v) { return Some(BadPath); }
      path := Some(v);
      return None;
    }

    method SpenderId(v: Values) returns (r: Option<Error>)
      modifies this
      ensures (Now(), r) == CallStep(grammar, old(Now()), Spender(v))
    {
      hide Fault;
      if v.Array? && |v.values| == 0 { return Some(EmptyArray); }
      var next := spenderFilters + if v.Array? then v.values else [v.value];
      r := ValidateRepeatedComparatorFilters(grammar.isSpender, next);
      if r.None? { spenderFilters := next; }
    }

    method SpenderIdCompare(operator: Operator, value: string) returns (r: Option<Error>)
      modifies this
      ensures (Now(), r) == CallStep(grammar, old(Now()), SpenderCompare(operator, value))
    {
      hide Fault;
      if operator !in NO_NE { return Some(BadOperator); }
      var next := spenderFilters + [AsEqOrOp(operator, value)];
      r := ValidateRepeatedComparatorFilters(grammar.isSpender, next);
      if r.None? { spenderFilters := next; }
    }

    method TokenId(v: Values) returns (r: Option<Error>)
      modifies this
      ensures (Now(), r) == CallStep(grammar, old(Now()), Token(v))
    {
      hide Fault;
      if v.Array? && |v.values| == 0 { return Some(EmptyArray); }
      var next := tokenFilters + if v.Array? then v.values else [v.value];
      r := ValidateRepeatedComparatorFilters(grammar.isToken, next);
      if r.None? { tokenFilters := next; }
    }

    method TokenIdCompare(operator: Operator, value: string) returns (r: Option<Error>)
      modifies this
      ensures (Now(), r) == CallStep(grammar, old(Now()), TokenCompare(operator, value))
    {
      hide Fault;
      if operator !in NO_NE { return Some(BadOperator); }
      var next := tokenFilters + [AsEqOrOp(operator, value)];
      r := ValidateRepeatedComparatorFilters(grammar.isToken, next);
      if r.None? { tokenFilters := next; }
    }

    method Build() returns (r: Result<Request, Error>)
      ensures r == BuildStep(Now())
    {
      if path.None? || |path.value| == 0 { return Err(NoPath); }
      if |tokenFilters| > 0 && |spenderFilters| == 0 { return Err(TokenWithoutSpender); }
      if SomeText(tokenFilters, "lt", "lte") {
        if !SomeText(spenderFilters, "lte", "eq") { return Err(UpperNotCoupled); }
      }
      if SomeText(tokenFilters, "gt", "gte") {
        if !SomeText(spenderFilters, "gte", "eq") { return Err(LowerNotCoupled); }
      }
      return Ok(Request(path.value, OneOrArray(spenderFilters), OneOrArray(tokenFilters)));
    }
  }

  // ------------------------------------------------------------ accepted shapes

  /** A list of filters is accepted when it is one filter, or one lower and one upper bound in either order. */
  predicate Shape(fs: seq<string>) {
    |fs| == 1 || (|fs| == 2 && ((IsLower(Op(fs[0])) && IsUpper(Op(fs[1]))) || (IsUpper(Op(fs[0])) && IsLower(Op(fs[1])))))
  }

  /** No accepted filter is an `ne`. */
  lemma FilterHasAKind(ok: string -> bool, f: string)
    requires IsFilter(ok, f)
    ensures IsEquality(Op(f)) || IsLower(Op(f)) || IsUpper(Op(f))
  {
  }

  lemma {:induction false} KindsAddUp(ok: string -> bool, fs: seq<string>)
    requires forall i :: 0 <= i < |fs| ==> IsFilter(ok, fs[i])
    ensures CountOf(fs, IsEquality) + CountOf(fs, IsLower) + CountOf(fs, IsUpper) == |fs|
  {
    hide Op, IsFilter;
    if fs != [] {
      KindsAddUp(ok, fs[..|fs| - 1]);
      FilterHasAKind(ok, fs[|fs| - 1]);
    }
  }

  lemma AcceptedShapes(ok: string -> bool, fs: seq<string>)
    ensures Fault(ok, fs).None? <==> (forall i :: 0 <= i < |fs| ==> IsFilter(ok, fs[i])) && Shape(fs)
  {
    hide Op, IsFilter;
    if forall i :: 0 <= i < |fs| ==> IsFilter(ok, fs[i]) {
      KindsAddUp(ok, fs);
      if |fs| == 1 {
        assert fs[..0] == [];
      } else if |fs| == 2 {
        assert fs[..1][..0] == [];
        FilterHasAKind(ok, fs[0]);
        FilterHasAKind(ok, fs[1]);
        CountOfTwo(fs, IsEquality);
        CountOfTwo(fs, IsLower);
        CountOfTwo(fs, IsUpper);
      }
    }
  }

  lemma CountOfTwo(fs: seq<string>, kind: Operator -> bool)
    requires |fs| == 2
    ensures CountOf(fs, kind) == (if kind(Op(fs[0])) then 1 else 0) + (if kind(Op(fs[1])) then 1 else 0)
  {
  }

  /** Every non-empty prefix of an accepted list is accepted, so no earlier call can be refused. */
  lemma AcceptanceIsPrefixClosed(ok: string -> bool, fs: seq<string>, n: nat)
    requires Fault(ok, fs).None? && 0 < n <= |fs|
    ensures Fault(ok, fs[..n]).None?
  {
    hide Fault, IsFilter, Op;
    AcceptedShapes(ok, fs);
    AcceptedShapes(ok, fs[..n]);
  }

  // -------------------------------------------------------------- whole sequences

  function After(g: Grammar, calls: seq<Call>): State {
    if calls == [] then State(None, [], []) else CallStep(g, After(g, calls[..|calls| - 1]), calls[|calls| - 1]).0
  }

  /** Every call was accepted. */
  predicate AllAccepted(g: Grammar, calls: seq<Call>) {
    calls == [] ||
    (AllAccepted(g, calls[..|calls| - 1]) && CallStep(g, After(g, calls[..|calls| - 1]), calls[|calls| - 1]).1.None?)
  }

  /** The query object with a builder's contents. */
  function BatchOf(path: string, spender: seq<string>, token: seq<string>): Query {
    Query(path, if spender == [] then None else Some(Array(spender)), if token == [] then None else Some(Array(token)))
  }

  predicate SameAnswer(a: Result<Request, Error>, b: Result<Request, Error>) {
    (a.Ok? <==> b.Ok?) &&
    (a.Ok? ==> a.value.path == b.value.path && Occurrences(a.value.spenderId) == Occurrences(b.value.spenderId) &&
               Occurrences(a.value.tokenId) == Occurrences(b.value.tokenId))
  }

  ghost predicate Sound(g: Grammar, st: State) {
    && (st.path.Some? ==> g.isPath(st.path.value))
    && (st.spender != [] ==> Fault(g.isSpender, st.spender).None?)
    && (st.token != [] ==> Fault(g.isToken, st.token).None?)
  }

  lemma {:induction false} AfterIsSound(g: Grammar, calls: seq<Call>)
    ensures Sound(g, After(g, calls))
    decreases |calls|
  {
    hide Fault;
    if calls != [] { AfterIsSound(g, calls[..|calls| - 1]); }
  }

  /**
   After any calls, refused ones included, building answers as the mapper does on the
   lists the builder holds: accepted by one if and only if by the other, with the same
   path and the same occurrences of both parameters.
  */
  lemma BuildAgreesWithMapper(g: Grammar, calls: seq<Call>)
    requires !g.isPath("")
    ensures var st := After(g, calls);
            if st.path.None? then BuildStep(st) == Err(NoPath)
            else SameAnswer(BuildStep(st), MapTokenAllowances(g, BatchOf(st.path.value, st.spender, st.token)))
  {
    hide Fault, CouplingFault;
    AfterIsSound(g, calls);
  }

  /** Everything the calls on one list add, accepted or not. */
  function Gathered(calls: seq<Call>, onSpender: bool): seq<string> {
    if calls == [] then []
    else
      var c := calls[|calls| - 1];
      Gathered(calls[..|calls| - 1], onSpender) +
      if !c.SetPath? && OnSpender(c) == onSpender && Added(c).Ok? then Added(c).value else []
  }

  function LastPath(calls: seq<Call>): Option<string> {
    if calls == [] then None
    else if calls[|calls| - 1].SetPath? then Some(calls[|calls| - 1].path)
    else LastPath(calls[..|calls| - 1])
  }

  /** What a call must be by itself: a valid path, a non-empty array, an operator other than `ne`. */
  predicate FitToMake(g: Grammar, c: Call) { if c.SetPath? then g.isPath(c.path) else Added(c).Ok? }

  predicate EmptyOrAccepted(ok: string -> bool, fs: seq<string>) { fs == [] || Fault(ok, fs).None? }

  /** One call at a time is accepted throughout exactly when the gathered lists are accepted at once. */
  lemma {:induction false} IncrementalIffBatch(g: Grammar, calls: seq<Call>)
    ensures AllAccepted(g, calls) <==>
            (forall i :: 0 <= i < |calls| ==> FitToMake(g, calls[i])) &&
            EmptyOrAccepted(g.isSpender, Gathered(calls, true)) && EmptyOrAccepted(g.isToken, Gathered(calls, false))
    ensures AllAccepted(g, calls) ==> After(g, calls).spender == Gathered(calls, true) &&
                                      After(g, calls).token == Gathered(calls, false) &&
                                      After(g, calls).path == LastPath(calls)
    decreases |calls|
  {
    hide Fault, Added;
    if calls != [] {
      var init, c := calls[..|calls| - 1], calls[|calls| - 1];
      IncrementalIffBatch(g, init);
      GatheredPrefix(g.isSpender, calls, true);
      GatheredPrefix(g.isToken, calls, false);
      AddedSome(c);
      var spender, token := Gathered(init, true), Gathered(init, false);
      assert spender + [] == spender && token + [] == token;
      assert EmptyOrAccepted(g.isSpender, spender) <== EmptyOrAccepted(g.isSpender, Gathered(calls, true));
      assert EmptyOrAccepted(g.isToken, token) <== EmptyOrAccepted(g.isToken, Gathered(calls, false));
      assert forall i :: 0 <= i < |init| ==> init[i] == calls[i];
      assert (forall i :: 0 <= i < |calls| ==> FitToMake(g, calls[i])) <==>
             (forall i :: 0 <= i < |init| ==> FitToMake(g, init[i])) && FitToMake(g, c);
    }
  }

  /**
   The builder and the mapper accept the same queries: every call and the final build
   succeed exactly when each call is well formed and the mapper accepts, at once, the
   lists the calls gather.
  */
  lemma BuilderIffMapper(g: Grammar, calls: seq<Call>)
    requires !g.isPath("") && LastPath(calls).Some?
    ensures AllAccepted(g, calls) && BuildStep(After(g, calls)).Ok? <==>
            (forall i :: 0 <= i < |calls| ==> FitToMake(g, calls[i])) &&
            MapTokenAllowances(g, BatchOf(LastPath(calls).value, Gathered(calls, true), Gathered(calls, false))).Ok?
  {
    hide Fault, CouplingFault, CallStep, FitToMake;
    IncrementalIffBatch(g, calls);
    if AllAccepted(g, calls) {
      BuildAgreesWithMapper(g, calls);
    }
  }

  lemma AddedSome(c: Call)
    ensures !c.SetPath? && Added(c).Ok? ==> Added(c).value != []
  {
  }

  lemma GatheredPrefix(ok: string -> bool, calls: seq<Call>, onSpender: bool)
    requires calls != []
    ensures EmptyOrAccepted(ok, Gathered(calls, onSpender)) ==>
            EmptyOrAccepted(ok, Gathered(calls[..|calls| - 1], onSpender))
  {
    hide Fault, Added;
    var all, before := Gathered(calls, onSpender), Gathered(calls[..|calls| - 1], onSpender);
    assert all[..|before|] == before;
    if before != [] && Fault(ok, all).None? { AcceptanceIsPrefixClosed(ok, all, |before|); }
  }

  /** The text test of the coupling rule reads the operator that was parsed. */
  lemma OperatorTextIsOperator(ok: string -> bool, f: string)
    requires IsFilter(ok, f)
    ensures OperatorText(f) == NameOf(Op(f))
  {
  }

  predicate SomeOp(fs: seq<string>, a: Operator, b: Operator) {
    exists i :: 0 <= i < |fs| && (Op(fs[i]) == a || Op(fs[i]) == b)
  }

  lemma SomeTextIsSomeOp(ok: string -> bool, fs: seq<string>, a: Operator, b: Operator)
    requires forall i :: 0 <= i < |fs| ==> IsFilter(ok, fs[i])
    ensures SomeText(fs, NameOf(a), NameOf(b)) <==> SomeOp(fs, a, b)
  {
    hide IsFilter, Op, OperatorText;
    forall i | 0 <= i < |fs| ensures OperatorText(fs[i]) == NameOf(Op(fs[i])) {
      OperatorTextIsOperator(ok, fs[i]);
    }
  }

  /**
   The pagination rule on accepted lists: an upper bound on tokens needs `lte` or equality on
   spenders, a lower bound on tokens needs `gte` or equality on spenders.
  */
  lemma CouplingRule(g: Grammar, spender: seq<string>, token: seq<string>)
    requires EmptyOrAccepted(g.isSpender, spender) && EmptyOrAccepted(g.isToken, token)
    ensures CouplingFault(spender, token).None? <==>
            (SomeOp(token, Lt, Lte) ==> SomeOp(spender, Lte, Eq)) && (SomeOp(token, Gt, Gte) ==> SomeOp(spender, Gte, Eq))
  {
    hide IsFilter, Op, SomeOp, SomeText, Fault;
    AcceptedShapes(g.isSpender, spender);
    AcceptedShapes(g.isToken, token);
    SomeTextIsSomeOp(g.isToken, token, Lt, Lte);
    SomeTextIsSomeOp(g.isToken, token, Gt, Gte);
    SomeTextIsSomeOp(g.isSpender, spender, Lte, Eq);
    SomeTextIsSomeOp(g.isSpender, spender, Gte, Eq);
  }

  /** The text of an accepted filter is an equality exactly when it has no colon or starts with `eq:`. */
  lemma EqualityText(ok: string -> bool, f: string)
    requires IsFilter(ok, f)
    ensures Op(f) == Eq <==> ':' !in f || "eq:" <= f
  {
    var i := FirstOf(f, ':');
    if i < |f| {
      assert f[i] in f;
      PrefixAt("eq", f, i);
    } else {
      assert f[..i] == f;
    }
  }

  lemma PrefixAt(name: string, f: string, i: nat)
    requires i < |f| && f[i] == ':' && ':' !in f[..i] && ':' !in name
    ensures name + ":" <= f <==> f[..i] == name
  {
    var p := name + ":";
    assert f[..i + 1] == f[..i] + ":";
    if p <= f {
      assert f[|name|] == p[|name|] && f[..|name|] == p[..|name|] == name;
      NoneBefore(f, i);
      NoneBefore(f, |name|);
    }
  }

  lemma NoneBefore(f: string, i: nat)
    requires i < |f| && ':' !in f[..i]
    ensures forall k :: 0 <= k < i ==> f[k] != ':'
  {
    forall k | 0 <= k < i ensures f[k] != ':' {
      assert f[..i][k] == f[k];
    }
  }

  /**
   A comparator call records its operator, with one exception: `equalTo` writes the bare
   value, so it records an equality exactly when the value has no colon or starts with `eq:`.
  */
  lemma CompareCallRecords(ok: string -> bool, operator: Operator, value: string)
    requires operator in NO_NE && IsFilter(ok, AsEqOrOp(operator, value))
    ensures Op(AsEqOrOp(operator, value)) == operator <==> (operator == Eq ==> ':' !in value || "eq:" <= value)
    ensures operator != Eq ==> ok(value)
  {
    hide Op, IsFilter;
    if operator == Eq {
      EqualityText(ok, value);
    } else {
      RecordsPrefixed(ok, operator, value);
    }
  }

  lemma RecordsPrefixed(ok: string -> bool, operator: Operator, value: string)
    requires operator in NO_NE && IsFilter(ok, NameOf(operator) + ":" + value)
    ensures Op(NameOf(operator) + ":" + value) == operator && ok(value)
  {
    if value == [] {
      FirstOfIs(NameOf(operator), value, ':');
    } else {
      ParsesPrefixed(operator, value, ALL);
      ParsesPrefixed(operator, value, NO_NE);
    }
  }

  /** On a fresh builder `equalTo` accepts any valid bound written as text, and records the bound. */
  lemma EqualToRecordsBound(g: Grammar, bound: Operator, value: string)
    requires bound in {Gt, Gte, Lt, Lte} && value != [] && g.isSpender(value)
    ensures var f := NameOf(bound) + ":" + value;
            var (next, error) := CallStep(g, State(None, [], []), SpenderCompare(Eq, f));
            error == None && next.spender == [f] && Op(f) == bound
  {
    var f := NameOf(bound) + ":" + value;
    ParsesPrefixed(bound, value, ALL);
    ParsesPrefixed(bound, value, NO_NE);
    assert IsFilter(g.isSpender, f) && Op(f) == bound;
    hide ParseComparatorValue, Fault, IsFilter, Op, NameOf;
    AcceptedShapes(g.isSpender, [f]);
    assert [] + [f] == [f];
  }

  /** So `equalTo("gt:0.0.5")` is a lower bound. */
  lemma EqualToExample(g: Grammar)
    requires g.isSpender("0.0.5")
    ensures CallStep(g, State(None, [], []), SpenderCompare(Eq, "gt:0.0.5")).0.spender == ["gt:0.0.5"]
    ensures IsFilter(g.isSpender, "gt:0.0.5") && Op("gt:0.0.5") == Gt
  {
    hide CallStep, Op, Fault;
    assert NameOf(Gt) + ":" + "0.0.5" == "gt:0.0.5";
    EqualToRecordsBound(g, Gt, "0.0.5");
    ParsesPrefixed(Gt, "0.0.5", NO_NE);
  }

  // ------------------------------------------------------------ call by call

  /** A filter is a valid value, bare and without a colon, or one of five operators in front of a valid value. */
  lemma FilterTexts(ok: string -> bool, f: string)
    ensures IsFilter(ok, f) <==>
            (f != [] && ':' !in f && ok(f)) ||
            exists o: Operator, v :: o != Ne && v != [] && ok(v) && f == NameOf(o) + ":" + v
  {
    if IsFilter(ok, f) {
      ParsedText(f, NO_NE);
    }
    if f != [] && ':' !in f {
      ParsesBare(f, NO_NE);
    }
    forall o: Operator, v | o != Ne && v != [] && ok(v) && f == NameOf(o) + ":" + v ensures IsFilter(ok, f) {
      assert o in NO_NE by { match o { case _ => } }
      ParsesPrefixed(o, v, NO_NE);
    }
  }

  /** A list of filters is accepted when they are valid filters of an accepted shape. */
  ghost predicate Accepted(ok: string -> bool, fs: seq<string>) {
    (forall i :: 0 <= i < |fs| ==> IsFilter(ok, fs[i])) && Shape(fs)
  }

  /**
   Which list a call extends, and with what: the spender calls the spender filters, the token
   calls the token filters, each by the values given or by the comparator written out. A call
   that is refused, and only such a one, changes nothing.
  */
  lemma CallsExtendTheirList(g: Grammar, st: State, c: Call)
    ensures var (next, error) := CallStep(g, st, c);
            match c
            case SetPath(path) => (error.None? <==> g.isPath(path)) && next == if error.None? then st.(path := Some(path)) else st
            case Spender(v) =>
              (error.None? <==> ListOf(v) != [] && Accepted(g.isSpender, st.spender + ListOf(v))) &&
              next == if error.None? then st.(spender := st.spender + ListOf(v)) else st
            case Token(v) =>
              (error.None? <==> ListOf(v) != [] && Accepted(g.isToken, st.token + ListOf(v))) &&
              next == if error.None? then st.(token := st.token + ListOf(v)) else st
            case SpenderCompare(o, v) =>
              var f := if o == Eq then v else NameOf(o) + ":" + v;
              (error.None? <==> o != Ne && Accepted(g.isSpender, st.spender + [f])) &&
              next == if error.None? then st.(spender := st.spender + [f]) else st
            case TokenCompare(o, v) =>
              var f := if o == Eq then v else NameOf(o) + ":" + v;
              (error.None? <==> o != Ne && Accepted(g.isToken, st.token + [f])) &&
              next == if error.None? then st.(token := st.token + [f]) else st
  {
    hide Fault, IsFilter, Shape, NameOf;
    match c {
      case SetPath(_) =>
      case Spender(v) => AcceptedShapes(g.isSpender, st.spender + ListOf(v));
      case Token(v) => AcceptedShapes(g.isToken, st.token + ListOf(v));
      case SpenderCompare(o, v) =>
        NotNe(o);
        AcceptedShapes(g.isSpender, st.spender + [AsEqOrOp(o, v)]);
      case TokenCompare(o, v) =>
        NotNe(o);
        AcceptedShapes(g.isToken, st.token + [AsEqOrOp(o, v)]);
    }
  }

  lemma NotNe(o: Operator)
    ensures o in NO_NE <==> o != Ne
  {
    match o { case _ => }
  }

  /** The pagination rule between two accepted lists. */
  predicate Coupled(spender: seq<string>, token: seq<string>) {
    (SomeOp(token, Lt, Lte) ==> SomeOp(spender, Lte, Eq)) && (SomeOp(token, Gt, Gte) ==> SomeOp(spender, Gte, Eq))
  }

  /**
   Building succeeds exactly with a path, with spender filters wherever there are token
   filters, and with coupled lists; the request carries each list under its own parameter.
  */
  lemma BuildCarriesTheLists(g: Grammar, st: State)
    requires EmptyOrAccepted(g.isSpender, st.spender) && EmptyOrAccepted(g.isToken, st.token)
    ensures var r := BuildStep(st);
            && (r.Ok? <==> st.path.Some? && st.path.value != [] && (st.token != [] ==> st.spender != []) &&
                           Coupled(st.spender, st.token))
            && (r.Ok? ==> r.value.path == st.path.value && Occurrences(r.value.spenderId) == st.spender &&
                          Occurrences(r.value.tokenId) == st.token)
  {
    hide Fault, CouplingFault, SomeOp;
    CouplingRule(g, st.spender, st.token);
  }

  /** The mapper accepts exactly the queries of that kind, and carries their lists unchanged. */
  lemma MapperCarriesTheLists(g: Grammar, q: Query)
    ensures var r := MapTokenAllowances(g, q);
            var spender, token := FiltersOf(q.spenderId), FiltersOf(q.tokenId);
            && (r.Ok? <==> g.isPath(q.path) && (q.spenderId.Some? ==> Accepted(g.isSpender, spender)) &&
                           (q.tokenId.Some? ==> q.spenderId.Some? && Accepted(g.isToken, token)) && Coupled(spender, token))
            && (r.Ok? ==> r.value.path == q.path && Occurrences(r.value.spenderId) == spender &&
                          Occurrences(r.value.tokenId) == token)
  {
    hide Fault, CouplingFault, SomeOp, IsFilter, Shape;
    var spender, token := FiltersOf(q.spenderId), FiltersOf(q.tokenId);
    AcceptedShapes(g.isSpender, spender);
    AcceptedShapes(g.isToken, token);
    if EmptyOrAccepted(g.isSpender, spender) && EmptyOrAccepted(g.isToken, token) {
      CouplingRule(g, spender, token);
    }
  }
}

/**
 Timestamp filters: getInclusiveTimestampBounds, hasEffectiveTimestampEquality and
 enforceTopicTimestampWindow (src/core/utils.ts). What the methods compute is stated
 against the set of nanoseconds that satisfy every filter.
*/
module TimestampBounds {
  import opened Comparators
  import opened Numbers
  import opened Text
  import opened Wrappers

  const NANOS := 1_000_000_000
  const MAX_SECONDS := 9_223_372_036

  /** A filter is a JavaScript number, `None` when it is not a safe integer, or a string. */
  datatype Filter = Number(seconds: Option<int>) | Text(text: string)

  datatype Error = InvalidFilter | Required | Unbounded | EmptyRange | InvalidMaximum | TooLarge

  datatype Bounds = Bounds(lower: Option<int>, upper: Option<int>)

  // ------------------------------------------------------------------ one filter

  /** One to ten digits of seconds, optionally a point and one to nine digits of fraction. */
  predicate TimestampShape(s: string) {
    var parts := Split(s, '.');
    |parts| <= 2 && AllDigits(parts[0]) && 1 <= |parts[0]| <= 10 &&
    (|parts| == 2 ==> AllDigits(parts[1]) && 1 <= |parts[1]| <= 9)
  }

  function PadEnd(fraction: string): (s: string)
    requires AllDigits(fraction) && |fraction| <= 9
    ensures |s| == 9 && AllDigits(s) && fraction <= s
    decreases 9 - |fraction|
  {
    if |fraction| == 9 then fraction else PadEnd(fraction + "0")
  }

  function Nanoseconds(s: string): nat
    requires TimestampShape(s)
  {
    var parts := Split(s, '.');
    NatOf(parts[0]) * NANOS + NatOf(PadEnd(if |parts| == 2 then parts[1] else ""))
  }

  predicate ValidTimestamp(s: string) { TimestampShape(s) && Nanoseconds(s) <= MAX_SIGNED_INT64 }

  /** The operator and nanosecond value of a filter, or nothing when it is invalid. */
  datatype Test = Test(operator: Operator, at: int)

  function Read(f: Filter): Option<Test> {
    match f
    case Number(None) => None
    case Number(Some(n)) =>
      if !(-MAX_SAFE_INTEGER <= n <= MAX_SAFE_INTEGER) || n < 0 || n > MAX_SECONDS then None
      else if ValidTimestamp(Decimal(n)) then Some(Test(Eq, Nanoseconds(Decimal(n))))
      else None
    case Text(s) =>
      match ParseComparatorValue(s, ALL)
      case Err(_) => None
      case Ok(p) =>
        if ValidTimestamp(p.value) then Some(Test(EffectiveOperator(p), Nanoseconds(p.value))) else None
  }

  predicate Valid(f: Filter) { Read(f).Some? }

  predicate AllValid(fs: seq<Filter>) { forall i :: 0 <= i < |fs| ==> Valid(fs[i]) }

  predicate Passes(t: Test, ns: int) {
    match t.operator
    case Eq => ns == t.at
    case Ne => ns != t.at
    case Gt => ns > t.at
    case Gte => ns >= t.at
    case Lt => ns < t.at
    case Lte => ns <= t.at
  }

  predicate Satisfies(f: Filter, ns: int)
    requires Valid(f)
  {
    Passes(Read(f).value, ns)
  }

  /** `ns` is a solution: it satisfies every filter. */
  predicate Solves(fs: seq<Filter>, ns: int)
    requires AllValid(fs)
  {
    forall i :: 0 <= i < |fs| ==> Satisfies(fs[i], ns)
  }

  // ------------------------------------------------------------------- the bounds

  function LowerOf(f: Filter): Option<int>
    requires Valid(f)
  {
    var t := Read(f).value;
    if t.operator in {Eq, Gte} then Some(t.at) else if t.operator == Gt then Some(t.at + 1) else None
  }

  function UpperOf(f: Filter): Option<int>
    requires Valid(f)
  {
    var t := Read(f).value;
    if t.operator in {Eq, Lte} then Some(t.at) else if t.operator == Lt then Some(t.at - 1) else None
  }

  /** `lower` is the greatest of the filters' lower candidates, or absent when there is none. */
  ghost predicate IsGreatestLower(fs: seq<Filter>, lower: Option<int>)
    requires AllValid(fs)
  {
    && (lower.None? ==> forall i :: 0 <= i < |fs| ==> LowerOf(fs[i]).None?)
    && (lower.Some? ==> (exists i :: 0 <= i < |fs| && LowerOf(fs[i]) == lower) &&
                        forall i :: 0 <= i < |fs| ==> LowerOf(fs[i]).Some? ==> LowerOf(fs[i]).value <= lower.value)
  }

  ghost predicate IsLeastUpper(fs: seq<Filter>, upper: Option<int>)
    requires AllValid(fs)
  {
    && (upper.None? ==> forall i :: 0 <= i < |fs| ==> UpperOf(fs[i]).None?)
    && (upper.Some? ==> (exists i :: 0 <= i < |fs| && UpperOf(fs[i]) == upper) &&
                        forall i :: 0 <= i < |fs| ==> UpperOf(fs[i]).Some? ==> UpperOf(fs[i]).value >= upper.value)
  }

  ghost predicate BoundsOf(fs: seq<Filter>, b: Bounds) {
    AllValid(fs) && IsGreatestLower(fs, b.lower) && IsLeastUpper(fs, b.upper)
  }

  method GetInclusiveTimestampBounds(filters: seq<Filter>) returns (r: Result<Bounds, Error>)
    ensures r.Ok? <==> AllValid(filters)
    ensures r.Ok? ==> BoundsOf(filters, r.value)
    ensures r.Err? ==> r.error == InvalidFilter
  {
    hide Read;
    var lower, upper: Option<int> := None, None;
    for n := 0 to |filters|
      invariant BoundsOf(filters[..n], Bounds(lower, upper))
    {
      var filter := filters[n];
      if Read(filter).None? {
        assert !Valid(filter);
        return Err(InvalidFilter);
      }
      var t := Read(filter).value;
      ghost var was := filters[..n];
      assert filters[..n + 1] == was + [filter];
      if t.operator in {Eq, Gt, Gte} {
        var candidate := if t.operator == Gt then t.at + 1 else t.at;
        lower := if lower.None? || candidate > lower.value then Some(candidate) else lower;
      }
      if t.operator in {Eq, Lt, Lte} {
        var candidate := if t.operator == Lt then t.at - 1 else t.at;
        upper := if upper.None? || candidate < upper.value then Some(candidate) else upper;
      }
    }
    assert filters[..|filters|] == filters;
    return Ok(Bounds(lower, upper));
  }

  predicate Within(b: Bounds, ns: int) {
    (b.lower.Some? ==> b.lower.value <= ns) && (b.upper.Some? ==> ns <= b.upper.value)
  }

  /** The instants that an `ne` filter takes out. */
  ghost function Excluded(fs: seq<Filter>): set<int>
    requires AllValid(fs)
  {
    set i | 0 <= i < |fs| && Read(fs[i]).value.operator == Ne :: Read(fs[i]).value.at
  }

  predicate NoNe(fs: seq<Filter>)
    requires AllValid(fs)
  {
    forall i :: 0 <= i < |fs| ==> Read(fs[i]).value.operator != Ne
  }

  /** The solutions are the instants within the bounds that no `ne` filter names. */
  lemma SolutionsAre(fs: seq<Filter>, b: Bounds, ns: int)
    requires BoundsOf(fs, b)
    ensures Solves(fs, ns) <==> Within(b, ns) && ns !in Excluded(fs)
  {
    hide Read;
    if Within(b, ns) && ns !in Excluded(fs) {
      forall i | 0 <= i < |fs| ensures Satisfies(fs[i], ns) {
        var t := Read(fs[i]).value;
        assert LowerOf(fs[i]).Some? ==> LowerOf(fs[i]).value <= ns;
        assert UpperOf(fs[i]).Some? ==> ns <= UpperOf(fs[i]).value;
        assert t.operator == Ne ==> t.at in Excluded(fs);
      }
    }
    if Solves(fs, ns) {
      assert forall i :: 0 <= i < |fs| ==> Satisfies(fs[i], ns);
      assert b.lower.Some? ==> exists i :: 0 <= i < |fs| && LowerOf(fs[i]) == b.lower && Satisfies(fs[i], ns);
      assert b.upper.Some? ==> exists i :: 0 <= i < |fs| && UpperOf(fs[i]) == b.upper && Satisfies(fs[i], ns);
    }
  }

  /** Without `ne`, the bounds describe the solutions exactly. */
  lemma BoundsAreExact(fs: seq<Filter>, b: Bounds, ns: int)
    requires BoundsOf(fs, b) && NoNe(fs)
    ensures Solves(fs, ns) <==> Within(b, ns)
  {
    hide Read;
    SolutionsAre(fs, b, ns);
  }

  /** In general they do so exactly when every instant named by an `ne` filter is outside them. */
  lemma BoundsAreExactIff(fs: seq<Filter>, b: Bounds)
    requires BoundsOf(fs, b)
    ensures (forall ns :: Solves(fs, ns) <==> Within(b, ns)) <==> (forall ns :: ns in Excluded(fs) ==> !Within(b, ns))
  {
    hide IsGreatestLower, IsLeastUpper, Solves, AllValid, Excluded, Within;
    forall ns ensures Solves(fs, ns) <==> Within(b, ns) && ns !in Excluded(fs) {
      SolutionsAre(fs, b, ns);
    }
  }

  // ------------------------------------------------------------ counting solutions

  ghost predicate SolutionSet(fs: seq<Filter>, s: set<int>)
    requires AllValid(fs)
  {
    forall ns :: ns in s <==> Solves(fs, ns)
  }

  /** Exactly `n` instants satisfy every filter. */
  ghost predicate HasSolutions(fs: seq<Filter>, n: nat)
    requires AllValid(fs)
  {
    exists s :: SolutionSet(fs, s) && |s| == n
  }

  ghost function Range(lo: int, hi: int): (r: set<int>)
    ensures forall ns :: ns in r <==> lo <= ns <= hi
    decreases hi - lo
  {
    if lo > hi then {} else Range(lo, hi - 1) + {hi}
  }

  lemma {:induction false} RangeSize(lo: int, hi: int)
    ensures |Range(lo, hi)| == if lo <= hi then hi - lo + 1 else 0
    decreases hi - lo
  {
    if lo <= hi { RangeSize(lo, hi - 1); }
  }

  /** How many of the instants between the bounds an `ne` filter removes. */
  ghost function Removed(fs: seq<Filter>, lo: int, hi: int): nat
    requires AllValid(fs)
  {
    |Range(lo, hi) * Excluded(fs)|
  }

  lemma SolutionCount(fs: seq<Filter>, b: Bounds, n: nat)
    requires BoundsOf(fs, b) && b.lower.Some? && b.upper.Some?
    ensures var lo, hi := b.lower.value, b.upper.value;
            HasSolutions(fs, n) <==> n == (if lo <= hi then hi - lo + 1 else 0) - Removed(fs, lo, hi)
  {
    hide IsGreatestLower, IsLeastUpper, Solves, AllValid, Excluded, Range;
    var lo, hi := b.lower.value, b.upper.value;
    var all, out := Range(lo, hi), Excluded(fs);
    RangeSize(lo, hi);
    forall ns ensures ns in all - out <==> Solves(fs, ns) {
      SolutionsAre(fs, b, ns);
    }
    assert SolutionSet(fs, all - out);
    DifferenceSize(all, out);
    forall s | SolutionSet(fs, s) ensures s == all - out {
      assert forall ns :: ns in s <==> ns in all - out;
    }
  }

  lemma DifferenceSize(s: set<int>, t: set<int>)
    ensures |s - t| == |s| - |s * t|
  {
  }

  lemma {:induction false} FreshBeyond(s: set<int>, from: int, up: bool) returns (x: int)
    ensures x !in s && (if up then x >= from else x <= from)
    decreases |s|
  {
    if from in s {
      x := FreshBeyond(s - {from}, if up then from + 1 else from - 1, up);
    } else {
      x := from;
    }
  }

  /** With a bound missing there are infinitely many solutions. */
  lemma MissingBoundIsInfinite(fs: seq<Filter>, b: Bounds, n: nat)
    requires BoundsOf(fs, b) && (b.lower.None? || b.upper.None?)
    ensures !HasSolutions(fs, n)
  {
    hide IsGreatestLower, IsLeastUpper, Solves, AllValid, Excluded;
    forall s ensures !SolutionSet(fs, s) {
      var up := b.upper.None?;
      var x := FreshBeyond(s + Excluded(fs), if up then (if b.lower.Some? then b.lower.value else 0) else b.upper.value, up);
      SolutionsAre(fs, b, x);
    }
  }

  // ------------------------------------------------------------ effective equality

  predicate Coincide(b: Bounds) { b.lower.Some? && b.upper.Some? && b.lower.value == b.upper.value }

  method HasEffectiveTimestampEquality(filters: seq<Filter>) returns (r: Result<bool, Error>)
    ensures r.Ok? <==> AllValid(filters)
    ensures r.Err? ==> r.error == InvalidFilter
    ensures r.Ok? ==> exists b :: BoundsOf(filters, b) && r.value == Coincide(b)
    ensures r.Ok? && NoNe(filters) ==> (r.value <==> HasSolutions(filters, 1))
  {
    hide Read;
    if |filters| == 0 {
      assert BoundsOf(filters, Bounds(None, None));
      MissingBoundIsInfinite(filters, Bounds(None, None), 1);
      return Ok(false);
    }
    var bounds := GetInclusiveTimestampBounds(filters);
    if bounds.Err? { return Err(bounds.error); }
    var b := bounds.value;
    if NoNe(filters) { EqualityIsOneSolution(filters, b); }
    return Ok(b.lower.Some? && b.upper.Some? && b.lower.value == b.upper.value);
  }

  /** Coinciding bounds mean one solution exactly when the `ne` filters spare the one, or do not leave one. */
  lemma EqualityExactly(fs: seq<Filter>, b: Bounds)
    requires BoundsOf(fs, b)
    ensures (Coincide(b) <==> HasSolutions(fs, 1)) <==>
            (b.lower.None? || b.upper.None? || b.lower.value > b.upper.value ||
             Removed(fs, b.lower.value, b.upper.value) !=
               if Coincide(b) then 1 else b.upper.value - b.lower.value)
  {
    hide IsGreatestLower, IsLeastUpper, AllValid, HasSolutions, Excluded, Range;
    if b.lower.None? || b.upper.None? {
      MissingBoundIsInfinite(fs, b, 1);
    } else {
      SolutionCount(fs, b, 1);
      var all := Range(b.lower.value, b.upper.value);
      RangeSize(b.lower.value, b.upper.value);
      DifferenceSize(all, Excluded(fs));
    }
  }

  lemma EqualityIsOneSolution(fs: seq<Filter>, b: Bounds)
    requires BoundsOf(fs, b) && NoNe(fs)
    ensures Coincide(b) <==> HasSolutions(fs, 1)
  {
    hide Read, HasSolutions;
    EqualityExactly(fs, b);
    assert Excluded(fs) == {};
    assert b.lower.Some? && b.upper.Some? ==> Range(b.lower.value, b.upper.value) * Excluded(fs) == {};
  }

  // ------------------------------------------------------------------ topic window

  /** The argument of a search: nothing, one filter, or an array of filters. */
  datatype Argument = Absent | One(filter: Filter) | Many(filters: seq<Filter>)

  function FiltersOf(timestamp: Argument): seq<Filter> {
    match timestamp
    case Absent => []
    case One(f) => [f]
    case Many(fs) => fs
  }

  /** `maxWindowSec` is `None` when the number given is not a safe integer. */
  method EnforceTopicTimestampWindow(timestamp: Argument, hasTopic: bool, maxWindowSec: Option<int>)
    returns (r: Result<(), Error>)
    ensures !hasTopic ==> r.Ok?
    ensures hasTopic && FiltersOf(timestamp) == [] ==> r == Err(Required)
    ensures hasTopic && FiltersOf(timestamp) != [] && !AllValid(FiltersOf(timestamp)) ==> r == Err(InvalidFilter)
    ensures hasTopic && FiltersOf(timestamp) != [] && AllValid(FiltersOf(timestamp)) ==>
              exists b :: BoundsOf(FiltersOf(timestamp), b) && r == WindowVerdict(b, maxWindowSec) &&
                          CountsRemoved(FiltersOf(timestamp), b, maxWindowSec, r)
    ensures hasTopic && FiltersOf(timestamp) != [] && AllValid(FiltersOf(timestamp)) && NoNe(FiltersOf(timestamp)) ==>
              (r.Ok? <==> maxWindowSec.Some? && exists n: nat :: 1 <= n <= maxWindowSec.value * NANOS &&
                                                                HasSolutions(FiltersOf(timestamp), n))
  {
    hide Read, HasSolutions, CountsRemoved;
    if !hasTopic { return Ok(()); }
    if timestamp.Absent? || (timestamp.Many? && |timestamp.filters| == 0) { return Err(Required); }
    var arr := if timestamp.Many? then timestamp.filters else [timestamp.filter];
    var bounds := GetInclusiveTimestampBounds(arr);
    if bounds.Err? { return Err(bounds.error); }
    var b := bounds.value;
    if NoNe(arr) { WindowIsSolutionCount(arr, b, maxWindowSec); }
    WindowCountsRemoved(arr, b, maxWindowSec);
    if b.lower.None? || b.upper.None? { return Err(Unbounded); }
    var size := b.upper.value - b.lower.value + 1;
    if size <= 0 { return Err(EmptyRange); }
    if maxWindowSec.None? || maxWindowSec.value < 0 { return Err(InvalidMaximum); }
    if size > maxWindowSec.value * NANOS { return Err(TooLarge); }
    return Ok(());
  }

  /** The verdict on a pair of bounds, the failures in the order they are reported. */
  function WindowVerdict(b: Bounds, maxWindowSec: Option<int>): Result<(), Error> {
    if b.lower.None? || b.upper.None? then Err(Unbounded)
    else if b.upper.value < b.lower.value then Err(EmptyRange)
    else if maxWindowSec.None? || maxWindowSec.value < 0 then Err(InvalidMaximum)
    else if b.upper.value - b.lower.value >= maxWindowSec.value * NANOS then Err(TooLarge)
    else Ok(())
  }

  /**
   The window is accepted exactly when the solutions, counted together with the instants
   that `ne` filters take out of the range, are at least one and not too many.
  */
  ghost predicate CountsRemoved(fs: seq<Filter>, b: Bounds, maxWindowSec: Option<int>, verdict: Result<(), Error>)
    requires AllValid(fs)
  {
    forall n: nat :: HasSolutions(fs, n) ==>
      && b.lower.Some? && b.upper.Some?
      && (verdict.Ok? <==>
            maxWindowSec.Some? && 1 <= n + Removed(fs, b.lower.value, b.upper.value) <= maxWindowSec.value * NANOS)
  }

  lemma WindowCountsRemoved(fs: seq<Filter>, b: Bounds, maxWindowSec: Option<int>)
    requires BoundsOf(fs, b)
    ensures CountsRemoved(fs, b, maxWindowSec, WindowVerdict(b, maxWindowSec))
  {
    hide IsGreatestLower, IsLeastUpper, HasSolutions, Solves, AllValid, Removed;
    forall n: nat | HasSolutions(fs, n)
      ensures b.lower.Some? && b.upper.Some?
      ensures WindowVerdict(b, maxWindowSec).Ok? <==>
              maxWindowSec.Some? && 1 <= n + Removed(fs, b.lower.value, b.upper.value) <= maxWindowSec.value * NANOS
    {
      if b.lower.None? || b.upper.None? { MissingBoundIsInfinite(fs, b, n); } else { SolutionCount(fs, b, n); }
    }
  }

  /**
   With `ne` the verdict is the one the solutions call for exactly when the filters remove
   less than the whole range, if it fits, and else leave nothing or still too much.
  */
  lemma WindowAgreesIff(fs: seq<Filter>, b: Bounds, maxSec: nat, n: nat)
    requires BoundsOf(fs, b) && HasSolutions(fs, n)
    ensures b.lower.Some? && b.upper.Some?
    ensures var lo, hi := b.lower.value, b.upper.value;
            var size, removed := hi - lo + 1, Removed(fs, lo, hi);
            (WindowVerdict(b, Some(maxSec)).Ok? <==> 1 <= n <= maxSec * NANOS) <==>
            (size <= 0 || if size <= maxSec * NANOS then removed < size
                          else removed == size || removed < size - maxSec * NANOS)
  {
    hide IsGreatestLower, IsLeastUpper, HasSolutions, Solves, AllValid, Removed;
    if b.lower.None? || b.upper.None? {
      MissingBoundIsInfinite(fs, b, n);
    } else {
      SolutionCount(fs, b, n);
    }
  }

  /** Without `ne` the verdict is a verdict on the number of solutions. */
  lemma WindowIsSolutionCount(fs: seq<Filter>, b: Bounds, maxWindowSec: Option<int>)
    requires BoundsOf(fs, b) && NoNe(fs)
    ensures WindowVerdict(b, maxWindowSec).Ok? <==>
            maxWindowSec.Some? && exists n: nat :: 1 <= n <= maxWindowSec.value * NANOS && HasSolutions(fs, n)
  {
    hide Read, HasSolutions;
    assert Excluded(fs) == {};
    if b.lower.None? || b.upper.None? {
      forall n: nat ensures !HasSolutions(fs, n) { MissingBoundIsInfinite(fs, b, n); }
    } else {
      var lo, hi := b.lower.value, b.upper.value;
      assert Range(lo, hi) * Excluded(fs) == {};
      forall n: nat ensures HasSolutions(fs, n) <==> n == if lo <= hi then hi - lo + 1 else 0 {
        SolutionCount(fs, b, n);
      }
      assert lo <= hi ==> HasSolutions(fs, hi - lo + 1);
    }
  }

  /** The documented rule: the ends of the range lie at most the maximum apart. */
  predicate SpansAtMost(lo: int, hi: int, maxSec: nat) { hi - lo <= maxSec * NANOS }

  /** The code meets the documented rule on a range exactly when its ends are not just the maximum apart. */
  lemma DocumentedWindowIff(lo: int, hi: int, maxSec: nat)
    requires lo <= hi
    ensures (WindowVerdict(Bounds(Some(lo), Some(hi)), Some(maxSec)).Ok? <==> SpansAtMost(lo, hi, maxSec)) <==>
            hi - lo != maxSec * NANOS
  {
  }

  lemma BoundsOfPair(fs: seq<Filter>, lo: int, hi: int)
    requires |fs| == 2 && Read(fs[0]) == Some(Test(Gte, lo)) && Read(fs[1]) == Some(Test(Lte, hi))
    ensures BoundsOf(fs, Bounds(Some(lo), Some(hi)))
  {
    hide Read;
    assert LowerOf(fs[0]) == Some(lo) && UpperOf(fs[1]) == Some(hi);
  }

  lemma BoundsOfOne(fs: seq<Filter>, at: int)
    requires |fs| == 1 && Read(fs[0]) == Some(Test(Eq, at))
    ensures BoundsOf(fs, Bounds(Some(at), Some(at)))
  {
    hide Read;
    assert LowerOf(fs[0]) == UpperOf(fs[0]) == Some(at);
  }

  /** One instant spans nothing, yet a maximum of zero refuses it. */
  lemma InstantExceedsZero(seconds: int)
    requires 0 <= seconds <= MAX_SECONDS
    ensures var at := seconds * NANOS;
            && BoundsOf([Number(Some(seconds))], Bounds(Some(at), Some(at)))
            && SpansAtMost(at, at, 0) && WindowVerdict(Bounds(Some(at), Some(at)), Some(0)) == Err(TooLarge)
  {
    hide Read, BoundsOf;
    NumberIsSeconds(seconds);
    BoundsOfOne([Number(Some(seconds))], seconds * NANOS);
  }

  /** A range just the maximum long is refused, wherever it starts and whatever the maximum. */
  lemma FullWindowIsRefused(from: nat, maxSec: nat)
    requires from + maxSec <= MAX_SECONDS
    ensures var fs := [Text("gte:" + Decimal(from)), Text("lte:" + Decimal(from + maxSec))];
            var lo, hi := from * NANOS, (from + maxSec) * NANOS;
            && BoundsOf(fs, Bounds(Some(lo), Some(hi)))
            && SpansAtMost(lo, hi, maxSec) && WindowVerdict(Bounds(Some(lo), Some(hi)), Some(maxSec)) == Err(TooLarge)
  {
    hide Read, BoundsOf, Decimal;
    var fs := [Text("gte:" + Decimal(from)), Text("lte:" + Decimal(from + maxSec))];
    assert NameOf(Gte) + ":" == "gte:" && NameOf(Lte) + ":" == "lte:";
    ReadsPrefixed(Gte, from);
    ReadsPrefixed(Lte, from + maxSec);
    BoundsOfPair(fs, from * NANOS, (from + maxSec) * NANOS);
  }

  /** A week from end to end, under the default maximum of a week. */
  lemma FullWeekExample()
    ensures var fs, week := [Text("gte:0"), Text("lte:604800")], 7 * 24 * 3600;
            && BoundsOf(fs, Bounds(Some(0), Some(week * NANOS)))
            && SpansAtMost(0, week * NANOS, week)
            && WindowVerdict(Bounds(Some(0), Some(week * NANOS)), Some(week)) == Err(TooLarge)
  {
    hide Read, BoundsOf, Decimal;
    DecimalWeek();
    FullWindowIsRefused(0, 604800);
    assert "gte:" + "0" == "gte:0" && "lte:" + "604800" == "lte:604800";
  }

  lemma DecimalWeek()
    ensures Decimal(0) == "0" && Decimal(604800) == "604800"
  {
    assert Decimal(604) == "604";
    assert Decimal(60480) == Decimal(6048) + "0";
  }

  // ------------------------------------------------------------ reading timestamps

  lemma {:induction false} PadScales(fraction: string)
    requires AllDigits(fraction) && |fraction| <= 9
    ensures NatOf(PadEnd(fraction)) == NatOf(fraction) * Pow10(9 - |fraction|)
    decreases 9 - |fraction|
  {
    if |fraction| < 9 {
      var longer := fraction + "0";
      PadScales(longer);
      assert longer[..|fraction|] == fraction;
      assert NatOf(longer) == NatOf(fraction) * 10;
      Regroup(NatOf(fraction), Pow10(8 - |fraction|));
    }
  }

  lemma Regroup(a: nat, p: nat)
    ensures (a * 10) * p == a * (10 * p)
  {
  }

  /** A number is read as that many seconds, and every number in range is accepted. */
  lemma NumberIsSeconds(n: int)
    requires 0 <= n <= MAX_SECONDS
    ensures Read(Number(Some(n))) == Some(Test(Eq, n * NANOS))
  {
    hide Decimal, TimestampShape, Nanoseconds, Pow10;
    TenDigits(n);
    WholeSeconds(Decimal(n));
  }

  lemma TenDigits(n: nat)
    requires n <= MAX_SECONDS
    ensures |Decimal(n)| <= 10
  {
    hide Decimal;
    assert Pow10(10) == 10_000_000_000;
    DecimalLength(n, 10);
  }

  lemma WholeSeconds(s: string)
    requires AllDigits(s) && 1 <= |s| <= 10
    ensures TimestampShape(s) && Nanoseconds(s) == NatOf(s) * NANOS
  {
    hide NatOf, PadEnd;
    SplitNone(s, '.');
    NoFraction();
  }

  lemma NoFraction()
    ensures NatOf(PadEnd("")) == 0
  {
    PadScales("");
  }

  /** A filter with an operator and a whole number of seconds reads as both. */
  lemma ReadsPrefixed(operator: Operator, seconds: nat)
    requires seconds <= MAX_SECONDS
    ensures Read(Text(NameOf(operator) + ":" + Decimal(seconds))) == Some(Test(operator, seconds * NANOS))
  {
    var s := Decimal(seconds);
    ParsesPrefixed(operator, s, ALL);
    TenDigits(seconds);
    WholeSeconds(s);
    hide Decimal, TimestampShape, Nanoseconds, ParseComparatorValue, NameOf;
  }

  /**
   With `ne` the bounds can coincide although nothing satisfies the filters: this holds
   for an equality and an inequality on any instant.
  */
  lemma NeDefeatsEquality(value: string)
    requires ValidTimestamp(value)
    ensures var fs := [Text("eq:" + value), Text("ne:" + value)];
            AllValid(fs) && HasSolutions(fs, 0) && forall b :: BoundsOf(fs, b) ==> Coincide(b)
  {
    assert value != [];
    var fs := [Text("eq:" + value), Text("ne:" + value)];
    ParsesPrefixed(Eq, value, ALL);
    ParsesPrefixed(Ne, value, ALL);
    assert NameOf(Eq) + ":" == "eq:" && NameOf(Ne) + ":" == "ne:";
    hide Nanoseconds, TimestampShape, ParseComparatorValue, HasSolutions, Coincide;
    EqualAndUnequal(fs, Nanoseconds(value));
  }

  lemma EqualAndUnequal(fs: seq<Filter>, at: int)
    requires |fs| == 2 && Read(fs[0]) == Some(Test(Eq, at)) && Read(fs[1]) == Some(Test(Ne, at))
    ensures AllValid(fs) && HasSolutions(fs, 0) && forall b :: BoundsOf(fs, b) ==> Coincide(b)
  {
    hide Read;
    assert forall ns :: !(Satisfies(fs[0], ns) && Satisfies(fs[1], ns));
    assert SolutionSet(fs, {});
  }
}

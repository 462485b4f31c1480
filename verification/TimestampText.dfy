/** What timestamp filters mean as text: which are accepted, the nanosecond they name, and what they let through. */
module TimestampText {
  import opened Comparators
  import opened Text
  import opened TimestampBounds
  import opened Wrappers

  /** Seconds, and a fraction that may be missing. */
  datatype Written = Written(seconds: string, fraction: Option<string>)

  /** One to ten digits of seconds and one to nine of fraction. */
  predicate IsWritten(w: Written) {
    AllDigits(w.seconds) && 1 <= |w.seconds| <= 10 &&
    (w.fraction.Some? ==> AllDigits(w.fraction.value) && 1 <= |w.fraction.value| <= 9)
  }

  function TextOf(w: Written): string { if w.fraction.None? then w.seconds else w.seconds + "." + w.fraction.value }

  /** The nanosecond: the fraction's last digit stands nine places behind the seconds at most. */
  function InstantOf(w: Written): nat
    requires IsWritten(w)
  {
    NatOf(w.seconds) * 1_000_000_000 +
    if w.fraction.None? then 0 else NatOf(w.fraction.value) * Pow10(9 - |w.fraction.value|)
  }

  predicate InRange(w: Written) { IsWritten(w) && InstantOf(w) <= 9_223_372_036_854_775_807 }

  lemma NanosecondsAre(w: Written)
    requires IsWritten(w)
    ensures TimestampShape(TextOf(w)) && Nanoseconds(TextOf(w)) == InstantOf(w)
  {
    hide NatOf, PadEnd, Pow10;
    NoSeparator(w.seconds, '.');
    if w.fraction.None? {
      SplitNone(w.seconds, '.');
      NoFraction();
    } else {
      var f := w.fraction.value;
      NoSeparator(f, '.');
      SplitFirst(w.seconds, f, '.');
      SplitNone(f, '.');
      PadScales(f);
    }
  }

  /** Only texts of that form have the shape. */
  lemma ShapeIsWritten(s: string) returns (w: Written)
    requires TimestampShape(s)
    ensures IsWritten(w) && s == TextOf(w)
  {
    var parts := Split(s, '.');
    SplitIsJoin(s, '.');
    if |parts| == 1 {
      w := Written(parts[0], None);
    } else {
      w := Written(parts[0], Some(parts[1]));
      assert Join(parts[1..], '.') == parts[1];
    }
  }

  lemma ValidExactly(w: Written)
    requires IsWritten(w)
    ensures ValidTimestamp(TextOf(w)) <==> InRange(w)
  {
    NanosecondsAre(w);
  }

  /** A filter with an operator names that operator and exactly the instant written after it. */
  lemma ReadsWritten(operator: Operator, w: Written)
    requires IsWritten(w)
    ensures Read(Text(NameOf(operator) + ":" + TextOf(w))) == if InRange(w) then Some(Test(operator, InstantOf(w))) else None
  {
    hide NameOf, InstantOf, TimestampShape, Nanoseconds;
    NanosecondsAre(w);
    ParsesPrefixed(operator, TextOf(w), ALL);
  }

  /** Without an operator it is an equality. */
  lemma ReadsBare(w: Written)
    requires IsWritten(w)
    ensures Read(Text(TextOf(w))) == if InRange(w) then Some(Test(Eq, InstantOf(w))) else None
  {
    NanosecondsAre(w);
    NoColon(w);
    ParsesBare(TextOf(w), ALL);
    hide InstantOf, TimestampShape, Nanoseconds, ParseComparatorValue;
  }

  lemma NoColon(w: Written)
    requires IsWritten(w)
    ensures ':' !in TextOf(w)
  {
  }

  /** Every accepted text is one of the two forms, and every accepted number one of whole seconds in range. */
  lemma ReadsNothingElse(f: Filter)
    requires Valid(f)
    ensures match f
            case Number(n) => n.Some? && 0 <= n.value <= 9_223_372_036
            case Text(s) =>
              (exists w :: InRange(w) && s == TextOf(w)) ||
              (exists operator, w :: InRange(w) && s == NameOf(operator) + ":" + TextOf(w))
  {
    if f.Text? {
      var p := ParseComparatorValue(f.text, ALL).value;
      ParsedText(f.text, ALL);
      var w := ShapeIsWritten(p.value);
      ValidExactly(w);
      hide Read, TimestampShape, Nanoseconds, InstantOf, ParseComparatorValue, NameOf;
      assert InRange(w);
    }
  }

  /** The bounds that one filter gives alone. */
  function BoundsFor(operator: Operator, at: int): Bounds {
    match operator
    case Eq => Bounds(Some(at), Some(at))
    case Ne => Bounds(None, None)
    case Gt => Bounds(Some(at + 1), None)
    case Gte => Bounds(Some(at), None)
    case Lt => Bounds(None, Some(at - 1))
    case Lte => Bounds(None, Some(at))
  }

  predicate Compares(ns: int, operator: Operator, at: int) {
    match operator
    case Eq => ns == at
    case Ne => ns != at
    case Gt => ns > at
    case Gte => ns >= at
    case Lt => ns < at
    case Lte => ns <= at
  }

  /** What a written filter lets through, and the bounds it alone gives. */
  lemma FilterMeans(operator: Operator, w: Written, ns: int)
    requires InRange(w)
    ensures var fs, at := [Text(NameOf(operator) + ":" + TextOf(w))], InstantOf(w);
            AllValid(fs) && (Solves(fs, ns) <==> Compares(ns, operator, at)) && BoundsOf(fs, BoundsFor(operator, at))
  {
    ReadsWritten(operator, w);
    hide Read, NameOf, TextOf, InstantOf, Solves, BoundsOf, AllValid, Compares, BoundsFor;
    OneFilter([Text(NameOf(operator) + ":" + TextOf(w))], Test(operator, InstantOf(w)), ns);
  }

  lemma OneFilter(fs: seq<Filter>, t: Test, ns: int)
    requires |fs| == 1 && Read(fs[0]) == Some(t)
    ensures AllValid(fs) && (Solves(fs, ns) <==> Compares(ns, t.operator, t.at)) && BoundsOf(fs, BoundsFor(t.operator, t.at))
  {
    hide Read;
    var f := fs[0];
    assert Bounds(LowerOf(f), UpperOf(f)) == BoundsFor(t.operator, t.at);
    hide LowerOf, UpperOf, BoundsFor;
    assert IsGreatestLower(fs, LowerOf(f)) && IsLeastUpper(fs, UpperOf(f));
  }

  /** So written timestamps compare as the instants they name. */
  lemma ComparesAsInstants(v: Written, w: Written)
    requires InRange(v) && InRange(w)
    ensures AllValid([Text("lt:" + TextOf(w))])
    ensures Solves([Text("lt:" + TextOf(w))], InstantOf(v)) <==> InstantOf(v) < InstantOf(w)
  {
    hide Solves, AllValid, BoundsOf, TextOf, InstantOf;
    assert NameOf(Lt) + ":" == "lt:";
    FilterMeans(Lt, w, InstantOf(v));
  }
}

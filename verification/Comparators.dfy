/** Comparator-prefixed filter values: parseComparatorValue and opOf (src/core/utils.ts). */
module Comparators {
  import opened Wrappers

  datatype Operator = Eq | Ne | Gt | Gte | Lt | Lte

  datatype Parsed = Parsed(operator: Option<Operator>, value: string)

  datatype ComparatorError = Empty | Malformed | Unsupported

  const ALL: set<Operator> := {Eq, Ne, Gt, Gte, Lt, Lte}
  const NO_NE: set<Operator> := {Eq, Gt, Gte, Lt, Lte}

  function NameOf(operator: Operator): string {
    match operator
    case Eq => "eq"
    case Ne => "ne"
    case Gt => "gt"
    case Gte => "gte"
    case Lt => "lt"
    case Lte => "lte"
  }

  function OperatorOf(name: string): (operator: Option<Operator>)
    ensures operator.Some? ==> NameOf(operator.value) == name
    ensures forall o: Operator :: NameOf(o) == name ==> operator == Some(o)
  {
    if name == "eq" then Some(Eq) else if name == "ne" then Some(Ne) else if name == "gt" then Some(Gt)
    else if name == "gte" then Some(Gte) else if name == "lt" then Some(Lt) else if name == "lte" then Some(Lte)
    else None
  }

  /** The position of the first `c` in `s`, or the length of `s`. */
  function FirstOf(s: string, c: char): (i: nat)
    ensures i <= |s| && c !in s[..i] && (i < |s| ==> s[i] == c)
  {
    if s == [] || s[0] == c then 0
    else
      var i := 1 + FirstOf(s[1..], c);
      assert s[..i] == [s[0]] + s[1..][..i - 1];
      i
  }

  function ParseComparatorValue(input: string, allowed: set<Operator>): Result<Parsed, ComparatorError> {
    if input == [] then Err(Empty)
    else
      var separator := FirstOf(input, ':');
      if separator == |input| then Ok(Parsed(None, input))
      else
        var operator, value := OperatorOf(input[..separator]), input[separator + 1..];
        if operator.None? || value == [] then Err(Malformed)
        else if operator.value !in allowed then Err(Unsupported)
        else Ok(Parsed(operator, value))
  }

  /** A parsed filter with no operator is an equality. */
  function EffectiveOperator(parsed: Parsed): Operator {
    if parsed.operator.Some? then parsed.operator.value else Eq
  }

  lemma {:induction false} FirstOfIs(p: string, rest: string, c: char)
    requires c !in p
    ensures FirstOf(p + [c] + rest, c) == |p|
  {
    var s := p + [c] + rest;
    if p != [] {
      FirstOfIs(p[1..], rest, c);
      assert s[1..] == p[1..] + [c] + rest;
    }
  }

  /** Writing an operator in front of a value is undone by parsing. */
  lemma ParsesPrefixed(operator: Operator, value: string, allowed: set<Operator>)
    requires value != [] && operator in allowed
    ensures ParseComparatorValue(NameOf(operator) + ":" + value, allowed) == Ok(Parsed(Some(operator), value))
  {
    var name := NameOf(operator);
    var input := name + ":" + value;
    FirstOfIs(name, value, ':');
    assert input[..|name|] == name && input[|name| + 1..] == value;
  }

  lemma {:induction false} FirstOfNone(s: string, c: char)
    requires c !in s
    ensures FirstOf(s, c) == |s|
  {
    if s != [] { FirstOfNone(s[1..], c); }
  }

  /** Text without a colon is a bare value. */
  lemma ParsesBare(value: string, allowed: set<Operator>)
    requires value != [] && ':' !in value
    ensures ParseComparatorValue(value, allowed) == Ok(Parsed(None, value))
  {
    FirstOfNone(value, ':');
  }

  /** Whatever parses is a bare value without a colon, or a permitted operator written in front of a value. */
  lemma ParsedText(input: string, allowed: set<Operator>)
    requires ParseComparatorValue(input, allowed).Ok?
    ensures var p := ParseComparatorValue(input, allowed).value;
            p.value != [] &&
            if p.operator.None? then input == p.value && ':' !in input
            else p.operator.value in allowed && input == NameOf(p.operator.value) + ":" + p.value
  {
    var i := FirstOf(input, ':');
    if i == |input| {
      assert input[..i] == input;
    } else {
      assert input == input[..i] + ":" + input[i + 1..];
    }
  }

  /** The six operators as they are written. */
  lemma OperatorNames(value: string)
    requires value != []
    ensures ParseComparatorValue("eq:" + value, ALL) == Ok(Parsed(Some(Eq), value))
    ensures ParseComparatorValue("ne:" + value, ALL) == Ok(Parsed(Some(Ne), value))
    ensures ParseComparatorValue("gt:" + value, ALL) == Ok(Parsed(Some(Gt), value))
    ensures ParseComparatorValue("gte:" + value, ALL) == Ok(Parsed(Some(Gte), value))
    ensures ParseComparatorValue("lt:" + value, ALL) == Ok(Parsed(Some(Lt), value))
    ensures ParseComparatorValue("lte:" + value, ALL) == Ok(Parsed(Some(Lte), value))
  {
    hide ParseComparatorValue;
    ParsesPrefixed(Eq, value, ALL);
    ParsesPrefixed(Ne, value, ALL);
    ParsesPrefixed(Gt, value, ALL);
    ParsesPrefixed(Gte, value, ALL);
    ParsesPrefixed(Lt, value, ALL);
    ParsesPrefixed(Lte, value, ALL);
    assert NameOf(Eq) + ":" == "eq:" && NameOf(Ne) + ":" == "ne:" && NameOf(Gt) + ":" == "gt:";
    assert NameOf(Gte) + ":" == "gte:" && NameOf(Lt) + ":" == "lt:" && NameOf(Lte) + ":" == "lte:";
  }
}

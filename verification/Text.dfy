/** The few string operations the validators are written in. */
module Text {

  predicate IsDigit(c: char) { '0' <= c <= '9' }

  predicate AllDigits(s: string) { forall i :: 0 <= i < |s| ==> IsDigit(s[i]) }

  /** The number a run of decimal digits denotes. */
  function NatOf(ds: string): nat
    requires AllDigits(ds)
  {
    if ds == [] then 0 else NatOf(ds[..|ds| - 1]) * 10 + (ds[|ds| - 1] as int - '0' as int)
  }

  /** The decimal digits of a number, without leading zeros. */
  function Decimal(n: nat): (ds: string)
    ensures ds != [] && AllDigits(ds) && NatOf(ds) == n
  {
    var digit := [('0' as int + n % 10) as char];
    if n < 10 then
      assert digit[..0] == [];
      digit
    else
      var head := Decimal(n / 10);
      assert (head + digit)[..|head|] == head;
      head + digit
  }

  /** String.split with a one-character separator. */
  function Split(s: string, c: char): (parts: seq<string>)
    ensures parts != []
  {
    if s == [] then [""]
    else
      var rest := Split(s[1..], c);
      if s[0] == c then [""] + rest else [[s[0]] + rest[0]] + rest[1..]
  }

  function Join(parts: seq<string>, c: char): string
    requires parts != []
  {
    if |parts| == 1 then parts[0] else parts[0] + [c] + Join(parts[1..], c)
  }

  /** Splitting loses nothing and leaves no separator in any part. */
  lemma {:induction false} SplitIsJoin(s: string, c: char)
    ensures Join(Split(s, c), c) == s && forall i :: 0 <= i < |Split(s, c)| ==> c !in Split(s, c)[i]
  {
    if s != [] {
      SplitIsJoin(s[1..], c);
      var parts, rest := Split(s, c), Split(s[1..], c);
      assert s == [s[0]] + s[1..];
      if s[0] == c {
        assert parts[1..] == rest;
      } else {
        assert parts[1..] == rest[1..];
      }
    }
  }

  function Pow10(k: nat): (p: nat)
    ensures p > 0
  {
    if k == 0 then 1 else 10 * Pow10(k - 1)
  }

  lemma {:induction false} Pow10Monotone(j: nat, k: nat)
    requires j <= k
    ensures Pow10(j) <= Pow10(k)
    decreases k
  {
    if j < k { Pow10Monotone(j, k - 1); }
  }

  lemma {:induction false} NatBelowPower(ds: string)
    requires AllDigits(ds)
    ensures NatOf(ds) < Pow10(|ds|)
  {
    if ds != [] { NatBelowPower(ds[..|ds| - 1]); }
  }

  lemma {:induction false} NatWithoutLeadingZero(ds: string)
    requires AllDigits(ds) && ds != [] && ds[0] != '0'
    ensures NatOf(ds) >= Pow10(|ds| - 1)
  {
    if |ds| > 1 { NatWithoutLeadingZero(ds[..|ds| - 1]); }
  }

  lemma {:induction false} NatOfLeadingZero(ds: string)
    requires AllDigits(ds) && ds != [] && ds[0] == '0'
    ensures NatOf(ds) == NatOf(ds[1..])
  {
    if |ds| > 1 {
      var init := ds[..|ds| - 1];
      NatOfLeadingZero(init);
      assert ds[1..][..|ds| - 2] == init[1..];
    } else {
      assert ds[..0] == [] && ds[1..] == [];
    }
  }

  lemma {:induction false} SplitNone(s: string, c: char)
    requires c !in s
    ensures Split(s, c) == [s]
  {
    if s != [] {
      SplitNone(s[1..], c);
      assert s == [s[0]] + s[1..];
    }
  }

  lemma {:induction false} DecimalLength(n: nat, k: nat)
    requires n < Pow10(k) && k > 0
    ensures |Decimal(n)| <= k
  {
    if n >= 10 { DecimalLength(n / 10, k - 1); }
  }

  lemma {:induction false} SplitFirst(a: string, rest: string, c: char)
    requires c !in a
    ensures Split(a + [c] + rest, c) == [a] + Split(rest, c)
  {
    var s := a + [c] + rest;
    if a == [] {
      assert s == [c] + rest && s[1..] == rest;
    } else {
      SplitFirst(a[1..], rest, c);
      assert s[1..] == a[1..] + [c] + rest;
      assert [a[0]] + a[1..] == a;
    }
  }

  /** Digits are positional: those in front count for a power of ten more. */
  lemma {:induction false} NatOfConcat(a: string, b: string)
    requires AllDigits(a) && AllDigits(b)
    ensures AllDigits(a + b) && NatOf(a + b) == NatOf(a) * Pow10(|b|) + NatOf(b)
    decreases |b|
  {
    if b == [] {
      assert a + b == a;
    } else {
      var init := b[..|b| - 1];
      NatOfConcat(a, init);
      assert (a + b)[..|a + b| - 1] == a + init;
      TenTimes(NatOf(a), Pow10(|init|));
    }
  }

  lemma TenTimes(n: nat, p: nat)
    ensures n * (10 * p) == (n * p) * 10
  {
  }

  lemma NoSeparator(digits: string, c: char)
    requires AllDigits(digits) && !IsDigit(c)
    ensures c !in digits
  {
  }

  lemma OneDigit(c: char)
    requires IsDigit(c)
    ensures AllDigits([c]) && NatOf([c]) == c as int - 48
  {
    assert [c][..0] == [];
  }
}

/**
 Account aliases: unpadded base32 (sections 3.5 and 6 of RFC 4648) as accepted by
 isCanonicalAccountAlias (src/core/utils.ts). Encoding and decoding are not in the
 repository; they are defined here to say what the validator accepts.
*/
module AccountAlias {
  import opened Bits

  type Byte = b: int | 0 <= b < 256
  type Symbol = v: int | 0 <= v < 32

  // ---------------------------------------------------------------- the validator

  predicate InAlphabet(c: char) { 'A' <= c <= 'Z' || '2' <= c <= '7' }

  predicate AllInAlphabet(s: string) { forall i :: 0 <= i < |s| ==> InAlphabet(s[i]) }

  /** The regular expression: any number of groups of eight, then a group of 2, 4, 5, 7 or 8. */
  predicate AliasShape(s: string)
    decreases |s|
  {
    if |s| > 8 then AllInAlphabet(s[..8]) && AliasShape(s[8..])
    else |s| in {2, 4, 5, 7, 8} && AllInAlphabet(s)
  }

  function SymbolOf(c: char): (v: Symbol)
    requires InAlphabet(c)
  {
    if 'A' <= c <= 'Z' then c as int - 'A' as int else c as int - '2' as int + 26
  }

  predicate IsCanonicalAccountAlias(value: string) {
    if !AliasShape(value) then false
    else
      var remainder := |value| % 8;
      var paddingMask: nat :=
        if remainder == 2 then 0x3 else if remainder == 4 then 0xF else if remainder == 5 then 0x1
        else if remainder == 7 then 0x7 else 0;
      paddingMask == 0 ||
      (ShapeInAlphabet(value); And(SymbolOf(value[|value| - 1]), paddingMask) == 0)
  }

  lemma ShapeInAlphabet(s: string)
    requires AliasShape(s)
    ensures |s| > 0 && AllInAlphabet(s)
  {
  }

  // ------------------------------------------------------- base32 by the standard

  /** Big-endian digits of `n`, `m` of them. */
  function Digits(n: nat, base: nat, m: nat): (ds: seq<int>)
    requires base == 32 || base == 256
    ensures |ds| == m && forall i :: 0 <= i < m ==> 0 <= ds[i] < base
  {
    if m == 0 then [] else Digits(n / base, base, m - 1) + [n % base]
  }

  function Value(ds: seq<int>, base: nat): (n: nat)
    requires base == 32 || base == 256
    requires forall i :: 0 <= i < |ds| ==> 0 <= ds[i] < base
  {
    if ds == [] then 0 else Value(ds[..|ds| - 1], base) * base + ds[|ds| - 1]
  }

  function Power(base: nat, m: nat): nat { if m == 0 then 1 else base * Power(base, m - 1) }

  /** Symbols needed for `k` bytes. */
  function SymbolsFor(k: nat): nat
    requires 1 <= k <= 5
  {
    if k == 1 then 2 else if k == 2 then 4 else if k == 3 then 5 else if k == 4 then 7 else 8
  }

  /** Two to the number of zero bits that pad `k` bytes. */
  function PadFactor(k: nat): (f: nat)
    requires 1 <= k <= 5
    ensures f > 0
  {
    if k == 1 then 4 else if k == 2 then 16 else if k == 3 then 2 else if k == 4 then 8 else 1
  }

  function BytesIn(m: nat): nat
    requires m in {2, 4, 5, 7, 8}
  {
    if m == 2 then 1 else if m == 4 then 2 else if m == 5 then 3 else if m == 7 then 4 else 5
  }

  function CharOf(v: Symbol): (c: char)
    ensures InAlphabet(c) && SymbolOf(c) == v
  {
    if v < 26 then 'A' + v as char else '2' + (v - 26) as char
  }

  function Chars(vs: seq<int>): (s: string)
    requires forall i :: 0 <= i < |vs| ==> 0 <= vs[i] < 32
    ensures |s| == |vs| && AllInAlphabet(s)
  {
    seq(|vs|, i requires 0 <= i < |vs| => CharOf(vs[i]))
  }

  function Symbols(s: string): (vs: seq<int>)
    requires AllInAlphabet(s)
    ensures |vs| == |s| && forall i :: 0 <= i < |vs| ==> 0 <= vs[i] < 32
  {
    seq(|s|, i requires 0 <= i < |s| => SymbolOf(s[i]))
  }

  /** One group of up to five bytes: its bits, zero-padded on the right, five to a symbol. */
  function EncodeGroup(bytes: seq<Byte>): string
    requires 1 <= |bytes| <= 5
  {
    Chars(Digits(Value(bytes, 256) * PadFactor(|bytes|), 32, SymbolsFor(|bytes|)))
  }

  function DecodeGroup(s: string): (bytes: seq<Byte>)
    requires |s| in {2, 4, 5, 7, 8} && AllInAlphabet(s)
    ensures |bytes| == BytesIn(|s|)
  {
    var k := BytesIn(|s|);
    Digits(Value(Symbols(s), 32) / PadFactor(k), 256, k)
  }

  function Encode(bytes: seq<Byte>): string
    requires bytes != []
  {
    if |bytes| <= 5 then EncodeGroup(bytes) else EncodeGroup(bytes[..5]) + Encode(bytes[5..])
  }

  function Decode(s: string): (bytes: seq<Byte>)
    requires AliasShape(s)
    ensures bytes != []
    decreases |s|
  {
    if |s| <= 8 then DecodeGroup(s) else DecodeGroup(s[..8]) + Decode(s[8..])
  }

  // --------------------------------------------------------------- digits and values

  lemma {:induction false} ValueBounded(ds: seq<int>, base: nat)
    requires base == 32 || base == 256
    requires forall i :: 0 <= i < |ds| ==> 0 <= ds[i] < base
    ensures Value(ds, base) < Power(base, |ds|)
    decreases |ds|
  {
    if ds != [] {
      ValueBounded(ds[..|ds| - 1], base);
      var v, p := Value(ds[..|ds| - 1], base), Power(base, |ds| - 1);
      if base == 32 { assert v * 32 + 31 < 32 * p; } else { assert v * 256 + 255 < 256 * p; }
    }
  }

  lemma {:induction false} ValueOfDigits(n: nat, base: nat, m: nat)
    requires (base == 32 || base == 256) && n < Power(base, m)
    ensures Value(Digits(n, base, m), base) == n
    decreases m
  {
    if m > 0 {
      var p := Power(base, m - 1);
      if base == 32 { assert n < 32 * p; assert n / 32 < p; } else { assert n < 256 * p; assert n / 256 < p; }
      ValueOfDigits(n / base, base, m - 1);
      var ds := Digits(n, base, m);
      assert ds[..m - 1] == Digits(n / base, base, m - 1);
      if base == 32 { assert n == n / 32 * 32 + n % 32; } else { assert n == n / 256 * 256 + n % 256; }
    }
  }

  lemma {:induction false} DigitsOfValue(ds: seq<int>, base: nat)
    requires base == 32 || base == 256
    requires forall i :: 0 <= i < |ds| ==> 0 <= ds[i] < base
    ensures Digits(Value(ds, base), base, |ds|) == ds
    decreases |ds|
  {
    if ds != [] {
      var init, last := ds[..|ds| - 1], ds[|ds| - 1];
      var v, n := Value(init, base), Value(ds, base);
      DigitsOfValue(init, base);
      if base == 32 { assert n / 32 == v && n % 32 == last; } else { assert n / 256 == v && n % 256 == last; }
      assert ds == init + [last];
    }
  }

  lemma Powers(k: nat)
    requires 1 <= k <= 5
    ensures Power(256, k) * PadFactor(k) == Power(32, SymbolsFor(k))
  {
  }

  // ---------------------------------------------------------------------- one group

  lemma SymbolsOfChars(vs: seq<int>)
    requires forall i :: 0 <= i < |vs| ==> 0 <= vs[i] < 32
    ensures Symbols(Chars(vs)) == vs
  {
  }

  lemma CharsOfSymbols(s: string)
    requires AllInAlphabet(s)
    ensures Chars(Symbols(s)) == s
  {
  }

  /** The pad bits of a group are the low bits of its last symbol. */
  predicate PadIsZero(s: string)
    requires |s| in {2, 4, 5, 7, 8} && AllInAlphabet(s)
  {
    SymbolOf(s[|s| - 1]) % PadFactor(BytesIn(|s|)) == 0
  }

  lemma GroupRoundTrip(bytes: seq<Byte>)
    requires 1 <= |bytes| <= 5
    ensures var s := EncodeGroup(bytes);
            |s| == SymbolsFor(|bytes|) && AllInAlphabet(s) && PadIsZero(s) && DecodeGroup(s) == bytes
  {
    var k := |bytes|;
    var n, f, m := Value(bytes, 256), PadFactor(k), SymbolsFor(k);
    var x := n * f;
    ValueBounded(bytes, 256);
    Powers(k);
    assert x < Power(32, m) by { MulLess(n, Power(256, k), f); }
    ValueOfDigits(x, 32, m);
    var vs := Digits(x, 32, m);
    SymbolsOfChars(vs);
    assert Symbols(Chars(vs))[m - 1] == vs[m - 1] == x % 32;
    ScaledMod(n, f);
    DigitsOfValue(bytes, 256);
  }

  lemma MulLess(a: nat, b: nat, f: nat)
    requires a < b && f > 0
    ensures a * f < b * f
  {
  }

  lemma ScaledMod(n: nat, f: nat)
    requires f in {1, 2, 4, 8, 16}
    ensures (n * f) % 32 % f == 0 && (n * f) / f == n
  {
    hide *;
    ModOfSum(n * f, f, n, 0);
    var q, r := (n * f) / 32, (n * f) % 32;
    var c := n - (if f == 1 then 32 * q else if f == 2 then 16 * q else if f == 4 then 8 * q
                  else if f == 8 then 4 * q else 2 * q);
    assert r == f * c;
    ModOfSum(r, f, c, 0);
  }

  lemma GroupDecodes(s: string)
    requires |s| in {2, 4, 5, 7, 8} && AllInAlphabet(s) && PadIsZero(s)
    ensures EncodeGroup(DecodeGroup(s)) == s
  {
    var m, k := |s|, BytesIn(|s|);
    var vs, f := Symbols(s), PadFactor(k);
    var x := Value(vs, 32);
    ValueBounded(vs, 32);
    Powers(k);
    PadDivides(x, Value(vs[..m - 1], 32), vs[m - 1], f);
    QuotientLess(x, Power(256, k), f);
    ValueOfDigits(x / f, 256, k);
    DigitsOfValue(vs, 32);
    CharsOfSymbols(s);
  }

  lemma QuotientLess(x: nat, bound: nat, f: nat)
    requires x < bound * f && f > 0
    ensures x / f < bound
  {
  }

  lemma PadDivides(x: nat, v: nat, last: nat, f: nat)
    requires f in {1, 2, 4, 8, 16} && x == v * 32 + last && last % f == 0
    ensures x / f * f == x
  {
    hide *;
    var c := if f == 1 then x else if f == 2 then v * 16 + last / 2 else if f == 4 then v * 8 + last / 4
             else if f == 8 then v * 4 + last / 8 else v * 2 + last / 16;
    assert x == f * c;
    ModOfSum(x, f, c, 0);
  }

  // ------------------------------------------------------------------ whole strings

  /** The mask test looks at exactly the pad bits of the last group. */
  lemma MaskTestIsPadTest(s: string)
    requires AliasShape(s) && |s| <= 8
    ensures AllInAlphabet(s) && (IsCanonicalAccountAlias(s) <==> PadIsZero(s))
  {
    ShapeInAlphabet(s);
    var last := SymbolOf(s[|s| - 1]);
    assert Pow2(1) == 2 && Pow2(2) == 4 && Pow2(3) == 8 && Pow2(4) == 16;
    AndLowMask(last, 1);
    AndLowMask(last, 2);
    AndLowMask(last, 3);
    AndLowMask(last, 4);
  }

  lemma CanonicalTail(s: string)
    requires |s| > 8 && AllInAlphabet(s[..8])
    ensures IsCanonicalAccountAlias(s) <==> IsCanonicalAccountAlias(s[8..])
  {
    var t := s[8..];
    assert |s| % 8 == |t| % 8;
    if AliasShape(t) {
      ShapeInAlphabet(t);
      assert s[|s| - 1] == t[|t| - 1];
    }
  }

  /** Every encoding is accepted, and decodes to the bytes it came from. */
  lemma {:induction false} EncodingIsAccepted(bytes: seq<Byte>)
    requires bytes != []
    ensures IsCanonicalAccountAlias(Encode(bytes)) && Decode(Encode(bytes)) == bytes
    decreases |bytes|
  {
    if |bytes| <= 5 {
      GroupRoundTrip(bytes);
      MaskTestIsPadTest(Encode(bytes));
    } else {
      var head, tail := EncodeGroup(bytes[..5]), Encode(bytes[5..]);
      GroupRoundTrip(bytes[..5]);
      EncodingIsAccepted(bytes[5..]);
      var s := Encode(bytes);
      ShapeInAlphabet(tail);
      assert s[..8] == head && s[8..] == tail;
      CanonicalTail(s);
    }
  }

  /** Every accepted string is the encoding of the bytes it decodes to. */
  lemma {:induction false} AcceptedIsEncoding(s: string)
    requires IsCanonicalAccountAlias(s)
    ensures Encode(Decode(s)) == s
    decreases |s|
  {
    if |s| <= 8 {
      MaskTestIsPadTest(s);
      GroupDecodes(s);
    } else {
      var head := DecodeGroup(s[..8]);
      CanonicalTail(s);
      AcceptedIsEncoding(s[8..]);
      GroupDecodes(s[..8]);
      var bytes := Decode(s);
      assert bytes[..5] == head && bytes[5..] == Decode(s[8..]);
      assert s == s[..8] + s[8..];
    }
  }

  /** The validator accepts exactly the unpadded base32 encodings of non-empty byte sequences. */
  lemma AcceptsExactlyEncodings(s: string)
    ensures IsCanonicalAccountAlias(s) <==> exists bytes: seq<Byte> :: bytes != [] && Encode(bytes) == s
  {
    if IsCanonicalAccountAlias(s) {
      AcceptedIsEncoding(s);
    }
    forall bytes: seq<Byte> | bytes != [] && Encode(bytes) == s
      ensures IsCanonicalAccountAlias(s)
    {
      EncodingIsAccepted(bytes);
    }
  }

  // ------------------------------------------------------------- the standard's own

  /** The alphabet of section 6 of RFC 4648. */
  const ALPHABET := "ABCDEFGHIJKLMNOPQRSTUVWXYZ234567"

  lemma AlphabetIsTheStandards(v: Symbol)
    ensures |ALPHABET| == 32 && CharOf(v) == ALPHABET[v] && SymbolOf(ALPHABET[v]) == v
  {
  }

  lemma ValueAppend(ds: seq<int>, d: int, base: nat)
    requires base == 32 || base == 256
    requires 0 <= d < base && forall i :: 0 <= i < |ds| ==> 0 <= ds[i] < base
    ensures Value(ds + [d], base) == Value(ds, base) * base + d
  {
    assert (ds + [d])[..|ds|] == ds;
  }

  /** A group is encoded as the symbols with the value of its bytes, moved past the pad bits. */
  lemma GroupEncodesAs(bytes: seq<Byte>, vs: seq<int>)
    requires 1 <= |bytes| <= 5 && |vs| == SymbolsFor(|bytes|) && forall i :: 0 <= i < |vs| ==> 0 <= vs[i] < 32
    requires Value(bytes, 256) * PadFactor(|bytes|) == Value(vs, 32)
    ensures EncodeGroup(bytes) == Chars(vs)
  {
    DigitsOfValue(vs, 32);
  }

  lemma ValuesOfFooba()
    ensures Value([0x66], 256) == 0x66
    ensures Value([0x66, 0x6F], 256) == 0x666F
    ensures Value([0x66, 0x6F, 0x6F], 256) == 0x66_6F6F
    ensures Value([0x66, 0x6F, 0x6F, 0x62], 256) == 0x666F_6F62
    ensures Value([0x66, 0x6F, 0x6F, 0x62, 0x61], 256) == 0x66_6F6F_6261
  {
    hide Value;
    NoValue(256);
    ValueAppend([], 0x66, 256);
    ValueAppend([0x66], 0x6F, 256);
    ValueAppend([0x66, 0x6F], 0x6F, 256);
    ValueAppend([0x66, 0x6F, 0x6F], 0x62, 256);
    ValueAppend([0x66, 0x6F, 0x6F, 0x62], 0x61, 256);
    assert [] + [0x66] == [0x66] && [0x66] + [0x6F] == [0x66, 0x6F] && [0x66, 0x6F] + [0x6F] == [0x66, 0x6F, 0x6F];
    assert [0x66, 0x6F, 0x6F] + [0x62] == [0x66, 0x6F, 0x6F, 0x62];
    assert [0x66, 0x6F, 0x6F, 0x62] + [0x61] == [0x66, 0x6F, 0x6F, 0x62, 0x61];
  }

  lemma NoValue(base: nat)
    requires base == 32 || base == 256
    ensures Value([], base) == 0
  {
  }

  lemma ValuesOfShortForms()
    ensures Value([12, 24], 32) == 0x66 * 4
    ensures Value([12, 25, 23], 32) == 0x666F / 2
    ensures Value([12, 25, 23, 16], 32) == 0x666F * 16
  {
    hide Value;
    NoValue(32);
    ValueAppend([], 12, 32);
    ValueAppend([12], 24, 32);
    ValueAppend([12], 25, 32);
    ValueAppend([12, 25], 23, 32);
    ValueAppend([12, 25, 23], 16, 32);
    assert [] + [12] == [12] && [12] + [24] == [12, 24] && [12] + [25] == [12, 25] && [12, 25] + [23] == [12, 25, 23];
    assert [12, 25, 23] + [16] == [12, 25, 23, 16];
  }

  lemma ValuesOfMiddleForms()
    ensures Value([12, 25, 23, 22, 30], 32) == 0x66_6F6F * 2
    ensures Value([12, 25, 23, 22, 30, 24], 32) == 0x666F_6F62 / 4
  {
    hide Value;
    ValuesOfShortForms();
    ValueAppend([12, 25, 23], 22, 32);
    ValueAppend([12, 25, 23, 22], 30, 32);
    ValueAppend([12, 25, 23, 22, 30], 24, 32);
    assert [12, 25, 23] + [22] == [12, 25, 23, 22] && [12, 25, 23, 22] + [30] == [12, 25, 23, 22, 30];
    assert [12, 25, 23, 22, 30] + [24] == [12, 25, 23, 22, 30, 24];
  }

  lemma ValuesOfLongForms()
    ensures Value([12, 25, 23, 22, 30, 24, 16], 32) == 0x666F_6F62 * 8
    ensures Value([12, 25, 23, 22, 30, 24, 19, 1], 32) == 0x66_6F6F_6261
  {
    hide Value;
    ValuesOfMiddleForms();
    var ds := [12, 25, 23, 22, 30, 24];
    ValueAppend(ds, 16, 32);
    ValueAppend(ds, 19, 32);
    ValueAppend(ds + [19], 1, 32);
    assert ds + [16] == [12, 25, 23, 22, 30, 24, 16] && ds + [19] + [1] == [12, 25, 23, 22, 30, 24, 19, 1];
  }

  /** Test vectors of section 10 of RFC 4648, without their padding: one for each length of a group. */
  lemma StandardVectors()
    ensures Encode([0x66]) == "MY"
    ensures Encode([0x66, 0x6F]) == "MZXQ"
    ensures Encode([0x66, 0x6F, 0x6F]) == "MZXW6"
    ensures Encode([0x66, 0x6F, 0x6F, 0x62]) == "MZXW6YQ"
    ensures Encode([0x66, 0x6F, 0x6F, 0x62, 0x61]) == "MZXW6YTB"
  {
    ValuesOfFooba();
    ValuesOfShortForms();
    ValuesOfMiddleForms();
    ValuesOfLongForms();
    hide Value, EncodeGroup;
    GroupEncodesAs([0x66], [12, 24]);
    GroupEncodesAs([0x66, 0x6F], [12, 25, 23, 16]);
    GroupEncodesAs([0x66, 0x6F, 0x6F], [12, 25, 23, 22, 30]);
    GroupEncodesAs([0x66, 0x6F, 0x6F, 0x62], [12, 25, 23, 22, 30, 24, 16]);
    GroupEncodesAs([0x66, 0x6F, 0x6F, 0x62, 0x61], [12, 25, 23, 22, 30, 24, 19, 1]);
    assert Chars([12, 24]) == "MY" && Chars([12, 25, 23, 16]) == "MZXQ" && Chars([12, 25, 23, 22, 30]) == "MZXW6";
    assert Chars([12, 25, 23, 22, 30, 24, 16]) == "MZXW6YQ" && Chars([12, 25, 23, 22, 30, 24, 19, 1]) == "MZXW6YTB";
  }
}

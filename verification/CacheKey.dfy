/**
 Network-scoped cache keys (src/core/network-cache.ts). JavaScript strings are sequences
 of UTF-16 code units, lone surrogates included; JSON.stringify of a string is the quoting
 of ECMA-262 section 25.5.2.3, within the grammar of section 7 of RFC 8259.
*/
module CacheKey {
  import opened MemoryCache
  import opened Wrappers

  type Unit = u: int | 0 <= u < 0x1_0000

  type Text = seq<Unit>

  const QUOTE: Unit := 0x22
  const BACKSLASH: Unit := 0x5C
  const COLON: Unit := 0x3A
  const REPLACEMENT: Unit := 0xFFFD

  predicate IsHigh(u: Unit) { 0xD800 <= u <= 0xDBFF }

  predicate IsLow(u: Unit) { 0xDC00 <= u <= 0xDFFF }

  predicate IsSurrogate(u: Unit) { IsHigh(u) || IsLow(u) }

  predicate StartsPair(s: Text) { |s| >= 2 && IsHigh(s[0]) && IsLow(s[1]) }

  // ------------------------------------------------------------------ quoting

  /** A lower-case hexadecimal digit. */
  function HexDigit(v: int): (u: Unit)
    requires 0 <= v < 16
    ensures u == QUOTE || u == BACKSLASH ==> false
    ensures !IsSurrogate(u)
  {
    if v < 10 then 0x30 + v else 0x61 + v - 10
  }

  /** The escapes with a letter of their own: backspace, tab, line feed, form feed, return, quote, backslash. */
  function ShortEscape(u: Unit): Option<Unit> {
    if u == 0x08 then Some(0x62) else if u == 0x09 then Some(0x74) else if u == 0x0A then Some(0x6E)
    else if u == 0x0C then Some(0x66) else if u == 0x0D then Some(0x72)
    else if u == QUOTE || u == BACKSLASH then Some(u) else None
  }

  /** One code unit that is not half of a pair. */
  function QuoteUnit(u: Unit): (t: Text)
    ensures t != []
  {
    if ShortEscape(u).Some? then [BACKSLASH, ShortEscape(u).value]
    else if u < 0x20 || IsSurrogate(u) then
      [BACKSLASH, 0x75, HexDigit(u / 0x1000), HexDigit(u / 0x100 % 16), HexDigit(u / 16 % 16), HexDigit(u % 16)]
    else [u]
  }

  function QuoteBody(s: Text): Text {
    if s == [] then []
    else if StartsPair(s) then [s[0], s[1]] + QuoteBody(s[2..])
    else QuoteUnit(s[0]) + QuoteBody(s[1..])
  }

  function Quote(s: Text): Text { [QUOTE] + QuoteBody(s) + [QUOTE] }

  // --------------------------------------------------------- reading it back

  function HexValue(u: Unit): Option<int> {
    if 0x30 <= u <= 0x39 then Some(u - 0x30) else if 0x61 <= u <= 0x66 then Some(u - 0x61 + 10) else None
  }

  function HexUnit(t: Text): Option<Unit>
    requires |t| == 4
  {
    var a, b, c, d := HexValue(t[0]), HexValue(t[1]), HexValue(t[2]), HexValue(t[3]);
    if a.None? || b.None? || c.None? || d.None? then None
    else
      var v := ((a.value * 16 + b.value) * 16 + c.value) * 16 + d.value;
      if 0 <= v < 0x1_0000 then Some(v) else None
  }

  function LongEscape(letter: Unit): Option<Unit> {
    if letter == 0x62 then Some(0x08) else if letter == 0x74 then Some(0x09) else if letter == 0x6E then Some(0x0A)
    else if letter == 0x66 then Some(0x0C) else if letter == 0x72 then Some(0x0D)
    else if letter == QUOTE || letter == BACKSLASH then Some(letter) else None
  }

  /** The string up to the closing quote, and what follows the quote. */
  function ReadBody(t: Text): Option<(Text, Text)>
    decreases |t|
  {
    if t == [] then None
    else if t[0] == QUOTE then Some(([], t[1..]))
    else if t[0] != BACKSLASH then Prepend(t[0], ReadBody(t[1..]))
    else if |t| >= 2 && LongEscape(t[1]).Some? then Prepend(LongEscape(t[1]).value, ReadBody(t[2..]))
    else if |t| >= 6 && t[1] == 0x75 && HexUnit(t[2..6]).Some? then Prepend(HexUnit(t[2..6]).value, ReadBody(t[6..]))
    else None
  }

  function Prepend(u: Unit, r: Option<(Text, Text)>): Option<(Text, Text)> {
    if r.None? then None else Some(([u] + r.value.0, r.value.1))
  }

  lemma HexRoundTrip(u: Unit)
    ensures HexUnit([HexDigit(u / 0x1000), HexDigit(u / 0x100 % 16), HexDigit(u / 16 % 16), HexDigit(u % 16)]) == Some(u)
  {
    hide HexDigit, HexValue;
    HexDigitReads(u / 0x1000);
    HexDigitReads(u / 0x100 % 16);
    HexDigitReads(u / 16 % 16);
    HexDigitReads(u % 16);
    Nibbles(u);
  }

  lemma HexDigitReads(v: int)
    requires 0 <= v < 16
    ensures HexValue(HexDigit(v)) == Some(v)
  {
  }

  lemma Nibbles(u: nat)
    ensures ((u / 0x1000 * 16 + u / 0x100 % 16) * 16 + u / 16 % 16) * 16 + u % 16 == u
  {
    var q := u / 16;
    var r := q / 16;
    assert u == q * 16 + u % 16;
    assert q == r * 16 + q % 16;
    assert u / 0x100 == r;
    assert r == r / 16 * 16 + r % 16;
    assert u / 0x1000 == r / 16;
  }

  lemma UnitReads(u: Unit, rest: Text)
    ensures ReadBody(QuoteUnit(u) + rest) == Prepend(u, ReadBody(rest))
  {
    hide ReadBody, HexUnit, LongEscape;
    if ShortEscape(u).Some? {
      ShortReads(u, rest);
    } else if u < 0x20 || IsSurrogate(u) {
      HexRoundTrip(u);
      var hex := [HexDigit(u / 0x1000), HexDigit(u / 0x100 % 16), HexDigit(u / 16 % 16), HexDigit(u % 16)];
      LongReads(hex, u, rest);
      assert QuoteUnit(u) == [BACKSLASH, 0x75] + hex;
    } else {
      PlainReads(u, rest);
    }
  }

  lemma ShortReads(u: Unit, rest: Text)
    requires ShortEscape(u).Some?
    ensures ReadBody([BACKSLASH, ShortEscape(u).value] + rest) == Prepend(u, ReadBody(rest))
  {
  }

  lemma LongReads(hex: Text, u: Unit, rest: Text)
    requires |hex| == 4 && HexUnit(hex) == Some(u)
    ensures ReadBody([BACKSLASH, 0x75] + hex + rest) == Prepend(u, ReadBody(rest))
  {
  }

  lemma PlainReads(u: Unit, rest: Text)
    requires u != QUOTE && u != BACKSLASH
    ensures ReadBody([u] + rest) == Prepend(u, ReadBody(rest))
  {
  }

  /** Quoting is undone by reading, whatever follows: the quoted form delimits itself. */
  lemma {:induction false} QuoteReadsBack(s: Text, rest: Text)
    ensures ReadBody(QuoteBody(s) + ([QUOTE] + rest)) == Some((s, rest))
    decreases |s|
  {
    hide QuoteUnit, Prepend, ReadBody;
    var tail := [QUOTE] + rest;
    if s == [] {
      EndReads(rest);
      assert QuoteBody(s) + tail == tail;
    } else {
      var n := if StartsPair(s) then 2 else 1;
      var p, q := if n == 2 then [s[0], s[1]] else QuoteUnit(s[0]), QuoteBody(s[n..]);
      QuoteReadsBack(s[n..], rest);
      Regroup(p, q, tail);
      if n == 2 {
        PlainReads(s[1], q + tail);
        PlainReads(s[0], [s[1]] + (q + tail));
        Regroup([s[0]], [s[1]], q + tail);
        assert [s[0]] + [s[1]] == p;
        PrependTwice(s, rest);
      } else {
        UnitReads(s[0], q + tail);
        PrependOnce(s, rest);
      }
    }
  }

  lemma EndReads(rest: Text)
    ensures ReadBody([QUOTE] + rest) == Some(([], rest))
  {
  }

  lemma PrependOnce(s: Text, rest: Text)
    requires s != []
    ensures Prepend(s[0], Some((s[1..], rest))) == Some((s, rest))
  {
    assert s == [s[0]] + s[1..];
  }

  lemma PrependTwice(s: Text, rest: Text)
    requires |s| >= 2
    ensures Prepend(s[0], Prepend(s[1], Some((s[2..], rest)))) == Some((s, rest))
  {
    assert s == [s[0]] + ([s[1]] + s[2..]);
  }

  // ---------------------------------------------------------- the physical key

  /** `hedera-rest-client:2`. */
  const PREFIX: Text :=
    [0x68, 0x65, 0x64, 0x65, 0x72, 0x61, 0x2D, 0x72, 0x65, 0x73, 0x74, 0x2D, 0x63, 0x6C, 0x69, 0x65, 0x6E, 0x74, 0x3A, 0x32]

  function PhysicalKey(network: Text, logicalKey: Text): Text {
    PREFIX + [COLON] + Quote(network) + [COLON] + logicalKey
  }

  lemma KeyReads(network: Text, logicalKey: Text)
    ensures var key := PhysicalKey(network, logicalKey);
            |key| > |PREFIX| + 2 && ReadBody(key[|PREFIX| + 2..]) == Some((network, [COLON] + logicalKey))
  {
    var key := PhysicalKey(network, logicalKey);
    assert key[|PREFIX| + 2..] == QuoteBody(network) + ([QUOTE] + ([COLON] + logicalKey));
    QuoteReadsBack(network, [COLON] + logicalKey);
  }

  /** Two pairs of network and logical key never share a physical key. */
  lemma PhysicalKeyIsInjective(network1: Text, key1: Text, network2: Text, key2: Text)
    ensures PhysicalKey(network1, key1) == PhysicalKey(network2, key2) <==> network1 == network2 && key1 == key2
  {
    hide QuoteBody, ReadBody;
    if PhysicalKey(network1, key1) == PhysicalKey(network2, key2) {
      KeyReads(network1, key1);
      KeyReads(network2, key2);
      assert ([COLON] + key1)[1..] == key1 && ([COLON] + key2)[1..] == key2;
    }
  }

  // ------------------------------------------------- backends that store UTF-8

  /** Encoding as UTF-8 replaces each lone surrogate. */
  function Scrub(s: Text): Text {
    if s == [] then []
    else if StartsPair(s) then [s[0], s[1]] + Scrub(s[2..])
    else [if IsSurrogate(s[0]) then REPLACEMENT else s[0]] + Scrub(s[1..])
  }

  lemma {:induction false} ScrubPlain(p: Text, rest: Text)
    requires forall i :: 0 <= i < |p| ==> !IsSurrogate(p[i])
    ensures Scrub(p + rest) == p + Scrub(rest)
  {
    hide Scrub;
    if p == [] {
      assert p + rest == rest;
    } else {
      ScrubPlain(p[1..], rest);
      ScrubOne(p[0], p[1..] + rest);
      assert p == [p[0]] + p[1..];
      Regroup([p[0]], p[1..], rest);
      Regroup([p[0]], p[1..], Scrub(rest));
    }
  }

  lemma ScrubOne(u: Unit, rest: Text)
    requires !IsSurrogate(u)
    ensures Scrub([u] + rest) == [u] + Scrub(rest)
  {
    assert ([u] + rest)[1..] == rest;
  }

  lemma QuoteUnitIsPlain(u: Unit)
    ensures forall i :: 0 <= i < |QuoteUnit(u)| ==> !IsSurrogate(QuoteUnit(u)[i])
  {
  }

  /** The quoted form has no lone surrogate, so nothing in it is replaced. */
  lemma {:induction false} QuotedSurvives(s: Text, rest: Text)
    ensures Scrub(QuoteBody(s) + rest) == QuoteBody(s) + Scrub(rest)
    decreases |s|
  {
    hide QuoteUnit, Scrub;
    if s == [] {
      assert QuoteBody(s) + rest == rest;
    } else {
      var n := if StartsPair(s) then 2 else 1;
      var p, q := if n == 2 then [s[0], s[1]] else QuoteUnit(s[0]), QuoteBody(s[n..]);
      QuotedSurvives(s[n..], rest);
      Regroup(p, q, rest);
      Regroup(p, q, Scrub(rest));
      if n == 2 {
        ScrubPair(s[0], s[1], q + rest);
      } else {
        QuoteUnitIsPlain(s[0]);
        ScrubPlain(p, q + rest);
      }
    }
  }

  lemma Regroup(p: Text, q: Text, r: Text)
    ensures (p + q) + r == p + (q + r)
  {
  }

  lemma ScrubPair(high: Unit, low: Unit, rest: Text)
    requires IsHigh(high) && IsLow(low)
    ensures Scrub([high, low] + rest) == [high, low] + Scrub(rest)
  {
  }

  /** Even a backend that replaces lone surrogates keeps the networks' keys apart. */
  lemma NetworksStayApart(network1: Text, key1: Text, network2: Text, key2: Text)
    requires network1 != network2
    ensures Scrub(PhysicalKey(network1, key1)) != Scrub(PhysicalKey(network2, key2))
  {
    hide QuoteBody, ReadBody, Scrub;
    ScrubKey(network1, key1);
    ScrubKey(network2, key2);
    PhysicalKeyIsInjective(network1, Scrub(key1), network2, Scrub(key2));
  }

  lemma ScrubKey(network: Text, key: Text)
    ensures Scrub(PhysicalKey(network, key)) == PhysicalKey(network, Scrub(key))
  {
    hide QuoteBody, Scrub;
    var head, colon, quote := PREFIX + [COLON, QUOTE], [COLON] + key, [QUOTE, COLON] + key;
    assert PhysicalKey(network, key) == head + (QuoteBody(network) + quote);
    ScrubPlain(head, QuoteBody(network) + quote);
    QuotedSurvives(network, quote);
    ScrubPlain([QUOTE, COLON], key);
  }

  // ------------------------------------------------------------- scoped access

  /** What an adapter returns for a key: a value and an expiry, `None` when that is no safe number. */
  datatype Stored<V> = Stored(value: V, expiresAt: Option<int>)

  /** A call on the scoped cache; `fails` says that the adapter or the copy of the value threw. */
  datatype Call<V> =
    | Get(network: Text, key: Text, now: int, fails: bool)
    | Set(network: Text, key: Text, value: V, ttl: Ttl, now: int, fails: bool)

  datatype Answer<V> = Value(value: Option<V>) | Written | Rejected(error: TtlError)

  function GetScoped<V>(enabled: bool, found: Option<Stored<V>>, now: int, fails: bool): Option<V> {
    if !enabled || fails || found.None? then None
    else if found.value.expiresAt.None? || now >= found.value.expiresAt.value then None
    else Some(found.value.value)
  }

  function Find<V>(store: map<Text, Stored<V>>, key: Text): Option<Stored<V>> {
    if key in store then Some(store[key]) else None
  }

  function Perform<V>(enabled: bool, store: map<Text, Stored<V>>, c: Call<V>): (map<Text, Stored<V>>, Answer<V>) {
    match c
    case Get(network, key, now, fails) =>
      (store, Value(GetScoped(enabled, Find(store, PhysicalKey(network, key)), now, fails)))
    case Set(network, key, value, ttl, now, fails) =>
      if !enabled then (store, Written)
      else
        match CacheExpiresAt(ttl, now)
        case Err(e) => (store, Rejected(e))
        case Ok(deadline) =>
          (if fails then store else store[PhysicalKey(network, key) := Stored(value, Some(deadline))], Written)
  }

  function PerformAll<V>(enabled: bool, store: map<Text, Stored<V>>, calls: seq<Call<V>>): seq<Answer<V>>
    decreases |calls|
  {
    if calls == [] then []
    else
      var (next, answer) := Perform(enabled, store, calls[0]);
      [answer] + PerformAll(enabled, next, calls[1..])
  }

  /** The calls that concern one network. */
  function Of<V>(calls: seq<Call<V>>, network: Text): seq<Call<V>> {
    if calls == [] then []
    else (if calls[0].network == network then [calls[0]] else []) + Of(calls[1..], network)
  }

  function AnswersOf<V>(calls: seq<Call<V>>, answers: seq<Answer<V>>, network: Text): seq<Answer<V>>
    requires |calls| == |answers|
  {
    if calls == [] then []
    else (if calls[0].network == network then [answers[0]] else []) + AnswersOf(calls[1..], answers[1..], network)
  }

  lemma {:induction false} OneAnswerPerCall<V>(enabled: bool, store: map<Text, Stored<V>>, calls: seq<Call<V>>)
    ensures |PerformAll(enabled, store, calls)| == |calls|
    decreases |calls|
  {
    if calls != [] { OneAnswerPerCall(enabled, Perform(enabled, store, calls[0]).0, calls[1..]); }
  }

  /** Two stores that hold the same entries for one network. */
  ghost predicate SameFor<V>(network: Text, s: map<Text, Stored<V>>, t: map<Text, Stored<V>>) {
    forall key: Text :: Find(s, PhysicalKey(network, key)) == Find(t, PhysicalKey(network, key))
  }

  lemma StepKeepsApart<V>(enabled: bool, s: map<Text, Stored<V>>, t: map<Text, Stored<V>>, c: Call<V>, network: Text)
    requires SameFor(network, s, t)
    ensures c.network != network ==> SameFor(network, Perform(enabled, s, c).0, t)
    ensures c.network == network ==> SameFor(network, Perform(enabled, s, c).0, Perform(enabled, t, c).0) &&
                                     Perform(enabled, s, c).1 == Perform(enabled, t, c).1
  {
    hide PhysicalKey, CacheExpiresAt;
    forall key: Text ensures PhysicalKey(c.network, c.key) == PhysicalKey(network, key) <==> c.network == network && c.key == key {
      PhysicalKeyIsInjective(c.network, c.key, network, key);
    }
  }

  /**
   Over any run of any networks' calls on one shared adapter, each network gets the
   answers it would get if no other network ever used the adapter.
  */
  lemma {:induction false} NetworksDoNotInterfere<V>(
      enabled: bool, s: map<Text, Stored<V>>, t: map<Text, Stored<V>>, calls: seq<Call<V>>, network: Text)
    requires SameFor(network, s, t)
    ensures |PerformAll(enabled, s, calls)| == |calls|
    ensures AnswersOf(calls, PerformAll(enabled, s, calls), network) == PerformAll(enabled, t, Of(calls, network))
    decreases |calls|
  {
    hide Perform, SameFor;
    OneAnswerPerCall(enabled, s, calls);
    if calls != [] {
      var c, rest := calls[0], calls[1..];
      StepKeepsApart(enabled, s, t, c, network);
      var next := Perform(enabled, s, c).0;
      assert PerformAll(enabled, s, calls)[1..] == PerformAll(enabled, next, rest);
      if c.network == network {
        NetworksDoNotInterfere(enabled, next, Perform(enabled, t, c).0, rest, network);
        assert Of(calls, network)[1..] == Of(rest, network);
      } else {
        NetworksDoNotInterfere(enabled, next, t, rest, network);
        assert Of(calls, network) == Of(rest, network);
      }
    }
  }

  /** What one network wrote under a key is read back by it until the deadline, and not from then on. */
  lemma ReadsWhatWasWritten<V>(store: map<Text, Stored<V>>, network: Text, key: Text, value: V, ttl: Ttl, now: int, later: int)
    requires CacheExpiresAt(ttl, now).Ok?
    ensures var next := Perform(true, store, Set(network, key, value, ttl, now, false)).0;
            Perform(true, next, Get(network, key, later, false)).1 ==
            Value(if later < CacheExpiresAt(ttl, now).value then Some(value) else None)
  {
    hide PhysicalKey, CacheExpiresAt;
  }

  /** A read that is switched off, fails, finds nothing, or finds a record without a valid deadline ahead, is a miss. */
  lemma ReadIsMiss<V>(enabled: bool, store: map<Text, Stored<V>>, network: Text, key: Text, now: int, fails: bool)
    ensures var r := Perform(enabled, store, Get(network, key, now, fails));
            var at := PhysicalKey(network, key);
            r.0 == store &&
            r.1 == Value(if enabled && !fails && at in store && store[at].expiresAt.Some? && now < store[at].expiresAt.value
                         then Some(store[at].value) else None)
  {
    hide PhysicalKey;
  }

  /** A write that is switched off, refused or failing leaves the adapter as it was; any other stores one record. */
  lemma WriteStores<V>(
      enabled: bool, store: map<Text, Stored<V>>, network: Text, key: Text, value: V, ttl: Ttl, now: int, fails: bool)
    ensures var r := Perform(enabled, store, Set(network, key, value, ttl, now, fails));
            var deadline := CacheExpiresAt(ttl, now);
            && r.0 == (if enabled && !fails && deadline.Ok?
                       then store[PhysicalKey(network, key) := Stored(value, Some(deadline.value))] else store)
            && r.1 == if enabled && deadline.Err? then Rejected(deadline.error) else Written
  {
    hide PhysicalKey, CacheExpiresAt;
  }

  /** A code unit that JSON writes as itself: no control, quote, backslash or surrogate. */
  predicate IsPlain(u: Unit) { 0x20 <= u && u != 0x22 && u != 0x5C && !(0xD800 <= u <= 0xDFFF) }

  lemma {:induction false} PlainBody(s: Text)
    requires forall i :: 0 <= i < |s| ==> IsPlain(s[i])
    ensures QuoteBody(s) == s
  {
    if s != [] {
      PlainBody(s[1..]);
      assert QuoteUnit(s[0]) == [s[0]] && s == [s[0]] + s[1..];
    }
  }

  /** For a name of plain characters the key is the prefix, the name in quotes and the logical key, colons between them. */
  lemma KeyOfPlainName(network: Text, key: Text)
    requires forall i :: 0 <= i < |network| ==> IsPlain(network[i])
    ensures PhysicalKey(network, key) == PREFIX + [0x3A] + [0x22] + network + [0x22] + [0x3A] + key
  {
    PlainBody(network);
  }

  /** The surrogates, and how each code unit that is not half of a pair is written: itself, a short escape, or four hexadecimal digits. */
  lemma UnitsAreWritten(u: Unit, v: Unit)
    ensures StartsPair([u, v]) <==> 0xD800 <= u <= 0xDBFF && 0xDC00 <= v <= 0xDFFF
    ensures IsPlain(u) ==> QuoteUnit(u) == [u]
    ensures u in {0x22, 0x5C} ==> QuoteUnit(u) == [0x5C, u]
    ensures QuoteUnit(0x08) == [0x5C, 0x62] && QuoteUnit(0x09) == [0x5C, 0x74] && QuoteUnit(0x0A) == [0x5C, 0x6E]
    ensures QuoteUnit(0x0C) == [0x5C, 0x66] && QuoteUnit(0x0D) == [0x5C, 0x72]
    ensures 0xD800 <= u <= 0xDFFF || (u < 0x20 && u !in {0x08, 0x09, 0x0A, 0x0C, 0x0D}) ==>
              |QuoteUnit(u)| == 6 && QuoteUnit(u)[..2] == [0x5C, 0x75] && HexUnit(QuoteUnit(u)[2..]) == Some(u)
  {
    HexRoundTrip(u);
    hide HexUnit;
    var hex := [HexDigit(u / 0x1000), HexDigit(u / 0x100 % 16), HexDigit(u / 16 % 16), HexDigit(u % 16)];
    assert ([BACKSLASH, 0x75] + hex)[2..] == hex;
    if 0xD800 <= u <= 0xDFFF || (u < 0x20 && u !in {0x08, 0x09, 0x0A, 0x0C, 0x0D}) {
      assert QuoteUnit(u) == [BACKSLASH, 0x75] + hex;
    }
  }
}

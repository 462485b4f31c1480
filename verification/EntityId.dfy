/**
 Entity IDs as range bounds: validateEntityIdRangeValue and packedEntityIdRangeValue
 (src/core/utils.ts). An ID is num, realm.num or shard.realm.num, each part a decimal
 integer that may carry a sign and leading zeros.
*/
module EntityId {
  import opened Bits
  import opened Comparators
  import opened Numbers
  import opened Text
  import opened Wrappers

  const MAX_SHARD := 0x3FF
  const MAX_REALM := 0xFFFF
  const MAX_NUM := 0x3F_FFFF_FFFF

  datatype RangeError = NotDecimal | NotPackable | ExceedsLargest

  function Unsigned(part: string): string {
    if part != [] && part[0] in {'+', '-'} then part[1..] else part
  }

  /** The pattern an optional sign and one or more digits. */
  predicate IsDecimalPart(part: string) { Unsigned(part) != [] && AllDigits(Unsigned(part)) }

  predicate DecimalParts(parts: seq<string>) {
    1 <= |parts| <= 3 && forall i :: 0 <= i < |parts| ==> IsDecimalPart(parts[i])
  }

  predicate IsDecimalId(s: string) { DecimalParts(Split(s, '.')) }

  /** Leading zeros that a digit follows are dropped. */
  function StripZeros(ds: string): (r: string)
    requires AllDigits(ds) && ds != []
    ensures r != [] && AllDigits(r) && NatOf(r) == NatOf(ds) && (r[0] == '0' ==> |r| == 1)
  {
    if |ds| > 1 && ds[0] == '0' then
      NatOfLeadingZero(ds);
      StripZeros(ds[1..])
    else ds
  }

  /** One part, read as a number from 0 to `maximum`; lengths are compared before values. */
  function BoundedValue(raw: string, maximum: nat): Option<nat>
    requires IsDecimalPart(raw)
  {
    var negative := raw[0] == '-';
    var normalized := StripZeros(Unsigned(raw));
    if negative && normalized != "0" then None
    else if |normalized| > |Decimal(maximum)| then None
    else
      var value := NatOf(normalized);
      if value <= maximum then Some(value) else None
  }

  function RawShard(parts: seq<string>): (raw: string)
    requires DecimalParts(parts)
    ensures IsDecimalPart(raw)
  {
    if |parts| == 3 then parts[0] else "0"
  }

  function RawRealm(parts: seq<string>): (raw: string)
    requires DecimalParts(parts)
    ensures IsDecimalPart(raw)
  {
    if |parts| >= 2 then parts[|parts| - 2] else "0"
  }

  function RawNum(parts: seq<string>): (raw: string)
    requires DecimalParts(parts)
    ensures IsDecimalPart(raw)
  {
    parts[|parts| - 1]
  }

  function ValidateEntityIdRangeValue(s: string, operator: Option<Operator>): Result<string, RangeError> {
    if !IsDecimalId(s) then Err(NotDecimal)
    else
      var parts := Split(s, '.');
      var shard := BoundedValue(RawShard(parts), MAX_SHARD);
      var realm := BoundedValue(RawRealm(parts), MAX_REALM);
      var num := BoundedValue(RawNum(parts), MAX_NUM);
      Judge(s, operator, shard, realm, num)
  }

  function Judge(s: string, operator: Option<Operator>, shard: Option<nat>, realm: Option<nat>, num: Option<nat>)
    : Result<string, RangeError>
  {
    if shard.None? || realm.None? || num.None? || shard.value > 511 then Err(NotPackable)
    else if operator == Some(Gt) && shard.value == 511 && realm.value == MAX_REALM && num.value == MAX_NUM then
      Err(ExceedsLargest)
    else Ok(s)
  }

  /** BigInt of a signed decimal part. */
  function Signed(part: string): int
    requires IsDecimalPart(part)
  {
    var n: int := NatOf(Unsigned(part));
    if part[0] == '-' then -n else n
  }

  datatype Id = Id(shard: int, realm: int, num: int)

  function IdOf(s: string): Id
    requires IsDecimalId(s)
  {
    var parts := Split(s, '.');
    Id(Signed(RawShard(parts)), Signed(RawRealm(parts)), Signed(RawNum(parts)))
  }

  predicate Packable(id: Id) { 0 <= id.shard <= 511 && 0 <= id.realm <= MAX_REALM && 0 <= id.num <= MAX_NUM }

  const TOP := Id(511, MAX_REALM, MAX_NUM)

  /** The packed form: three fields shifted into place and or-ed together. */
  function PackedEntityIdRangeValue(s: string): nat
    requires IsDecimalId(s) && Packable(IdOf(s))
  {
    var id := IdOf(s);
    Or(Or(ShiftLeft(id.shard, 54), ShiftLeft(id.realm, 38)), id.num)
  }

  // ----------------------------------------------------------------------- properties

  /** The sign, zero and length rules together test the number the part denotes. */
  lemma BoundedValueIs(raw: string, maximum: nat)
    requires IsDecimalPart(raw)
    ensures BoundedValue(raw, maximum) == Bounded(Signed(raw), maximum)
  {
    var normalized, limit := StripZeros(Unsigned(raw)), Decimal(maximum);
    assert normalized[0] == '0' ==> normalized == "0";
    assert "0"[..0] == [];
    if normalized != "0" { NatWithoutLeadingZero(normalized); }
    if |normalized| > |limit| {
      NatBelowPower(limit);
      Pow10Monotone(|limit|, |normalized| - 1);
    }
  }

  /** What the validator accepts, in terms of the triple the text denotes. */
  lemma AcceptsExactlyPackable(s: string, operator: Option<Operator>)
    ensures ValidateEntityIdRangeValue(s, operator).Ok? <==>
            IsDecimalId(s) && Packable(IdOf(s)) && !(operator == Some(Gt) && IdOf(s) == TOP)
  {
    if IsDecimalId(s) {
      hide BoundedValue, Signed, IsDecimalId, RawShard, RawRealm, RawNum, IsDecimalPart, Split, Judge;
      var parts := Split(s, '.');
      var shard, realm, num := RawShard(parts), RawRealm(parts), RawNum(parts);
      BoundedValueIs(shard, MAX_SHARD);
      BoundedValueIs(realm, MAX_REALM);
      BoundedValueIs(num, MAX_NUM);
      JudgeAccepts(s, operator, Signed(shard), Signed(realm), Signed(num));
    }
  }

  function Bounded(n: int, maximum: nat): Option<nat> { if 0 <= n <= maximum then Some(n) else None }

  lemma JudgeAccepts(s: string, operator: Option<Operator>, shard: int, realm: int, num: int)
    ensures Judge(s, operator, Bounded(shard, MAX_SHARD), Bounded(realm, MAX_REALM), Bounded(num, MAX_NUM)).Ok? <==>
            Packable(Id(shard, realm, num)) && !(operator == Some(Gt) && Id(shard, realm, num) == TOP)
  {
  }

  lemma {:induction false} Pow2Sum(j: nat, k: nat)
    ensures Pow2(j + k) == Pow2(j) * Pow2(k)
    decreases j
  {
    if j > 0 { Pow2Sum(j - 1, k); }
  }

  lemma Powers()
    ensures Pow2(16) == 0x1_0000 && Pow2(38) == 0x40_0000_0000 && Pow2(54) == 0x40_0000_0000_0000
  {
    assert Pow2(8) == 0x100;
    Pow2Sum(8, 8);
    Pow2Sum(16, 16);
    assert Pow2(6) == 0x40;
    Pow2Sum(6, 32);
    Pow2Sum(16, 38);
  }

  /** The three fields never overlap, so the packed form is positional. */
  lemma PackingIsPositional(s: string)
    requires IsDecimalId(s) && Packable(IdOf(s))
    ensures var id := IdOf(s);
            PackedEntityIdRangeValue(s) == id.shard * 0x40_0000_0000_0000 + id.realm * 0x40_0000_0000 + id.num
    ensures 0 <= PackedEntityIdRangeValue(s) <= MAX_SIGNED_INT64
  {
    hide IsDecimalId, IdOf;
    PackFields(IdOf(s));
  }

  lemma PackFields(id: Id)
    requires Packable(id)
    ensures Or(Or(ShiftLeft(id.shard, 54), ShiftLeft(id.realm, 38)), id.num) ==
            id.shard * 0x40_0000_0000_0000 + id.realm * 0x40_0000_0000 + id.num
  {
    hide Pow2, Or;
    Powers();
    OrDisjoint(id.shard, 54, ShiftLeft(id.realm, 38));
    assert ShiftLeft(id.shard * 0x1_0000 + id.realm, 38) == ShiftLeft(id.shard, 54) + ShiftLeft(id.realm, 38);
    OrDisjoint(id.shard * 0x1_0000 + id.realm, 38, id.num);
  }

  predicate Before(a: Id, b: Id) {
    a.shard < b.shard || (a.shard == b.shard && (a.realm < b.realm || (a.realm == b.realm && a.num < b.num)))
  }

  /** Packing is injective and keeps the order of the triples. */
  lemma PackingKeepsOrder(s: string, t: string)
    requires IsDecimalId(s) && Packable(IdOf(s)) && IsDecimalId(t) && Packable(IdOf(t))
    ensures PackedEntityIdRangeValue(s) < PackedEntityIdRangeValue(t) <==> Before(IdOf(s), IdOf(t))
    ensures PackedEntityIdRangeValue(s) == PackedEntityIdRangeValue(t) <==> IdOf(s) == IdOf(t)
  {
    PackingIsPositional(s);
    PackingIsPositional(t);
    hide IsDecimalId, IdOf, PackedEntityIdRangeValue;
  }

  /** `gt` is refused exactly where the inclusive bound one above would leave a signed 64-bit integer. */
  lemma GtNeverOverflows(s: string)
    requires ValidateEntityIdRangeValue(s, None).Ok?
    ensures IsDecimalId(s) && Packable(IdOf(s))
    ensures ValidateEntityIdRangeValue(s, Some(Gt)).Ok? <==> PackedEntityIdRangeValue(s) + 1 <= MAX_SIGNED_INT64
  {
    hide IsDecimalId, IdOf, PackedEntityIdRangeValue, ValidateEntityIdRangeValue;
    AcceptsExactlyPackable(s, None);
    AcceptsExactlyPackable(s, Some(Gt));
    PackingIsPositional(s);
    OnlyTopIsLast(IdOf(s));
  }

  lemma OnlyTopIsLast(id: Id)
    requires Packable(id)
    ensures id.shard * 0x40_0000_0000_0000 + id.realm * 0x40_0000_0000 + id.num + 1 <= MAX_SIGNED_INT64 <==> id != TOP
  {
  }

  lemma NoDot(part: string)
    requires IsDecimalPart(part)
    ensures '.' !in part
  {
    var u := Unsigned(part);
    assert part == u || part == [part[0]] + u;
  }

  lemma SplitsOne(num: string)
    requires IsDecimalPart(num)
    ensures Split(num, '.') == [num]
  {
    NoDot(num);
    SplitNone(num, '.');
  }

  lemma SplitsTwo(realm: string, num: string)
    requires IsDecimalPart(realm) && IsDecimalPart(num)
    ensures Split(realm + "." + num, '.') == [realm, num]
  {
    NoDot(realm);
    SplitFirst(realm, num, '.');
    SplitsOne(num);
  }

  lemma SplitsThree(shard: string, realm: string, num: string)
    requires IsDecimalPart(shard) && IsDecimalPart(realm) && IsDecimalPart(num)
    ensures Split(shard + "." + realm + "." + num, '.') == [shard, realm, num]
  {
    NoDot(shard);
    assert shard + "." + realm + "." + num == shard + "." + (realm + "." + num);
    SplitFirst(shard, realm + "." + num, '.');
    SplitsTwo(realm, num);
  }

  /** An ID is read as num, realm.num or shard.realm.num, each missing part as zero. */
  lemma PartsInPlace(shard: string, realm: string, num: string)
    requires IsDecimalPart(shard) && IsDecimalPart(realm) && IsDecimalPart(num)
    ensures IsDecimalId(num) && IdOf(num) == Id(0, 0, Signed(num))
    ensures IsDecimalId(realm + "." + num) && IdOf(realm + "." + num) == Id(0, Signed(realm), Signed(num))
    ensures IsDecimalId(shard + "." + realm + "." + num) &&
            IdOf(shard + "." + realm + "." + num) == Id(Signed(shard), Signed(realm), Signed(num))
  {
    SplitsOne(num);
    SplitsTwo(realm, num);
    SplitsThree(shard, realm, num);
    ZeroPart();
    hide Split, Signed, IsDecimalPart;
  }

  lemma ZeroPart()
    ensures IsDecimalPart("0") && Signed("0") == 0
  {
    assert "0"[..0] == [];
  }

  /** A part denotes its digits' number, negated after a minus sign. */
  lemma SignsRead(digits: string)
    requires digits != [] && AllDigits(digits)
    ensures IsDecimalPart(digits) && Signed(digits) == NatOf(digits)
    ensures IsDecimalPart("+" + digits) && Signed("+" + digits) == NatOf(digits)
    ensures IsDecimalPart("-" + digits) && Signed("-" + digits) == -(NatOf(digits) as int)
  {
    assert ("+" + digits)[1..] == digits && ("-" + digits)[1..] == digits;
    assert Unsigned(digits) == digits;
    hide NatOf;
  }

  /** There is no other decimal ID. */
  lemma NoOtherForm(s: string)
    requires IsDecimalId(s)
    ensures IsDecimalPart(s) ||
            (exists realm, num :: IsDecimalPart(realm) && IsDecimalPart(num) && s == realm + "." + num) ||
            exists shard, realm, num ::
              IsDecimalPart(shard) && IsDecimalPart(realm) && IsDecimalPart(num) && s == shard + "." + realm + "." + num
  {
    hide IsDecimalPart, Split;
    var parts := Split(s, '.');
    SplitIsJoin(s, '.');
    if |parts| == 1 {
    } else if |parts| == 2 {
      JoinTwo(parts[0], parts[1]);
      assert parts == [parts[0], parts[1]];
    } else {
      JoinThree(parts[0], parts[1], parts[2]);
      assert parts == [parts[0], parts[1], parts[2]];
    }
  }

  lemma JoinTwo(a: string, b: string)
    ensures Join([a, b], '.') == a + "." + b
  {
    assert [a, b][1..] == [b];
  }

  lemma JoinThree(a: string, b: string, c: string)
    ensures Join([a, b, c], '.') == a + "." + b + "." + c
  {
    JoinTwo(b, c);
    assert [a, b, c][1..] == [b, c];
    assert a + "." + (b + "." + c) == a + "." + b + "." + c;
  }
}

/** Packing event codes into 64 bits (packed_event_codes.h and .cc): five fields of 10 bits (version 0), or four fields
    of 15 bits when one of the first five codes does not fit in 10 (version 1). The top four bits hold the version.

    Words are numbers: masking with 2^k - 1 is the remainder by 2^k, shifting is multiplying or dividing by a power of
    two, and setting bits that are still zero is adding. */
module PackedEventCodes {
  import opened Common
  import opened Arithmetic

  /** 2 to the power of kVersionHeaderOffset. */
  const VERSION_UNIT: nat := 0x1000_0000_0000_0000
  const FIELD_V0: nat := 1024
  const FIELD_V1: nat := 0x8000
  const FIELDS_V0: nat := 5
  const FIELDS_V1: nat := 4

  type Code = c: nat | c < UINT32_SIZE

  /** A list of codes stands for an infinite one that ends in zeros. */
  function CodeAt(codes: seq<Code>, k: nat): Code { if k < |codes| then codes[k] else 0 }

  ghost predicate SameCodes(a: seq<Code>, b: seq<Code>) { forall k: nat :: CodeAt(a, k) == CodeAt(b, k) }

  // ---------------------------------------------------------------- Fields

  /** The first n codes, each cut to its field, least significant first. */
  function Fields(codes: seq<Code>, n: nat, b: nat): nat
    requires 0 < b
  {
    if n == 0 then 0 else Fields(codes, n - 1, b) + CodeAt(codes, n - 1) % b * Pow(b, n - 1)
  }

  /** Field i of a word. */
  function Field(p: nat, i: nat, b: nat): nat
    requires 0 < b
  {
    if Pow(b, i) == 0 then 0 else p / Pow(b, i) % b
  }

  lemma FieldBound(x: nat, c: nat, b: nat, p: nat)
    requires x < p && c < b
    ensures x + c * p < b * p
  {
    MultiplyMonotone(c + 1, b, p);
    assert (c + 1) * p == c * p + p;
  }

  lemma FieldsAbove(x: nat, c: nat, above: nat, b: nat, p: nat)
    ensures x + c * p + above * (b * p) == x + (c + above * b) * p
  {
    assert above * (b * p) == (above * b) * p;
    assert (c + above * b) * p == c * p + (above * b) * p;
  }

  lemma {:induction false} FieldsFit(codes: seq<Code>, n: nat, b: nat)
    requires 0 < b
    ensures Fields(codes, n, b) < Pow(b, n)
  {
    if n != 0 {
      FieldsFit(codes, n - 1, b);
      FieldBound(Fields(codes, n - 1, b), CodeAt(codes, n - 1) % b, b, Pow(b, n - 1));
    }
  }

  /** Whatever stands above them, the fields can be read back. */
  lemma {:induction false} ReadField(codes: seq<Code>, n: nat, i: nat, b: nat, above: nat)
    requires 0 < b && i < n
    ensures Field(Fields(codes, n, b) + above * Pow(b, n), i, b) == CodeAt(codes, i) % b
  {
    var c, p := CodeAt(codes, n - 1) % b, Pow(b, n - 1);
    PowPositive(b, n - 1);
    FieldsAbove(Fields(codes, n - 1, b), c, above, b, p);
    if i < n - 1 {
      ReadField(codes, n - 1, i, b, c + above * b);
    } else {
      FieldsFit(codes, n - 1, b);
      DivideSum(Fields(codes, n - 1, b), c + above * b, p);
      DivideSum(c, above, b);
    }
  }

  // ---------------------------------------------------------------- The two versions

  predicate NeedsV1(codes: seq<Code>) {
    exists k :: 0 <= k < FIELDS_V0 && CodeAt(codes, k) >= FIELD_V0
  }

  function PackV1(codes: seq<Code>): nat { VERSION_UNIT + Fields(codes, FIELDS_V1, FIELD_V1) }

  function Pack(codes: seq<Code>): nat {
    if NeedsV1(codes) then PackV1(codes) else Fields(codes, FIELDS_V0, FIELD_V0)
  }

  /** ReadVersion. */
  function Version(p: nat): nat { p / VERSION_UNIT % 16 }

  function ReadFields(p: nat, n: nat, b: nat): seq<Code>
    requires 0 < b <= UINT32_SIZE
  {
    if n == 0 then [] else ReadFields(p, n - 1, b) + [Field(p, n - 1, b)]
  }

  function Unpack(p: nat): seq<Code> {
    if Version(p) == 0 then ReadFields(p, FIELDS_V0, FIELD_V0)
    else if Version(p) == 1 then ReadFields(p, FIELDS_V1, FIELD_V1)
    else [0, 0, 0, 0, 0]
  }

  // ---------------------------------------------------------------- The loops

  lemma ZeroField(c: nat, b: nat, p: nat)
    requires 0 < b && c == 0
    ensures c % b * p == 0
  {
    assert c % b == 0;
  }

  lemma {:induction false} MissingCodes(codes: seq<Code>, n: nat, b: nat)
    requires |codes| <= n && 0 < b
    ensures Fields(codes, n, b) == Fields(codes, |codes|, b)
  {
    if |codes| < n {
      MissingCodes(codes, n - 1, b);
      ZeroField(CodeAt(codes, n - 1), b, Pow(b, n - 1));
    }
  }

  method PackEventCodesV1(codes: seq<Code>) returns (packed: nat)
    ensures packed == PackV1(codes)
  {
    packed := VERSION_UNIT;
    var i, unit := 0, 1;
    while i < |codes| && i < FIELDS_V1
      invariant i <= |codes| && i <= FIELDS_V1 && unit == Pow(FIELD_V1, i)
      invariant packed == VERSION_UNIT + Fields(codes, i, FIELD_V1)
    {
      packed := packed + codes[i] % FIELD_V1 * unit;
      unit := FIELD_V1 * unit;
      i := i + 1;
    }
    if |codes| < FIELDS_V1 {
      MissingCodes(codes, FIELDS_V1, FIELD_V1);
    }
  }

  method PackEventCodes(codes: seq<Code>) returns (packed: nat)
    ensures packed == Pack(codes)
  {
    packed := 0;
    var i, unit := 0, 1;
    while i < |codes| && i < FIELDS_V0
      invariant i <= |codes| && i <= FIELDS_V0 && unit == Pow(FIELD_V0, i)
      invariant forall k :: 0 <= k < i ==> codes[k] < FIELD_V0
      invariant packed == Fields(codes, i, FIELD_V0)
    {
      if codes[i] >= FIELD_V0 {
        assert CodeAt(codes, i) >= FIELD_V0;
        packed := PackEventCodesV1(codes);
        return;
      }
      packed := packed + codes[i] % FIELD_V0 * unit;
      unit := FIELD_V0 * unit;
      i := i + 1;
    }
    if |codes| < FIELDS_V0 {
      MissingCodes(codes, FIELDS_V0, FIELD_V0);
    }
  }

  method UnpackEventCodes(p: nat) returns (codes: seq<Code>)
    ensures codes == Unpack(p)
  {
    var number, field;
    match Version(p) {
      case 0 => number, field := FIELDS_V0, FIELD_V0;
      case 1 => number, field := FIELDS_V1, FIELD_V1;
      case _ => return [0, 0, 0, 0, 0];
    }
    codes := [];
    var unit := 1;
    for i := 0 to number
      invariant unit == Pow(field, i) && 0 < unit
      invariant codes == ReadFields(p, i, field)
    {
      codes := codes + [p / unit % field];
      unit := field * unit;
    }
  }

  lemma OrOfDisjoint(x: bv64, y: bv64)
    requires x & y == 0
    ensures x | y == x + y
  {
  }

  /** In a 64-bit word, or-ing a shifted field into bits that are still zero is adding it: ten-bit fields. */
  lemma OrIsAdd(word: bv64, code: bv64, shift: bv64)
    requires shift in {0, 10, 20, 30, 40} && word < 1 << shift
    ensures word | ((code & 0x3FF) << shift) == word + ((code & 0x3FF) << shift)
  {
    OrOfDisjoint(word, (code & 0x3FF) << shift);
  }

  /** The same for fifteen-bit fields under the version bit. */
  lemma OrIsAddV1(word: bv64, code: bv64, shift: bv64)
    requires shift in {0, 15, 30, 45} && word < 1 << shift
    ensures (word | (1 << 60)) | ((code & 0x7FFF) << shift) == word + (1 << 60) + ((code & 0x7FFF) << shift)
  {
    var field := (code & 0x7FFF) << shift;
    assert word & (1 << 60) == 0;
    OrOfDisjoint(word, 1 << 60);
    assert (word | (1 << 60)) & field == 0;
    OrOfDisjoint(word | (1 << 60), field);
  }

  // ---------------------------------------------------------------- The layouts

  /** The first five codes fit in ten bits each. */
  predicate FitTenBits(codes: seq<Code>) {
    && CodeAt(codes, 0) < 1024 && CodeAt(codes, 1) < 1024 && CodeAt(codes, 2) < 1024
    && CodeAt(codes, 3) < 1024 && CodeAt(codes, 4) < 1024
  }

  lemma FallbackExactly(codes: seq<Code>)
    ensures NeedsV1(codes) <==> !FitTenBits(codes)
  {
    if !NeedsV1(codes) {
      assert forall k :: 0 <= k < FIELDS_V0 ==> CodeAt(codes, k) < FIELD_V0;
    }
  }

  lemma SmallCode(c: nat, b: nat)
    requires c < b
    ensures c % b == c
  {
    assert c == 0 * b + c;
  }

  /** Packing, field by field: ten bits each if the first five codes fit in them. */
  lemma PackTenBits(codes: seq<Code>)
    requires FitTenBits(codes)
    ensures Pack(codes) == CodeAt(codes, 0) + CodeAt(codes, 1) * 0x400 + CodeAt(codes, 2) * 0x10_0000
                           + CodeAt(codes, 3) * 0x4000_0000 + CodeAt(codes, 4) * 0x100_0000_0000
  {
    FallbackExactly(codes);
    FieldsOfFive(codes);
    SmallCode(CodeAt(codes, 0), 1024);
    SmallCode(CodeAt(codes, 1), 1024);
    SmallCode(CodeAt(codes, 2), 1024);
    SmallCode(CodeAt(codes, 3), 1024);
    SmallCode(CodeAt(codes, 4), 1024);
  }

  /** And otherwise the first four codes, cut to fifteen bits each, under the version bit. */
  lemma PackFifteenBits(codes: seq<Code>)
    requires !FitTenBits(codes)
    ensures Pack(codes) == 0x1000_0000_0000_0000 + CodeAt(codes, 0) % 0x8000 + CodeAt(codes, 1) % 0x8000 * 0x8000
                           + CodeAt(codes, 2) % 0x8000 * 0x4000_0000 + CodeAt(codes, 3) % 0x8000 * 0x2000_0000_0000
  {
    FallbackExactly(codes);
    FieldsOfFour(codes);
  }

  lemma FieldsOfFour(codes: seq<Code>)
    ensures Fields(codes, 4, 0x8000) == CodeAt(codes, 0) % 0x8000 + CodeAt(codes, 1) % 0x8000 * 0x8000
                                        + CodeAt(codes, 2) % 0x8000 * 0x4000_0000 + CodeAt(codes, 3) % 0x8000 * 0x2000_0000_0000
  {
    assert Pow(0x8000, 0) == 1;
    assert Pow(0x8000, 1) == 0x8000;
    assert Pow(0x8000, 2) == 0x4000_0000;
    assert Pow(0x8000, 3) == 0x2000_0000_0000;
    assert Fields(codes, 1, 0x8000) == CodeAt(codes, 0) % 0x8000;
    assert Fields(codes, 2, 0x8000) == Fields(codes, 1, 0x8000) + CodeAt(codes, 1) % 0x8000 * 0x8000;
    assert Fields(codes, 3, 0x8000) == Fields(codes, 2, 0x8000) + CodeAt(codes, 2) % 0x8000 * 0x4000_0000;
  }

  /** Unpacking, field by field, by the version in the top four bits; any version but the two known ones gives zeros. */
  lemma UnpackMeaning(p: nat)
    ensures var version := p / 0x1000_0000_0000_0000 % 16;
            && (version == 0 ==> Unpack(p) == [p % 1024, p / 0x400 % 1024, p / 0x10_0000 % 1024, p / 0x4000_0000 % 1024, p / 0x100_0000_0000 % 1024])
            && (version == 1 ==> Unpack(p) == [p % 0x8000, p / 0x8000 % 0x8000, p / 0x4000_0000 % 0x8000, p / 0x2000_0000_0000 % 0x8000])
            && (1 < version ==> Unpack(p) == [0, 0, 0, 0, 0])
  {
    if Version(p) == 0 {
      TenBits();
      assert ReadFields(p, 1, 1024) == [p % 1024];
      assert ReadFields(p, 2, 1024) == [p % 1024, p / 0x400 % 1024];
      assert ReadFields(p, 3, 1024) == [p % 1024, p / 0x400 % 1024, p / 0x10_0000 % 1024];
      assert ReadFields(p, 4, 1024) == [p % 1024, p / 0x400 % 1024, p / 0x10_0000 % 1024, p / 0x4000_0000 % 1024];
    } else if Version(p) == 1 {
      FifteenBits();
      assert ReadFields(p, 1, 0x8000) == [p % 0x8000];
      assert ReadFields(p, 2, 0x8000) == [p % 0x8000, p / 0x8000 % 0x8000];
      assert ReadFields(p, 3, 0x8000) == [p % 0x8000, p / 0x8000 % 0x8000, p / 0x4000_0000 % 0x8000];
    }
  }

  lemma TenBits()
    ensures Pow(1024, 0) == 1 && Pow(1024, 1) == 0x400 && Pow(1024, 2) == 0x10_0000
    ensures Pow(1024, 3) == 0x4000_0000 && Pow(1024, 4) == 0x100_0000_0000
  {
    assert Pow(1024, 2) == 0x10_0000;
    assert Pow(1024, 3) == 0x4000_0000;
  }

  lemma FifteenBits()
    ensures Pow(0x8000, 0) == 1 && Pow(0x8000, 1) == 0x8000 && Pow(0x8000, 2) == 0x4000_0000 && Pow(0x8000, 3) == 0x2000_0000_0000
  {
    assert Pow(0x8000, 2) == 0x4000_0000;
  }

  // ---------------------------------------------------------------- Round trips

  lemma {:induction false} ReadFieldsAt(p: nat, n: nat, b: nat, k: nat)
    requires 0 < b <= UINT32_SIZE
    ensures |ReadFields(p, n, b)| == n
    ensures CodeAt(ReadFields(p, n, b), k) == if k < n then Field(p, k, b) else 0
  {
    if n != 0 {
      ReadFieldsAt(p, n - 1, b, k);
    }
  }

  lemma UnitIsPower()
    ensures Pow(FIELD_V1, FIELDS_V1) == VERSION_UNIT
    ensures Pow(FIELD_V0, FIELDS_V0) < VERSION_UNIT
  {
    assert Pow(FIELD_V1, 1) == FIELD_V1;
    assert Pow(FIELD_V1, 2) == FIELD_V1 * FIELD_V1;
    assert Pow(FIELD_V1, 3) == FIELD_V1 * FIELD_V1 * FIELD_V1;
    assert Pow(FIELD_V0, 1) == FIELD_V0;
    assert Pow(FIELD_V0, 2) == FIELD_V0 * FIELD_V0;
    assert Pow(FIELD_V0, 3) == FIELD_V0 * FIELD_V0 * FIELD_V0;
    assert Pow(FIELD_V0, 4) == FIELD_V0 * FIELD_V0 * FIELD_V0 * FIELD_V0;
  }

  lemma UnpackOfPackV1(codes: seq<Code>, k: nat)
    requires NeedsV1(codes)
    ensures CodeAt(Unpack(Pack(codes)), k) == if k < FIELDS_V1 then CodeAt(codes, k) % FIELD_V1 else 0
    ensures Version(Pack(codes)) == 1
  {
    UnitIsPower();
    var fields := Fields(codes, FIELDS_V1, FIELD_V1);
    assert Pack(codes) == fields + 1 * VERSION_UNIT;
    assert Version(Pack(codes)) == 1 by {
      FieldsFit(codes, FIELDS_V1, FIELD_V1);
      DivideSum(fields, 1, VERSION_UNIT);
    }
    ReadFieldsAt(Pack(codes), FIELDS_V1, FIELD_V1, k);
    if k < FIELDS_V1 {
      ReadField(codes, FIELDS_V1, k, FIELD_V1, 1);
    }
  }

  lemma UnpackOfPackV0(codes: seq<Code>, k: nat)
    requires !NeedsV1(codes)
    ensures CodeAt(Unpack(Pack(codes)), k) == if k < FIELDS_V0 then CodeAt(codes, k) else 0
    ensures Version(Pack(codes)) == 0
  {
    var fields := Fields(codes, FIELDS_V0, FIELD_V0);
    assert Version(Pack(codes)) == 0 by {
      UnitIsPower();
      FieldsFit(codes, FIELDS_V0, FIELD_V0);
      DivideSum(fields, 0, VERSION_UNIT);
    }
    ReadFieldsAt(Pack(codes), FIELDS_V0, FIELD_V0, k);
    if k < FIELDS_V0 {
      ReadField(codes, FIELDS_V0, k, FIELD_V0, 0);
      assert CodeAt(codes, k) < FIELD_V0;
    }
  }

  /** What comes back: the first five codes, or, with the fallback, the first four cut to 15 bits. */
  lemma UnpackOfPack(codes: seq<Code>, k: nat)
    ensures CodeAt(Unpack(Pack(codes)), k) ==
            if NeedsV1(codes) then (if k < FIELDS_V1 then CodeAt(codes, k) % FIELD_V1 else 0)
            else (if k < FIELDS_V0 then CodeAt(codes, k) else 0)
    ensures Version(Pack(codes)) == if NeedsV1(codes) then 1 else 0
  {
    if NeedsV1(codes) {
      UnpackOfPackV1(codes, k);
    } else {
      UnpackOfPackV0(codes, k);
    }
  }

  /** The codes fit one of the two layouts: up to trailing zeros, at most five below 1024 or at most four below 2^15. */
  ghost predicate Fits(codes: seq<Code>) {
    || (forall k: nat :: CodeAt(codes, k) < (if k < FIELDS_V0 then FIELD_V0 else 1))
    || (forall k: nat :: CodeAt(codes, k) < (if k < FIELDS_V1 then FIELD_V1 else 1))
  }

  /** Unpacking gives the packed codes back, up to trailing zeros, if and only if they fit. */
  lemma RoundTripIff(codes: seq<Code>)
    ensures SameCodes(Unpack(Pack(codes)), codes) <==> Fits(codes)
  {
    forall k: nat
      ensures CodeAt(Unpack(Pack(codes)), k) == CodeAt(codes, k) <==>
              CodeAt(codes, k) < if NeedsV1(codes) then (if k < FIELDS_V1 then FIELD_V1 else 1)
                                 else if k < FIELDS_V0 then FIELD_V0 else 1
    {
      UnpackOfPack(codes, k);
      if NeedsV1(codes) && k < FIELDS_V1 && CodeAt(codes, k) < FIELD_V1 {
        assert CodeAt(codes, k) % FIELD_V1 == CodeAt(codes, k);
      }
      if !NeedsV1(codes) && k < FIELDS_V0 {
        assert CodeAt(codes, k) < FIELD_V0;
      }
    }
    if NeedsV1(codes) {
      var k :| 0 <= k < FIELDS_V0 && CodeAt(codes, k) >= FIELD_V0;
      assert !(CodeAt(codes, k) < if k < FIELDS_V0 then FIELD_V0 else 1);
    }
  }

  /** A code of 1024 or more moves the list to the layout with four fields, and the fifth code is lost. */
  lemma FifthCodeLost()
    ensures CodeAt(Unpack(Pack([2000, 0, 0, 0, 1])), 4) == 0 && !SameCodes(Unpack(Pack([2000, 0, 0, 0, 1])), [2000, 0, 0, 0, 1])
  {
    assert CodeAt([2000, 0, 0, 0, 1], 0) == 2000 && CodeAt([2000, 0, 0, 0, 1], 4) == 1;
    UnpackOfPack([2000, 0, 0, 0, 1], 4);
  }

  /** On codes that fit, packing is injective up to trailing zeros. */
  lemma PackIsInjective(a: seq<Code>, b: seq<Code>)
    requires Fits(a) && Fits(b) && Pack(a) == Pack(b)
    ensures SameCodes(a, b)
  {
    RoundTripIff(a);
    RoundTripIff(b);
    forall k: nat ensures CodeAt(a, k) == CodeAt(b, k) {
      assert CodeAt(Unpack(Pack(a)), k) == CodeAt(a, k);
      assert CodeAt(Unpack(Pack(b)), k) == CodeAt(b, k);
    }
  }

  lemma {:induction false} SameFields(a: seq<Code>, b: seq<Code>, n: nat, base: nat)
    requires 0 < base && forall k :: 0 <= k < n ==> CodeAt(a, k) % base == CodeAt(b, k) % base
    ensures Fields(a, n, base) == Fields(b, n, base)
  {
    if n != 0 {
      SameFields(a, b, n - 1, base);
    }
  }

  /** Packing looks at the first five codes only. */
  lemma OnlyFirstFiveMatter(a: seq<Code>, b: seq<Code>)
    requires forall k :: 0 <= k < FIELDS_V0 ==> CodeAt(a, k) == CodeAt(b, k)
    ensures Pack(a) == Pack(b)
  {
    assert NeedsV1(a) == NeedsV1(b);
    SameFields(a, b, FIELDS_V0, FIELD_V0);
    SameFields(a, b, FIELDS_V1, FIELD_V1);
  }

  /** Packing what was unpacked gives the same word if and only if the fallback was not used or one of the codes that it
      kept still asks for it. */
  lemma RepackIff(codes: seq<Code>)
    ensures Pack(Unpack(Pack(codes))) == Pack(codes) <==>
            (NeedsV1(codes) ==> exists k :: 0 <= k < FIELDS_V1 && CodeAt(codes, k) % FIELD_V1 >= FIELD_V0)
  {
    var again := Unpack(Pack(codes));
    forall k: nat ensures CodeAt(again, k) ==
            if NeedsV1(codes) then (if k < FIELDS_V1 then CodeAt(codes, k) % FIELD_V1 else 0)
            else (if k < FIELDS_V0 then CodeAt(codes, k) else 0) {
      UnpackOfPack(codes, k);
    }
    UnpackOfPack(codes, 0);
    UnpackOfPack(again, 0);
    if !NeedsV1(codes) {
      OnlyFirstFiveMatter(again, codes);
    } else if k :| 0 <= k < FIELDS_V1 && CodeAt(codes, k) % FIELD_V1 >= FIELD_V0 {
      assert CodeAt(again, k) >= FIELD_V0;
      SameFields(again, codes, FIELDS_V1, FIELD_V1);
    } else {
      assert !NeedsV1(again);
    }
  }

  // ---------------------------------------------------------------- The label of an emitted observation

  /** The event code of a numeric observation: the generator passes the stored word on as 32 bits, unpacks it, and the
      encoder packs the codes again. */
  function EmittedLabel(word: nat): nat { Pack(Unpack(word % UINT32_SIZE)) }

  lemma DigitParts(r: nat, d: nat, t: nat, b: nat, p: nat)
    requires r < p && d < b
    ensures 0 < b * p && (r + (d + t * b) * p) % (b * p) == r + d * p
  {
    FieldBound(r, d, b, p);
    FieldsAbove(r, d, t, b, p);
    DivideSum(r + d * p, t, b * p);
  }

  lemma FieldIsSmall(x: nat, b: nat)
    requires 0 < b
    ensures x % b % b == x % b
  {
    DivideSum(x % b, 0, b);
  }

  lemma DigitsJoin(w: nat, r: nat, q: nat, d: nat, t: nat, b: nat, p: nat)
    requires w == r + q * p && q == d + t * b && r < p && d < b
    ensures 0 < b * p && w % (b * p) == r + d * p
  {
    DigitParts(r, d, t, b, p);
  }

  /** One more field of a number. */
  lemma DigitStep(w: nat, b: nat, p: nat, digit: nat)
    requires 0 < b && 0 < p && digit == w / p % b
    ensures 0 < b * p && w % (b * p) == w % p + digit % b * p
  {
    QuotientAndRemainder(w, p);
    QuotientAndRemainder(w / p, b);
    FieldIsSmall(w / p, b);
    assert digit % b == digit;
    DigitsJoin(w, w % p, w / p, digit, w / p / b, b, p);
  }

  lemma {:induction false} FieldsOfWord(codes: seq<Code>, w: nat, n: nat, b: nat)
    requires 0 < b && forall k: nat :: k < n ==> CodeAt(codes, k) == Field(w, k, b)
    ensures 0 < Pow(b, n) && Fields(codes, n, b) == w % Pow(b, n)
  {
    PowPositive(b, n);
    if n != 0 {
      PowPositive(b, n - 1);
      FieldsOfWord(codes, w, n - 1, b);
      DigitStep(w, b, Pow(b, n - 1), CodeAt(codes, n - 1));
    }
  }

  lemma Unit32()
    ensures UINT32_SIZE < Pow(FIELD_V0, FIELDS_V0) < VERSION_UNIT
  {
    UnitIsPower();
    assert Pow(FIELD_V0, 3) == 0x4000_0000;
    assert Pow(FIELD_V0, 4) == 1024 * 0x4000_0000;
  }

  /** Words of five ten-bit fields survive unpacking and packing. */
  lemma PackOfUnpack(w: nat)
    requires w < Pow(FIELD_V0, FIELDS_V0)
    ensures Pack(Unpack(w)) == w
  {
    Unit32();
    var codes := Unpack(w);
    assert Version(w) == 0;
    forall k: nat ensures CodeAt(codes, k) == (if k < FIELDS_V0 then Field(w, k, FIELD_V0) else 0) && CodeAt(codes, k) < FIELD_V0 {
      ReadFieldsAt(w, FIELDS_V0, FIELD_V0, k);
    }
    FieldsOfWord(codes, w, FIELDS_V0, FIELD_V0);
    DivideSum(w, 0, Pow(FIELD_V0, FIELDS_V0));
  }

  lemma {:induction false} FieldsOfFive(codes: seq<Code>)
    ensures Fields(codes, FIELDS_V0, FIELD_V0) ==
            CodeAt(codes, 0) % 1024 + CodeAt(codes, 1) % 1024 * 0x400 + CodeAt(codes, 2) % 1024 * 0x10_0000
            + CodeAt(codes, 3) % 1024 * 0x4000_0000 + CodeAt(codes, 4) % 1024 * 0x100_0000_0000
  {
    assert Pow(FIELD_V0, 0) == 1;
    assert Pow(FIELD_V0, 1) == 0x400;
    assert Pow(FIELD_V0, 2) == 0x10_0000;
    assert Pow(FIELD_V0, 3) == 0x4000_0000;
    assert Pow(FIELD_V0, 4) == 0x100_0000_0000;
    assert Fields(codes, 1, FIELD_V0) == CodeAt(codes, 0) % 1024;
    assert Fields(codes, 2, FIELD_V0) == Fields(codes, 1, FIELD_V0) + CodeAt(codes, 1) % 1024 * 0x400;
    assert Fields(codes, 3, FIELD_V0) == Fields(codes, 2, FIELD_V0) + CodeAt(codes, 2) % 1024 * 0x10_0000;
    assert Fields(codes, 4, FIELD_V0) == Fields(codes, 3, FIELD_V0) + CodeAt(codes, 3) % 1024 * 0x4000_0000;
  }

  /** Codes whose word fits in 32 bits: the first three below 1024, the fourth below 4, and no more. */
  predicate FitsLabel(codes: seq<Code>) {
    !NeedsV1(codes) && CodeAt(codes, 3) < 4 && CodeAt(codes, 4) == 0
  }

  lemma WordFits(codes: seq<Code>)
    ensures Pack(codes) < UINT32_SIZE <==> FitsLabel(codes)
  {
    if !NeedsV1(codes) {
      FieldsOfFive(codes);
      assert forall k :: 0 <= k < FIELDS_V0 ==> CodeAt(codes, k) < FIELD_V0;
      assert CodeAt(codes, 0) < 1024 && CodeAt(codes, 1) < 1024 && CodeAt(codes, 2) < 1024;
      assert CodeAt(codes, 3) < 1024 && CodeAt(codes, 4) < 1024;
    }
  }

  /** The label of an emitted observation is the low half of the word that was stored. So it is the word of the logged
      codes if and only if that word fits in 32 bits; in particular the fallback never survives. */
  lemma EmittedLabelIff(codes: seq<Code>)
    ensures EmittedLabel(Pack(codes)) == Pack(codes) % UINT32_SIZE
    ensures EmittedLabel(Pack(codes)) == Pack(codes) <==> FitsLabel(codes)
  {
    Unit32();
    PackOfUnpack(Pack(codes) % UINT32_SIZE);
    WordFits(codes);
  }

  lemma WordOf2000()
    ensures NeedsV1([2000]) && Pack([2000]) == VERSION_UNIT + 2000
  {
    assert CodeAt([2000], 0) == 2000;
    MissingCodes([2000], FIELDS_V1, FIELD_V1);
    assert Pow(FIELD_V1, 0) == 1;
    assert Fields([2000], 1, FIELD_V1) == 2000;
  }

  lemma WordOf976And1()
    ensures Pack([976, 1]) == 2000
  {
    FieldsOfFive([976, 1]);
    assert CodeAt([976, 1], 0) == 976 && CodeAt([976, 1], 1) == 1;
    assert !NeedsV1([976, 1]);
  }

  lemma LowHalf(codes: seq<Code>, low: nat)
    requires Pack(codes) == VERSION_UNIT + low && low < UINT32_SIZE
    ensures EmittedLabel(Pack(codes)) == low
  {
    EmittedLabelIff(codes);
    assert VERSION_UNIT % UINT32_SIZE == 0;
  }

  /** Code 2000 fits the fallback layout, and yet its observations go out with the codes 976 and 1. */
  lemma LabelOf2000()
    ensures Fits([2000]) && EmittedLabel(Pack([2000])) == Pack([976, 1]) && Pack([976, 1]) != Pack([2000])
  {
    WordOf2000();
    WordOf976And1();
    LowHalf([2000], 2000);
  }
}

/** Basic RAPPOR: the categories of a configuration (rappor_config_validator.cc), the encoder's bit layout
    (rappor_encoder.cc) and the analyzer's counts (basic_rappor_analyzer.cc). Probabilities are exact reals; what the
    random source delivers is a parameter. */
module BasicRappor {
  import opened Common

  const MAX_CATEGORIES: nat := 1024
  const MAX_RANDOM_BYTES: nat := 256
  const SIZE_MAX: nat := 0xFFFF_FFFF_FFFF_FFFF

  datatype Status = Ok | InvalidConfig | InvalidInput

  datatype ValuePart = StringValue(s: string) | IntValue(i: int) | IndexValue(n: nat)

  datatype Categories = Strings(strings: seq<string>) | IntRange(first: int, last: int) | Indexed(count: nat) | NotSet

  datatype Config = Config(p: real, q: real, rr: real, categories: Categories)

  // ---------------------------------------------------------------- The configuration

  /** The checks that do not concern the categories, in the order in which they are made. */
  predicate CommonValid(config: Config) {
    if config.p < 0.0 || config.p > 1.0 || config.q < 0.0 || config.q > 1.0 then false
    else if config.p == config.q then false
    else config.rr == 0.0
  }

  /** The configurations that are meant to be accepted. */
  predicate Acceptable(config: Config) {
    && 0.0 <= config.p <= 1.0 && 0.0 <= config.q <= 1.0 && config.p != config.q && config.rr == 0.0
    && match config.categories
       case Strings(strings) => 1 < |strings| < 1024 && "" !in strings && NoDuplicates(strings)
       case IntRange(first, last) => first < last && last - first + 1 < 1024
       case Indexed(count) => count < 1024
       case NotSet => false
  }

  /** A configuration's category in a position. */
  function CategoryAt(categories: Categories, k: nat): ValuePart {
    match categories
    case Strings(strings) => StringValue(if k < |strings| then strings[k] else "")
    case IntRange(first, _) => IntValue(first + k)
    case _ => IndexValue(k)
  }

  function CategoryCount(categories: Categories): nat {
    match categories
    case Strings(strings) => |strings|
    case IntRange(first, last) => if first <= last then last - first + 1 else 0
    case Indexed(count) => count
    case NotSet => 0
  }

  ghost predicate Lists(values: seq<ValuePart>, categories: Categories) {
    |values| == CategoryCount(categories) && forall k :: 0 <= k < |values| ==> values[k] == CategoryAt(categories, k)
  }

  /** ExtractCategories. */
  method ExtractCategories(categories: Categories) returns (ok: bool, values: seq<ValuePart>)
    ensures ok <==> match categories
                    case Strings(strings) => 1 < |strings| < MAX_CATEGORIES && "" !in strings
                    case IntRange(first, last) => first < last && last - first + 1 < MAX_CATEGORIES
                    case Indexed(count) => count < MAX_CATEGORIES
                    case NotSet => false
    ensures ok ==> Lists(values, categories) && |values| < MAX_CATEGORIES
  {
    values := [];
    match categories {
      case Strings(strings) =>
        if |strings| <= 1 || |strings| >= MAX_CATEGORIES {
          return false, values;
        }
        for k := 0 to |strings|
          invariant |values| == k && "" !in strings[..k]
          invariant forall j :: 0 <= j < k ==> values[j] == CategoryAt(categories, j)
        {
          if strings[k] == "" {
            return false, values;
          }
          values := values + [StringValue(strings[k])];
        }
        assert strings[..|strings|] == strings;
      case IntRange(first, last) =>
        if last <= first || last - first + 1 >= MAX_CATEGORIES {
          return false, values;
        }
        var category := first;
        while category <= last
          invariant first <= category <= last + 1 && |values| == category - first
          invariant forall j :: 0 <= j < |values| ==> values[j] == CategoryAt(categories, j)
        {
          values := values + [IntValue(category)];
          category := category + 1;
        }
      case Indexed(count) =>
        if count >= MAX_CATEGORIES {
          return false, values;
        }
        for k := 0 to count
          invariant |values| == k && forall j :: 0 <= j < k ==> values[j] == CategoryAt(categories, j)
        {
          values := values + [IndexValue(k)];
        }
      case NotSet => return false, values;
    }
    ok := true;
  }

  datatype Validator = Validator(valid: bool, p: real, q: real, categories: seq<ValuePart>, bitIndexOf: map<ValuePart, nat>)
  {
    /** Each category has its own bit, and only categories have one. */
    ghost predicate OneBitEach() {
      && NoDuplicates(categories)
      && |categories| < MAX_CATEGORIES
      && (forall k :: 0 <= k < |categories| ==> categories[k] in bitIndexOf && bitIndexOf[categories[k]] == k)
      && (forall v :: v in bitIndexOf ==> v in categories)
    }

    /** bit_index. */
    function BitIndex(value: ValuePart): int { if value in bitIndexOf then bitIndexOf[value] else -1 }
  }

  lemma ListedOnce(values: seq<ValuePart>, categories: Categories)
    requires Lists(values, categories)
    ensures NoDuplicates(values) <==> (categories.Strings? ==> NoDuplicates(categories.strings))
  {
    if categories.Strings? && NoDuplicates(values) {
      forall i, j | 0 <= i < j < |values| ensures categories.strings[i] != categories.strings[j] {
        assert values[i] != values[j];
      }
    }
  }

  /** The loop of the constructor that gives out the bits. */
  method NumberCategories(values: seq<ValuePart>) returns (distinct: bool, bits: map<ValuePart, nat>)
    ensures distinct <==> NoDuplicates(values)
    ensures distinct ==> forall k :: 0 <= k < |values| ==> values[k] in bits && bits[values[k]] == k
    ensures distinct ==> forall v :: v in bits ==> v in values
  {
    bits := map[];
    for k := 0 to |values|
      invariant forall i, j :: 0 <= i < j < k ==> values[i] != values[j]
      invariant forall j :: 0 <= j < k ==> values[j] in bits && bits[values[j]] == j
      invariant forall v :: v in bits ==> bits[v] < k && values[bits[v]] == v
    {
      if values[k] in bits {
        return false, bits;
      }
      bits := bits[values[k] := k];
    }
    distinct := true;
  }

  /** The validator's constructor: a configuration is valid if and only if it is acceptable, and then every category
      has a bit of its own. */
  method Validate(config: Config) returns (r: Validator)
    ensures r.valid <==> Acceptable(config)
    ensures r.valid ==> r.p == config.p && r.q == config.q && r.p != r.q && Lists(r.categories, config.categories) && r.OneBitEach()
    ensures r.valid ==> forall v: ValuePart ::
              if v in r.categories then 0 <= r.BitIndex(v) < |r.categories| && r.categories[r.BitIndex(v)] == v
              else r.BitIndex(v) == -1
  {
    r := Validator(false, config.p, config.q, [], map[]);
    if !CommonValid(config) {
      return;
    }
    var ok, values := ExtractCategories(config.categories);
    if !ok {
      return;
    }
    ListedOnce(values, config.categories);
    var distinct, bits := NumberCategories(values);
    if distinct {
      r := Validator(true, config.p, config.q, values, bits);
    }
  }

  // ---------------------------------------------------------------- Bits

  type Bytes = seq<bv8>

  /** The single bit that starts as 1 and is shifted up j times. */
  function Mask(j: nat): bv8 { if j == 0 then 1 else Mask(j - 1) << 1 }

  predicate ByteBit(b: bv8, j: nat) { Mask(j) & b != 0 }

  function NumBytes(bits: nat): nat { (bits + 7) / 8 }

  /** Bit i of an observation, counted from the least significant bit of the last byte. */
  predicate Bit(data: Bytes, i: nat)
    requires i < 8 * |data|
  {
    ByteBit(data[|data| - 1 - i / 8], i % 8)
  }

  /** Bit j of a byte as the byte shifted down. */
  predicate Shifted(b: bv8, j: nat)
    requires j < 8
  {
    match j
    case 0 => b & 1 == 1
    case 1 => (b >> 1) & 1 == 1
    case 2 => (b >> 2) & 1 == 1
    case 3 => (b >> 3) & 1 == 1
    case 4 => (b >> 4) & 1 == 1
    case 5 => (b >> 5) & 1 == 1
    case 6 => (b >> 6) & 1 == 1
    case _ => (b >> 7) & 1 == 1
  }

  lemma LowShifts(b: bv8)
    ensures (1 & b != 0 <==> b & 1 == 1) && (2 & b != 0 <==> (b >> 1) & 1 == 1)
    ensures (4 & b != 0 <==> (b >> 2) & 1 == 1) && (8 & b != 0 <==> (b >> 3) & 1 == 1)
  {
  }

  lemma HighShifts(b: bv8)
    ensures (16 & b != 0 <==> (b >> 4) & 1 == 1) && (32 & b != 0 <==> (b >> 5) & 1 == 1)
    ensures (64 & b != 0 <==> (b >> 6) & 1 == 1) && (128 & b != 0 <==> (b >> 7) & 1 == 1)
  {
  }

  /** Bit i of an observation in terms of its bytes: byte i / 8 from the end, shifted down by i % 8. */
  lemma BitIsLayout(data: Bytes, i: nat)
    requires i < 8 * |data|
    ensures Bit(data, i) <==> Shifted(data[|data| - 1 - i / 8], i % 8)
  {
    MaskTable();
    LowShifts(data[|data| - 1 - i / 8]);
    HighShifts(data[|data| - 1 - i / 8]);
  }

  lemma MaskTable()
    ensures Mask(0) == 1 && Mask(1) == 2 && Mask(2) == 4 && Mask(3) == 8
    ensures Mask(4) == 16 && Mask(5) == 32 && Mask(6) == 64 && Mask(7) == 128
  {
    assert Mask(3) == 8;
    assert Mask(6) == 64;
  }

  lemma MaskIsShift(j: nat)
    requires j < 8
    ensures Mask(j) == 1 << j
  {
    MaskTable();
  }

  lemma MasksDiffer(i: nat, j: nat)
    requires i < 8 && j < 8
    ensures ByteBit(Mask(j), i) <==> i == j
  {
    MaskTable();
  }

  lemma ZeroByte(j: nat)
    ensures !ByteBit(0, j)
  {
  }

  /** One byte of FlipBits. */
  function Mix(p: bv8, q: bv8, d: bv8): bv8 { (p & !d) | (q & d) }

  /** Seen through a mask of a single bit, a mixed byte shows the q byte or the p byte. */
  lemma MixThroughMask(p: bv8, q: bv8, d: bv8, m: bv8)
    requires m & (m - 1) == 0
    ensures m & Mix(p, q, d) != 0 <==> if m & d != 0 then m & q != 0 else m & p != 0
  {
  }

  lemma MixBit(p: bv8, q: bv8, d: bv8, j: nat)
    requires j < 8
    ensures ByteBit(Mix(p, q, d), j) <==> if ByteBit(d, j) then ByteBit(q, j) else ByteBit(p, j)
  {
    assert Mask(j) & (Mask(j) - 1) == 0 by {
      MaskTable();
    }
    MixThroughMask(p, q, d, Mask(j));
  }

  // ---------------------------------------------------------------- The encoder

  /** InitializeObservationData. */
  method InitializeObservationData(config: Validator, secretValid: bool) returns (status: Status, data: Bytes)
    ensures status == if config.valid && secretValid then Ok else InvalidConfig
    ensures status == Ok ==> |data| == NumBytes(|config.categories|) && forall i :: 0 <= i < |data| ==> data[i] == 0
  {
    data := [];
    if !config.valid || !secretValid {
      return InvalidConfig, data;
    }
    data := seq(NumBytes(|config.categories|), _ => 0);
    status := Ok;
  }

  /** FlipBits. The random source fails when more than 256 bytes are asked for. */
  method FlipBits(p: real, q: real, pMask: Bytes, qMask: Bytes, data: array<bv8>) returns (status: Status)
    requires |pMask| == |qMask| == data.Length
    modifies data
    ensures status == Ok || status == InvalidInput
    ensures status == InvalidInput <==> !(p <= 0.0 && q >= 1.0) && data.Length > 256
    ensures p <= 0.0 && q >= 1.0 ==> data[..] == old(data[..])
    ensures status == Ok && !(p <= 0.0 && q >= 1.0) ==>
              forall i :: 0 <= i < data.Length ==> data[i] == Mix(pMask[i], qMask[i], old(data[i]))
  {
    if p <= 0.0 && q >= 1.0 {
      return Ok;
    }
    if data.Length > MAX_RANDOM_BYTES {
      return InvalidInput;
    }
    for i := 0 to data.Length
      invariant forall k :: 0 <= k < i ==> data[k] == Mix(pMask[k], qMask[k], old(data[k]))
      invariant forall k :: i <= k < data.Length ==> data[k] == old(data[k])
    {
      data[i] := (pMask[i] & !data[i]) | (qMask[i] & data[i]);
    }
    status := Ok;
  }

  /** What an observation for bit b looks like after the bits were flipped: a bit comes from the q mask where the
      encoding has a one, and from the p mask where it has a zero. A negative b stands for no bit. */
  ghost predicate Encodes(data: Bytes, bits: nat, b: int, p: real, q: real, pMask: Bytes, qMask: Bytes)
    requires |pMask| == |qMask| == NumBytes(bits)
  {
    |data| == NumBytes(bits)
    && forall i: nat :: i < 8 * |data| ==>
         (Bit(data, i) <==> if p <= 0.0 && q >= 1.0 then i == b else if i == b then Bit(qMask, i) else Bit(pMask, i))
  }

  /** Exactly bit b is set. */
  ghost predicate OneHot(data: Bytes, b: int) { forall i: nat :: i < 8 * |data| ==> (Bit(data, i) <==> i == b) }

  lemma FlippedBits(before: Bytes, after: Bytes, bits: nat, b: int, p: real, q: real, pMask: Bytes, qMask: Bytes)
    requires |before| == |after| == |pMask| == |qMask| == NumBytes(bits) && OneHot(before, b)
    requires p <= 0.0 && q >= 1.0 ==> after == before
    requires !(p <= 0.0 && q >= 1.0) ==> forall i :: 0 <= i < |after| ==> after[i] == Mix(pMask[i], qMask[i], before[i])
    ensures Encodes(after, bits, b, p, q, pMask, qMask)
  {
    forall i: nat | i < 8 * |after|
      ensures Bit(after, i) <==> if p <= 0.0 && q >= 1.0 then i == b else if i == b then Bit(qMask, i) else Bit(pMask, i)
    {
      var k := |after| - 1 - i / 8;
      MixBit(pMask[k], qMask[k], before[k], i % 8);
      assert Bit(before, i) <==> i == b;
    }
  }

  lemma SetBitIsOneHot(data: Bytes, b: nat)
    requires b < 8 * |data|
    requires forall k :: 0 <= k < |data| ==> data[k] == if k == |data| - 1 - b / 8 then 1 << (b % 8) else 0
    ensures OneHot(data, b)
  {
    MaskIsShift(b % 8);
    forall i: nat | i < 8 * |data| ensures Bit(data, i) <==> i == b {
      if i / 8 == b / 8 {
        MasksDiffer(i % 8, b % 8);
      } else {
        ZeroByte(i % 8);
      }
    }
  }

  /** Encode: refused for an invalid configuration or secret, and for a value that is not a category; otherwise the
      value's own bit is the one that the q mask decides. The random source never fails. */
  method Encode(config: Validator, secretValid: bool, value: ValuePart, pMask: Bytes, qMask: Bytes)
    returns (status: Status, observation: Bytes)
    requires config.valid ==> config.OneBitEach()
    requires |pMask| == |qMask| == NumBytes(|config.categories|)
    ensures status == if !config.valid || !secretValid then InvalidConfig
                      else if value !in config.categories then InvalidInput else Ok
    ensures status == Ok ==> 0 <= config.BitIndex(value) < |config.categories| &&
                             config.categories[config.BitIndex(value)] == value &&
                             Encodes(observation, |config.categories|, config.BitIndex(value), config.p, config.q, pMask, qMask)
    ensures status == Ok && config.p <= 0.0 && config.q >= 1.0 ==>
              var b := config.BitIndex(value);
              forall k :: 0 <= k < |observation| ==> observation[k] == if k == |observation| - 1 - b / 8 then 1 << (b % 8) else 0
  {
    observation := [];
    var zeros;
    status, zeros := InitializeObservationData(config, secretValid);
    if status != Ok {
      return;
    }
    var bitIndex := config.BitIndex(value);
    if bitIndex == -1 {
      return InvalidInput, observation;
    }
    var k :| 0 <= k < |config.categories| && config.categories[k] == value;
    var data := new bv8[|zeros|](i requires 0 <= i < |zeros| => zeros[i]);
    var byteIndex := bitIndex / 8;
    var bitInByteIndex := bitIndex % 8;
    data[data.Length - (byteIndex + 1)] := 1 << bitInByteIndex;
    ghost var before := data[..];
    SetBitIsOneHot(before, bitIndex);
    status := FlipBits(config.p, config.q, pMask, qMask, data);
    FlippedBits(before, data[..], |config.categories|, bitIndex, config.p, config.q, pMask, qMask);
    observation := data[..];
  }

  /** EncodeNullObservation: every bit is one that the p mask decides. */
  method EncodeNullObservation(config: Validator, secretValid: bool, pMask: Bytes, qMask: Bytes)
    returns (status: Status, observation: Bytes)
    requires config.valid ==> config.OneBitEach()
    requires |pMask| == |qMask| == NumBytes(|config.categories|)
    ensures status == if !config.valid || !secretValid then InvalidConfig else Ok
    ensures status == Ok ==> Encodes(observation, |config.categories|, -1, config.p, config.q, pMask, qMask)
  {
    observation := [];
    var zeros;
    status, zeros := InitializeObservationData(config, secretValid);
    if status != Ok {
      return;
    }
    var data := new bv8[|zeros|](i requires 0 <= i < |zeros| => zeros[i]);
    ghost var before := data[..];
    forall i: nat | i < 8 * |before| ensures !Bit(before, i) {
      ZeroByte(i % 8);
    }
    status := FlipBits(config.p, config.q, pMask, qMask, data);
    FlippedBits(before, data[..], |config.categories|, -1, config.p, config.q, pMask, qMask);
    observation := data[..];
  }

  // ---------------------------------------------------------------- The analyzer

  /** How many of the observations have bit i set. */
  function CountBit(observations: seq<Bytes>, i: nat): nat
    requires forall k :: 0 <= k < |observations| ==> i < 8 * |observations[k]|
  {
    if observations == [] then 0
    else CountBit(observations[..|observations| - 1], i) + if Bit(observations[|observations| - 1], i) then 1 else 0
  }

  function Decrement(x: nat): nat { if x == 0 then SIZE_MAX else x - 1 }

  function Estimate(y: nat, n: nat, p: real, q: real): real
    requires p != q
  {
    (y as real - p * n as real) / (q - p)
  }

  /** What the standard error is the root of, before it is scaled. */
  function Radicand(y: real, n: real, p: real, q: real): real { y * (1.0 - (q + p)) + n * p * q }

  /** The square of the standard error. */
  function SquaredError(y: nat, n: nat, p: real, q: real): real
    requires p != q
  {
    Radicand(y as real, n as real, p, q) / (q - p) / (q - p)
  }

  lemma ProductNotNegative(x: real, y: real)
    requires 0.0 <= x && 0.0 <= y
    ensures 0.0 <= x * y
  {
  }

  lemma ScaledTwice(x: real, d: real)
    requires 0.0 <= x && d != 0.0
    ensures 0.0 <= x / d / d
  {
    if 0.0 < d {
      assert 0.0 <= x / d;
    } else {
      assert x / d <= 0.0;
    }
  }

  /** The two ways in which the radicand is a sum of products of numbers that are not negative. */
  lemma RadicandNotNegative(y: real, n: real, p: real, q: real)
    requires 0.0 <= p <= 1.0 && 0.0 <= q <= 1.0 && 0.0 <= y <= n
    ensures 0.0 <= Radicand(y, n, p, q)
  {
    if 0.0 <= 1.0 - (q + p) {
      ProductNotNegative(y, 1.0 - (q + p));
      ProductNotNegative(n, p);
      ProductNotNegative(n * p, q);
    } else {
      var s, rest := q + p - 1.0, n - y;
      ProductNotNegative(1.0 - p, 1.0 - q);
      ProductNotNegative(n, (1.0 - p) * (1.0 - q));
      ProductNotNegative(rest, s);
      assert (1.0 - p) * (1.0 - q) == p * q - s;
      assert n * ((1.0 - p) * (1.0 - q)) == n * (p * q) - n * s;
      assert rest * s == n * s - y * s;
      assert n * (p * q) == n * p * q;
      assert y * (1.0 - (q + p)) == -(y * s);
    }
  }

  /** The root is taken of a number that is not negative, for every count that the analyzer can reach. */
  lemma ErrorIsReal(y: nat, n: nat, p: real, q: real)
    requires p != q && 0.0 <= p <= 1.0 && 0.0 <= q <= 1.0 && y <= n
    ensures 0.0 <= SquaredError(y, n, p, q)
  {
    RadicandNotNegative(y as real, n as real, p, q);
    ScaledTwice(Radicand(y as real, n as real, p, q), q - p);
  }

  /** The variance of the number of set bits when c of n observations keep their bit with probability q and the others
      gain it with probability p. */
  function Variance(n: real, c: real, p: real, q: real): real { c * (q * (1.0 - q)) + (n - c) * (p * (1.0 - p)) }

  lemma RadicandIsVariance(y: real, n: real, c: real, p: real, q: real)
    requires y == p * n + c * (q - p)
    ensures Radicand(y, n, p, q) == Variance(n, c, p, q)
  {
    var t, u, v := 1.0 - (q + p), q * (1.0 - q), p * (1.0 - p);
    assert (q - p) * t == u - v;
    assert c * (q - p) * t == c * (u - v);
    assert p * n * t == n * (p * t);
    assert p * t == v - p * q;
    assert n * (p * t) == n * v - n * (p * q);
    assert n * p * q == n * (p * q);
    assert y * t == p * n * t + c * (q - p) * t;
  }

  /** What the error means: it is the standard deviation of the number of set bits, scaled as the estimate is, when as
      many observations as the estimate says had the bit. */
  lemma ErrorIsBinomial(y: nat, n: nat, p: real, q: real)
    requires p != q
    ensures SquaredError(y, n, p, q) == Variance(n as real, Estimate(y, n, p, q), p, q) / (q - p) / (q - p)
  {
    var c := Estimate(y, n, p, q);
    assert c * (q - p) == y as real - p * n as real;
    RadicandIsVariance(y as real, n as real, c, p, q);
  }

  lemma {:induction false} CountAtMost(observations: seq<Bytes>, i: nat)
    requires forall k :: 0 <= k < |observations| ==> i < 8 * |observations[k]|
    ensures CountBit(observations, i) <= |observations|
  {
    if observations != [] {
      CountAtMost(observations[..|observations| - 1], i);
    }
  }

  datatype CategoryResult = CategoryResult(category: ValuePart, countEstimate: real, squaredError: real)

  class BasicRapporAnalyzer {
    const config: Validator
    const numEncodingBytes: nat
    const counts: array<nat>
    var numObservations: nat
    var observationErrors: nat
    /** The observations accepted so far, oldest first. */
    ghost var accepted: seq<Bytes>

    ghost predicate Valid()
      reads this, counts
    {
      && numObservations == |accepted|
      && (config.valid ==> config.p != config.q && counts.Length == |config.categories|)
      && numEncodingBytes == NumBytes(counts.Length) < SIZE_MAX
      && (forall k :: 0 <= k < |accepted| ==> |accepted[k]| == numEncodingBytes)
      && (forall i :: 0 <= i < counts.Length ==> counts[i] == CountBit(accepted, i))
    }

    constructor (config: Validator)
      requires config.valid ==> config.p != config.q && |config.categories| < MAX_CATEGORIES
      ensures Valid() && this.config == config && accepted == [] && observationErrors == 0 && fresh(counts)
    {
      this.config := config;
      var bits := if config.valid then |config.categories| else 0;
      counts := new nat[bits](_ => 0);
      numEncodingBytes := NumBytes(bits);
      numObservations, observationErrors, accepted := 0, 0, [];
    }

    /** One byte of an observation: the eight bits from `category` on. The walk is done when it meets the last category. */
    method CountByte(data: Bytes, byteIndex: nat, category: nat) returns (done: bool)
      requires |data| == NumBytes(counts.Length) && category % 8 == 0
      requires category < counts.Length ==> byteIndex == |data| - 1 - category / 8
      modifies counts
      ensures done <==> counts.Length < category + 8
      ensures forall i :: 0 <= i < counts.Length ==>
                counts[i] == old(counts[i]) + if category <= i < category + 8 && Bit(data, i) then 1 else 0
    {
      var bitMask: bv8 := 1;
      for bitIndex := 0 to 8
        invariant bitMask == Mask(bitIndex) && (0 < bitIndex ==> category + bitIndex <= counts.Length)
        invariant forall i :: 0 <= i < counts.Length ==>
                    counts[i] == old(counts[i]) + if category <= i < category + bitIndex && Bit(data, i) then 1 else 0
      {
        var c := category + bitIndex;
        if c >= counts.Length {
          return true;
        }
        assert c / 8 == category / 8 && c % 8 == bitIndex;
        if bitMask & data[byteIndex] != 0 {
          counts[c] := counts[c] + 1;
        }
        bitMask := bitMask << 1;
      }
      done := false;
    }

    /** The walk over one observation. The outer guard is always true, because the index is unsigned; the walk still
        ends at the last category, before it would read past the observation, at every width and at width zero. */
    method CountBits(data: Bytes)
      requires |data| == NumBytes(counts.Length) < SIZE_MAX
      modifies counts
      ensures forall i :: 0 <= i < counts.Length ==> counts[i] == old(counts[i]) + if Bit(data, i) then 1 else 0
    {
      var category := 0;
      var byteIndex := Decrement(|data|);
      while byteIndex >= 0
        invariant category % 8 == 0 && category / 8 <= |data|
        invariant byteIndex == if category / 8 < |data| then |data| - 1 - category / 8 else SIZE_MAX
        invariant forall i :: 0 <= i < counts.Length ==>
                    counts[i] == old(counts[i]) + if i < category && Bit(data, i) then 1 else 0
        decreases |data| - category / 8
      {
        var done := CountByte(data, byteIndex, category);
        if done {
          return;
        }
        category := category + 8;
        byteIndex := Decrement(byteIndex);
      }
    }

    /** AddObservation. */
    method AddObservation(data: Bytes) returns (ok: bool)
      requires Valid()
      modifies this`numObservations, this`observationErrors, this`accepted, counts
      ensures Valid()
      ensures ok <==> config.valid && |data| == numEncodingBytes
      ensures accepted == if ok then old(accepted) + [data] else old(accepted)
      ensures observationErrors == old(observationErrors) + if ok then 0 else 1
    {
      if !config.valid || |data| != numEncodingBytes {
        observationErrors := observationErrors + 1;
        return false;
      }
      numObservations := numObservations + 1;
      CountBits(data);
      accepted := accepted + [data];
      assert accepted[..|accepted| - 1] == old(accepted);
      ok := true;
    }

    /** What Analyze reports for category i. */
    ghost function Result(i: nat): CategoryResult
      reads this, counts
      requires Valid() && config.valid && i < |config.categories|
    {
      var y, n := CountBit(accepted, i), |accepted|;
      CategoryResult(config.categories[i], Estimate(y, n, config.p, config.q), SquaredError(y, n, config.p, config.q))
    }

    /** Analyze: one result for each category, in order. */
    method Analyze() returns (results: seq<CategoryResult>)
      requires Valid() && config.valid
      ensures |results| == |config.categories| && forall i :: 0 <= i < |results| ==> results[i] == Result(i)
      ensures 0.0 <= config.p <= 1.0 && 0.0 <= config.q <= 1.0 ==> forall i :: 0 <= i < |results| ==> 0.0 <= results[i].squaredError
    {
      results := [];
      for i := 0 to counts.Length
        invariant |results| == i && forall k :: 0 <= k < i ==> results[k] == Result(k)
      {
        var estimate := Estimate(counts[i], numObservations, config.p, config.q);
        var error := SquaredError(counts[i], numObservations, config.p, config.q);
        results := results + [CategoryResult(config.categories[i], estimate, error)];
      }
      if 0.0 <= config.p <= 1.0 && 0.0 <= config.q <= 1.0 {
        forall i | 0 <= i < |results| ensures 0.0 <= results[i].squaredError {
          CountAtMost(accepted, i);
          ErrorIsReal(CountBit(accepted, i), |accepted|, config.p, config.q);
        }
      }
    }
  }

  // ---------------------------------------------------------------- Encoder and analyzer agree

  function Occurrences(values: seq<ValuePart>, v: ValuePart): nat {
    if values == [] then 0
    else Occurrences(values[..|values| - 1], v) + if values[|values| - 1] == v then 1 else 0
  }

  /** The observations are the noise-free encodings of the values. */
  ghost predicate NoiseFree(config: Validator, values: seq<ValuePart>, observations: seq<Bytes>) {
    |values| == |observations| && forall k :: 0 <= k < |values| ==>
      && values[k] in config.categories
      && |observations[k]| == NumBytes(|config.categories|)
      && OneHot(observations[k], config.BitIndex(values[k]))
  }

  lemma NoiseFreeAppend(config: Validator, values: seq<ValuePart>, observations: seq<Bytes>, value: ValuePart, data: Bytes,
                        pMask: Bytes, qMask: Bytes)
    requires NoiseFree(config, values, observations) && value in config.categories && config.p <= 0.0 && config.q >= 1.0
    requires |pMask| == |qMask| == NumBytes(|config.categories|)
    requires Encodes(data, |config.categories|, config.BitIndex(value), config.p, config.q, pMask, qMask)
    ensures NoiseFree(config, values + [value], observations + [data])
  {
    assert OneHot(data, config.BitIndex(value));
  }

  /** The bits count the encoded values. */
  lemma {:induction false} BitsCountValues(config: Validator, values: seq<ValuePart>, observations: seq<Bytes>, i: nat)
    requires config.OneBitEach() && NoiseFree(config, values, observations) && i < |config.categories|
    ensures CountBit(observations, i) == Occurrences(values, config.categories[i])
  {
    if values != [] {
      var last := |values| - 1;
      BitsCountValues(config, values[..last], observations[..last], i);
      assert Bit(observations[last], i) <==> i == config.BitIndex(values[last]);
      var k :| 0 <= k < |config.categories| && config.categories[k] == values[last];
    }
  }

  /** With p = 0 and q = 1, encoding any values and analyzing them gives the exact number of times each category was
      encoded, with error 0. */
  lemma NoiseFreeAnalysisIsExact(config: Validator, values: seq<ValuePart>, observations: seq<Bytes>, i: nat)
    requires config.OneBitEach() && NoiseFree(config, values, observations) && i < |config.categories|
    requires config.p == 0.0 && config.q == 1.0
    ensures Estimate(CountBit(observations, i), |observations|, config.p, config.q) ==
            Occurrences(values, config.categories[i]) as real
    ensures SquaredError(CountBit(observations, i), |observations|, config.p, config.q) == 0.0
  {
    BitsCountValues(config, values, observations, i);
  }

  /** The estimator inverts the flipping: if of n observations c had the bit before, and the flipping kept and set the
      exact expected numbers, then the estimate is c. */
  lemma EstimateInvertsFlipping(y: nat, n: nat, c: nat, p: real, q: real)
    requires p != q && c <= n && y as real == q * c as real + p * (n - c) as real
    ensures Estimate(y, n, p, q) == c as real
  {
    assert y as real - p * n as real == (q - p) * c as real;
  }

  /** Encoder and analyzer together: every value encoded and added, then one analysis. */
  method AnalyzeEncodings(config: Validator, values: seq<ValuePart>) returns (results: seq<CategoryResult>)
    requires config.valid && config.OneBitEach() && config.p == 0.0 && config.q == 1.0
    requires forall v :: v in values ==> v in config.categories
    ensures |results| == |config.categories|
    ensures forall i :: 0 <= i < |results| ==>
              results[i] == CategoryResult(config.categories[i], Occurrences(values, config.categories[i]) as real, 0.0)
  {
    var analyzer := new BasicRapporAnalyzer(config);
    var zeros: Bytes := seq(NumBytes(|config.categories|), _ => 0);
    for k := 0 to |values|
      invariant analyzer.Valid() && analyzer.config == config && fresh(analyzer) && fresh(analyzer.counts)
      invariant NoiseFree(config, values[..k], analyzer.accepted)
    {
      var status, observation := Encode(config, true, values[k], zeros, zeros);
      NoiseFreeAppend(config, values[..k], analyzer.accepted, values[k], observation, zeros, zeros);
      assert values[..k + 1] == values[..k] + [values[k]];
      var _ := analyzer.AddObservation(observation);
    }
    assert values[..|values|] == values;
    results := analyzer.Analyze();
    forall i | 0 <= i < |results|
      ensures results[i] == CategoryResult(config.categories[i], Occurrences(values, config.categories[i]) as real, 0.0)
    {
      NoiseFreeAnalysisIsExact(config, values, analyzer.accepted, i);
    }
  }
}

/**
 * Integers in property data: big-endian two's complement, scaling, sentinel, and the encoding used by SET.
 * Values are reals; a conversion to int64 that does not fit yields whatever the platform gives.
 */
module Encoder {
  import opened Bytes
  import opened Results
  import opened Numeric
  import opened Specs

  const MAX_INTEGER_BYTES := 8

  datatype EdtError =
    | EmptyAutoSized | EdtTooShort(got: nat, need: nat) | EmptyInteger | IntegerTooWide(width: nat)
    | InvalidSentinel(raw: Int64)

  datatype EncodeError = AutoSize | UnsupportedSize(size: nat)

  // ----- Integers -----

  /** The number a byte string stands for. */
  function IntegerValue(raw: seq<Byte>, signed: bool): int
    requires |raw| > 0
  {
    if signed && raw[0] >= 0x80 then BigEndian(raw) - Pow256(|raw|) else BigEndian(raw)
  }

  function AsInt64(u: nat): Int64
    requires u < 0x1_0000_0000_0000_0000
  {
    if u < 0x8000_0000_0000_0000 then u else u - 0x1_0000_0000_0000_0000
  }

  /** The top bit of the first byte says whether a number is in the upper half of its range. */
  lemma TopBit(top: int, value: int, q: int)
    requires 0 < q && top * q <= value < (top + 1) * q
    ensures top >= 0x80 <==> value >= 128 * q
  {
  }

  lemma IntegerFits(raw: seq<Byte>, signed: bool)
    requires 0 < |raw| <= 8 && (signed || |raw| < 8)
    ensures -0x8000_0000_0000_0000 <= IntegerValue(raw, signed) < 0x8000_0000_0000_0000
    ensures Lowest(|raw|, signed) <= IntegerValue(raw, signed) <= Highest(|raw|, signed)
  {
    var p, q := Pow256(|raw|), Pow256(|raw| - 1);
    BigEndianBound(raw);
    BigEndianTop(raw);
    TopBit(raw[0], BigEndian(raw), q);
    assert p == 256 * q && p <= 0x1_0000_0000_0000_0000 && (|raw| < 8 ==> p <= 0x100_0000_0000_0000) by {
      Pow256Values();
    }
  }

  /** An eight-byte payload is read as signed whether or not the metric says so. */
  function IntegerOf(raw: seq<Byte>, signed: bool): Result<Int64, EdtError> {
    if |raw| == 0 then Err(EmptyInteger)
    else if |raw| > MAX_INTEGER_BYTES then Err(IntegerTooWide(|raw|))
    else
      IntegerFits(raw, signed || |raw| == 8);
      Ok(IntegerValue(raw, signed || |raw| == 8))
  }

  lemma BigEndianStep(raw: seq<Byte>, i: nat)
    requires i < |raw| <= MAX_INTEGER_BYTES
    ensures BigEndian(raw[..i + 1]) == 256 * BigEndian(raw[..i]) + raw[i] as int < 0x1_0000_0000_0000_0000
  {
    assert raw[..i + 1][..i] == raw[..i];
    BigEndianBound(raw[..i + 1]);
    Pow256Monotone(i + 1, 8);
    Pow256Values();
  }

  lemma SignExtended(raw: seq<Byte>)
    requires 0 < |raw| <= MAX_INTEGER_BYTES
    ensures |raw| < 8 ==> Pow256(|raw|) <= 0x100_0000_0000_0000
    ensures BigEndian(raw) < 0x1_0000_0000_0000_0000
    ensures |raw| == 8 || raw[0] < 0x80 ==> AsInt64(BigEndian(raw)) == IntegerValue(raw, |raw| == 8)
    ensures |raw| < 8 ==> AsInt64(BigEndian(raw)) == BigEndian(raw)
  {
    BigEndianBound(raw);
    BigEndianTop(raw);
    TopBit(raw[0], BigEndian(raw), Pow256(|raw| - 1));
    Pow256Values();
  }

  method ParseInteger(raw: seq<Byte>, signed: bool) returns (r: Result<Int64, EdtError>)
    ensures r == IntegerOf(raw, signed)
  {
    if |raw| == 0 {
      return Err(EmptyInteger);
    }
    if |raw| > MAX_INTEGER_BYTES {
      return Err(IntegerTooWide(|raw|));
    }
    var u: nat := 0;
    for i := 0 to |raw|
      invariant u == BigEndian(raw[..i])
    {
      BigEndianStep(raw, i);
      u := u * 256 % 0x1_0000_0000_0000_0000 + raw[i];
    }
    assert raw[..|raw|] == raw;
    SignExtended(raw);
    if !signed || raw[0] < 0x80 {
      return Ok(AsInt64(u));
    }
    var shifted: Int64 := if |raw| == 8 then 0 else Pow256(|raw|);
    return Ok(AsInt64(u) - shifted);
  }

  lemma {:induction false} Pow256Monotone(m: nat, n: nat)
    requires m <= n
    ensures Pow256(m) <= Pow256(n)
    decreases n
  {
    if m < n {
      Pow256Monotone(m, n - 1);
    }
  }

  /** The integer read is the mathematical value, except for unsigned eight-byte payloads with the top bit set. */
  lemma IntegerIsMathematical(raw: seq<Byte>, signed: bool)
    requires 0 < |raw| <= 8
    ensures IntegerOf(raw, signed) == Ok(IntegerValue(raw, signed)) <==> (signed || |raw| < 8 || raw[0] < 0x80)
  {
  }

  // ----- Decoding -----

  /** The value of a raw integer: scaled, and rounded to the decimals of the scale when that is below one. */
  function Scaled(raw: Int64, scale: real): real {
    var v := raw as real * scale;
    if 0.0 < scale < 1.0 then
      Snap(v, Pow10(Digits(scale)))
    else v
  }

  method ScaleRaw(raw: Int64, scale: real) returns (v: real)
    ensures v == Scaled(raw, scale)
  {
    v := raw as real * scale;
    if scale > 0.0 && scale < 1.0 {
      var digits := Digits(scale);
      v := Snap(v, Pow10(digits));
    }
  }

  function WidthOf(edt: seq<Byte>, m: MetricSpec): int {
    if m.size == 0 then |edt| - m.offset else m.size
  }

  function ValueOf(edt: seq<Byte>, m: MetricSpec): Result<real, EdtError> {
    var size := WidthOf(edt, m);
    if size <= 0 then Err(EmptyAutoSized)
    else if |edt| < m.offset + size then Err(EdtTooShort(|edt|, m.offset + size))
    else
      match IntegerOf(edt[m.offset..m.offset + size], m.signed)
      case Err(e) => Err(e)
      case Ok(raw) => if m.invalid == Some(raw) then Err(InvalidSentinel(raw)) else Ok(Scaled(raw, m.scale))
  }

  /** A payload is too short for its metric when the metric's bytes are not all there. */
  lemma ShortPayload(edt: seq<Byte>, m: MetricSpec)
    ensures m.size == 0 && |edt| <= m.offset ==> ValueOf(edt, m) == Err(EmptyAutoSized)
    ensures m.size > 0 && |edt| < m.offset + m.size ==> ValueOf(edt, m) == Err(EdtTooShort(|edt|, m.offset + m.size))
    ensures m.size == 0 && |edt| > m.offset + 8 ==> ValueOf(edt, m).Err?
  {
  }

  /** A metric with an offset reads its own bytes and no others: what surrounds them does not matter. */
  lemma OffsetSelects(before: seq<Byte>, edt: seq<Byte>, after: seq<Byte>, m: MetricSpec)
    requires |before| == m.offset
    ensures 0 < m.size == |edt| ==> ValueOf(before + edt + after, m) == ValueOf(edt, m.(offset := 0))
    ensures m.size == 0 && edt != [] ==> ValueOf(before + edt, m) == ValueOf(edt, m.(offset := 0, size := |edt|))
  {
    assert (before + edt + after)[m.offset..m.offset + |edt|] == edt;
    assert (before + edt)[m.offset..m.offset + |edt|] == edt;
    assert edt[0..|edt|] == edt;
  }

  /** The current of the second phase of a circuit: bytes three and four, 2.0 A next to 1.0 A. */
  lemma SecondPhase(m: MetricSpec)
    requires m.offset == 2 && m.size == 2 && m.signed && m.scale == 0.1 && m.invalid == None
    ensures ValueOf([0, 10, 0, 20], m) == Ok(2.0)
  {
    assert [0, 10, 0, 20][2..4] == [0 as Byte, 20];
    assert [0 as Byte, 20][..1] == [0] && [0 as Byte][..0] == [];
    assert BigEndian([0, 20]) == 20;
    assert IntegerOf([0, 20], true) == Ok(20);
    TenthsOf(20);
  }

  lemma TenthsOf(raw: Int64)
    ensures Scaled(raw, 0.1) == Snap(raw as real * 0.1, 10.0)
    ensures raw == 20 ==> Scaled(raw, 0.1) == 2.0
  {
    assert Pow10(1) == 10.0;
    DigitsOfPower(1);
    assert Digits(0.1) == 1;
  }

  method ParseEdt(edt: seq<Byte>, m: MetricSpec) returns (r: Result<real, EdtError>)
    ensures r == ValueOf(edt, m)
  {
    var size: int := m.size;
    if size == 0 {
      size := |edt| - m.offset;
    }
    if size <= 0 {
      return Err(EmptyAutoSized);
    }
    if |edt| < m.offset + size {
      return Err(EdtTooShort(|edt|, m.offset + size));
    }
    var rawValue := ParseInteger(edt[m.offset..m.offset + size], m.signed);
    if rawValue.Err? {
      return Err(rawValue.error);
    }
    if m.invalid.Some? && rawValue.value == m.invalid.value {
      return Err(InvalidSentinel(rawValue.value));
    }
    var v := ScaleRaw(rawValue.value, m.scale);
    return Ok(v);
  }

  // ----- Encoding -----

  predicate FitsInt64(n: int) {
    -0x8000_0000_0000_0000 <= n < 0x8000_0000_0000_0000
  }

  /** int64(x) for an integral float: outside int64 the result is the platform's, taken here as arbitrary. */
  function ToInt64(n: int, platform: Int64): Int64 {
    if FitsInt64(n) then n else platform
  }

  function EncodingScale(m: MetricSpec): real {
    if m.scale == 0.0 then 1.0 else m.scale
  }

  /** The raw integer nearest to a value: its code for an enum, its number of scale units otherwise. */
  function NearestRaw(value: real, m: MetricSpec): int {
    if m.labels != map[] then Round(value) else UnitsOf(value, EncodingScale(m))
  }

  function Clamp(raw: int, size: nat, signed: bool): int {
    if raw < Lowest(size, signed) then Lowest(size, signed)
    else if raw > Highest(size, signed) then Highest(size, signed)
    else raw
  }

  function RawFor(value: real, m: MetricSpec, platform: Int64): int {
    Clamp(ToInt64(NearestRaw(value, m), platform), m.size, m.signed)
  }

  /** The last n big-endian bytes of a number. */
  function LowBytes(u: nat, n: nat): (b: seq<Byte>)
    ensures |b| == n
  {
    if n == 0 then [] else LowBytes(u / 256, n - 1) + [u % 256]
  }

  predicate Encodable(m: MetricSpec) {
    m.size == 1 || m.size == 2 || m.size == 4
  }

  method ClampRaw(n: Int64, size: nat, signed: bool) returns (raw: Int64)
    requires size == 1 || size == 2 || size == 4
    ensures raw == Clamp(n, size, signed)
  {
    raw := n;
    Pow256Values();
    if signed {
      var maxPos, minNeg := Pow256(size) / 2 - 1, -(Pow256(size) / 2);
      if raw > maxPos {
        raw := maxPos;
      }
      if raw < minNeg {
        raw := minNeg;
      }
    } else {
      if raw < 0 {
        raw := 0;
      }
      var maxVal := Pow256(size) - 1;
      if raw > maxVal {
        raw := maxVal;
      }
    }
  }

  method EncodeValueToEdt(value: real, m: MetricSpec, platform: Int64) returns (r: Result<seq<Byte>, EncodeError>)
    ensures m.size == 0 ==> r == Err(AutoSize)
    ensures m.size != 0 && !Encodable(m) ==> r == Err(UnsupportedSize(m.size))
    ensures Encodable(m) ==> r == Ok(EdtFor(value, m, platform))
    ensures r.Ok? <==> m.size in {1, 2, 4}
  {
    var size := m.size;
    if size == 0 {
      return Err(AutoSize);
    }
    if size != 1 && size != 2 && size != 4 {
      return Err(UnsupportedSize(size));
    }
    var raw: Int64;
    if m.labels != map[] {
      raw := ToInt64(Round(value), platform);
    } else {
      var scale := if m.scale == 0.0 then 1.0 else m.scale;
      raw := ToInt64(UnitsOf(value, scale), platform);
    }
    raw := ClampRaw(raw, size, m.signed);
    assert raw == RawFor(value, m, platform);
    var edt := BigEndianBytes(raw % Pow256(size), size);
    return Ok(edt);
  }

  /** The output array is filled from its end. */
  method BigEndianBytes(value: nat, size: nat) returns (b: seq<Byte>)
    ensures b == LowBytes(value, size)
  {
    var u := value;
    var out := new Byte[size];
    for i := size downto 0
      invariant LowBytes(u, i) + out[i..] == LowBytes(value, size)
    {
      ghost var done := out[i + 1..];
      out[i] := u % 256;
      u := u / 256;
      assert out[i..] == [out[i]] + done;
    }
    assert LowBytes(u, 0) + out[0..] == out[..];
    b := out[..];
  }

  function EdtFor(value: real, m: MetricSpec, platform: Int64): (edt: seq<Byte>)
    requires Encodable(m)
    ensures |edt| == m.size
  {
    LowBytes(RawFor(value, m, platform) % Pow256(m.size), m.size)
  }

  /** A scale of zero stands for one. */
  lemma NoScaleIsOne(value: real, m: MetricSpec, platform: Int64)
    requires Encodable(m) && m.scale == 0.0
    ensures EdtFor(value, m, platform) == EdtFor(value, m.(scale := 1.0), platform)
  {
  }

  // ----- The integer round trip -----

  lemma {:induction false} LowBytesValue(u: nat, n: nat)
    requires u < Pow256(n)
    ensures BigEndian(LowBytes(u, n)) == u
  {
    if n == 0 {
    } else {
      LowBytesValue(u / 256, n - 1);
      var b := LowBytes(u, n);
      assert b[..n - 1] == LowBytes(u / 256, n - 1);
    }
  }

  lemma ClampRange(raw: int, size: nat, signed: bool)
    requires size == 1 || size == 2 || size == 4
    ensures Lowest(size, signed) <= Clamp(raw, size, signed) <= Highest(size, signed)
    ensures FitsInt64(Clamp(raw, size, signed))
    ensures Clamp(raw, size, signed) == raw <==> Lowest(size, signed) <= raw <= Highest(size, signed)
  {
  }

  lemma Residue(raw: int, p: int)
    requires 0 < p && -p <= raw < p
    ensures raw % p == if raw >= 0 then raw else raw + p
  {
  }

  /** A byte string holding a number, or its two's complement, stands for that number. */
  lemma ReadsBack(b: seq<Byte>, raw: int, signed: bool)
    requires |b| == 1 || |b| == 2 || |b| == 4
    requires Lowest(|b|, signed) <= raw <= Highest(|b|, signed)
    requires BigEndian(b) == if raw >= 0 then raw else raw + Pow256(|b|)
    ensures FitsInt64(raw) && IntegerOf(b, signed) == Ok(raw)
  {
    var p, q := Pow256(|b|), Pow256(|b| - 1);
    BigEndianTop(b);
    TopBit(b[0], BigEndian(b), q);
    assert p == 256 * q && p <= 0x1_0000_0000 by {
      Pow256Values();
    }
    assert signed && b[0] >= 0x80 <==> raw < 0;
    assert IntegerValue(b, signed) == raw;
  }

  /** Writing a number that fits and reading it back. */
  lemma BytesRoundTrip(raw: int, size: nat, signed: bool)
    requires size == 1 || size == 2 || size == 4
    requires Lowest(size, signed) <= raw <= Highest(size, signed)
    ensures FitsInt64(raw) && IntegerOf(LowBytes(raw % Pow256(size), size), signed) == Ok(raw)
  {
    var p := Pow256(size);
    assert 0 < p && -p <= raw < p by {
      Pow256Values();
    }
    Residue(raw, p);
    LowBytesValue(raw % p, size);
    ReadsBack(LowBytes(raw % p, size), raw, signed);
  }

  // ----- The value round trip -----

  /** The distance between neighbouring decoded values. */
  function Step(scale: real): real
    requires scale > 0.0
  {
    if scale >= 1.0 then scale else 1.0 / Pow10(Digits(scale))
  }

  /** How far a scale below one is from the power of ten that it is taken for, relative to it. */
  function Drift(scale: real): real
    requires scale > 0.0
  {
    scale * Pow10(Digits(scale)) - 1.0
  }

  /** The drift of this many units rounds away; ties round away from zero. */
  predicate Stays(raw: int, drift: real) {
    RoundsAway(raw >= 0, raw as real * drift)
  }

  predicate RoundsAway(positive: bool, x: real) {
    if positive then -0.5 <= x < 0.5 else -0.5 < x <= 0.5
  }

  /** The drift of the extreme raw values rounds away. */
  predicate GridScale(m: MetricSpec) {
    || m.scale >= 1.0
    || (0.0 < m.scale && Stays(Highest(m.size, m.signed), Drift(m.scale)) &&
        Stays(Lowest(m.size, m.signed), Drift(m.scale)))
  }

  lemma RoundStays(x: real, r: int)
    requires r != 0
    ensures Round(r as real + x) == r <==> if r > 0 then -0.5 <= x < 0.5 else -0.5 < x <= 0.5
  {
  }

  lemma Associate(n: real, scale: real, factor: real, drift: real)
    requires drift == scale * factor - 1.0
    ensures (n * scale) * factor == n + n * drift
  {
  }

  lemma SameQuotient(a: int, b: int, factor: real)
    requires factor > 0.0
    ensures a as real / factor == Multiple(b, 1.0 / factor) <==> a == b
  {
  }

  lemma SnapOnGrid(r: int, scale: real, factor: real)
    requires factor > 0.0
    ensures Snap(r as real * scale, factor) == Multiple(r, 1.0 / factor) <==> Stays(r, scale * factor - 1.0)
  {
    var drift := scale * factor - 1.0;
    Associate(r as real, scale, factor, drift);
    DriftRounds(r, drift);
    SnapOf(r as real * scale, factor, r as real + r as real * drift, r);
  }

  lemma SnapOf(v: real, factor: real, product: real, r: int)
    requires factor > 0.0 && v * factor == product
    ensures Snap(v, factor) == Multiple(r, 1.0 / factor) <==> Round(product) == r
  {
    SameQuotient(Round(product), r, factor);
  }

  lemma DriftRounds(r: int, drift: real)
    ensures Round(r as real + r as real * drift) == r <==> Stays(r, drift)
  {
    var x := r as real * drift;
    if r != 0 {
      RoundStays(x, r);
    } else {
      assert x == 0.0;
    }
  }

  lemma BelowOne(raw: Int64, scale: real, factor: real)
    requires 0.0 < scale < 1.0 && factor == Pow10(Digits(scale))
    ensures Scaled(raw, scale) == Snap(raw as real * scale, factor)
    ensures Step(scale) == 1.0 / factor && Drift(scale) == scale * factor - 1.0
  {
  }

  lemma ScaledOnGrid(raw: Int64, scale: real)
    requires scale > 0.0
    ensures Scaled(raw, scale) == Multiple(raw, Step(scale)) <==> scale >= 1.0 || Stays(raw, Drift(scale))
  {
    if scale < 1.0 {
      var factor := Pow10(Digits(scale));
      BelowOne(raw, scale, factor);
      SnapOnGrid(raw, scale, factor);
    }
  }

  lemma ProductBetween(n: real, k: real, e: real)
    requires 0.0 <= n <= k
    ensures 0.0 <= n * e <= k * e || k * e <= n * e <= 0.0
  {
  }

  lemma RoundsBetween(positive: bool, x: real, y: real)
    requires 0.0 <= x <= y || y <= x <= 0.0
    requires RoundsAway(positive, y)
    ensures RoundsAway(positive, x)
  {
  }

  lemma StaysBelow(raw: int, high: int, drift: real)
    requires 0 <= raw <= high && Stays(high, drift)
    ensures Stays(raw, drift)
  {
    ProductBetween(raw as real, high as real, drift);
    RoundsBetween(true, raw as real * drift, high as real * drift);
  }

  lemma StaysAbove(low: int, raw: int, drift: real)
    requires low <= raw < 0 && Stays(low, drift)
    ensures Stays(raw, drift)
  {
    NegatedBetween(raw as real, low as real, drift);
    RoundsBetween(false, raw as real * drift, low as real * drift);
  }

  lemma Negated(n: real, e: real)
    ensures (-n) * e == -(n * e)
  {
  }

  lemma NegatedBetween(n: real, k: real, e: real)
    requires k <= n <= 0.0
    ensures 0.0 <= n * e <= k * e || k * e <= n * e <= 0.0
  {
    Negated(n, e);
    Negated(k, e);
    ProductBetween(-n, -k, e);
  }

  lemma StaysBetween(low: int, raw: int, high: int, drift: real)
    requires low <= raw <= high && low <= 0 <= high && Stays(low, drift) && Stays(high, drift)
    ensures Stays(raw, drift)
  {
    if raw >= 0 {
      StaysBelow(raw, high, drift);
    } else {
      StaysAbove(low, raw, drift);
    }
  }

  /** Every raw value of a metric decodes to its multiple of the step exactly when the two extreme ones do not drift. */
  lemma GridScaleIsExact(m: MetricSpec)
    requires Encodable(m) && m.scale > 0.0
    ensures GridScale(m) <==>
            forall raw: Int64 :: Lowest(m.size, m.signed) <= raw <= Highest(m.size, m.signed) ==>
                                   Scaled(raw, m.scale) == Multiple(raw, Step(m.scale))
  {
    var low, high := Lowest(m.size, m.signed), Highest(m.size, m.signed);
    RangeBound(m.size, m.signed);
    ScaledOnGrid(low, m.scale);
    ScaledOnGrid(high, m.scale);
    if GridScale(m) {
      forall raw: Int64 | low <= raw <= high ensures Scaled(raw, m.scale) == Multiple(raw, Step(m.scale)) {
        ScaledOnGrid(raw, m.scale);
        if m.scale < 1.0 {
          StaysBetween(low, raw, high, Drift(m.scale));
        }
      }
    }
  }

  /** An exact power of ten does not drift at all. */
  lemma PowerOfTenIsExact(d: nat)
    ensures Drift(1.0 / Pow10(d)) == 0.0 && Step(1.0 / Pow10(d)) == 1.0 / Pow10(d)
  {
    DigitsOfPower(d);
  }

  /** Every positive scale the loader accepts with at most two decimals decodes to the right multiples. */
  lemma AcceptedTwoDigitsIsExact(m: MetricSpec)
    requires Encodable(m) && m.scale > 0.0 && AcceptedScale(m.scale) && Digits(m.scale) <= 2
    ensures GridScale(m)
  {
    RangeBound(m.size, m.signed);
    if m.scale < 1.0 {
      DigitsLeast(m.scale);
      var d := Digits(m.scale);
      assert Pow10(0) == 1.0 && Pow10(1) == 10.0 && Pow10(2) == 100.0;
      var e := Drift(m.scale);
      if d == 1 {
        assert Abs(0.1 - m.scale) <= 0.000000000001;
      } else {
        assert Abs(0.01 - m.scale) <= 0.000000000001;
      }
      assert Abs(e) <= 0.0000000001;
      SmallDrift(Lowest(m.size, m.signed), e);
      SmallDrift(Highest(m.size, m.signed), e);
    }
  }

  lemma SmallDrift(raw: int, e: real)
    requires -0x1_0000_0000 <= raw <= 0x1_0000_0000 && -0.0000000001 <= e <= 0.0000000001
    ensures Stays(raw, e)
  {
    assert 0x1_0000_0000 as real == 4294967296.0 && (-0x1_0000_0000) as real == -4294967296.0;
    assert Stays(0x1_0000_0000, e) && Stays(-0x1_0000_0000, e);
    StaysBetween(-0x1_0000_0000, raw, 0x1_0000_0000, e);
  }

  lemma RangeBound(size: nat, signed: bool)
    requires size == 1 || size == 2 || size == 4
    ensures -0x1_0000_0000 <= Lowest(size, signed) <= 0 < Highest(size, signed) <= 0x1_0000_0000
  {
  }

  lemma ValueOfWhole(edt: seq<Byte>, m: MetricSpec)
    requires m.offset == 0 && 0 < m.size == |edt|
    ensures ValueOf(edt, m) ==
            match IntegerOf(edt, m.signed)
            case Err(e) => Err(e)
            case Ok(raw) => if m.invalid == Some(raw) then Err(InvalidSentinel(raw)) else Ok(Scaled(raw, m.scale))
  {
    assert edt[0..m.size] == edt;
  }

  /**
   * Decoding an encoded value gives the clamped nearest multiple of the step, unless that raw value is the
   * metric's invalid sentinel.
   */
  lemma ValueRoundTrip(value: real, m: MetricSpec, platform: Int64)
    requires Encodable(m) && m.offset == 0 && GridScale(m)
    ensures ValueOf(EdtFor(value, m, platform), m) ==
            var raw := RawFor(value, m, platform);
            if m.invalid == Some(raw) then Err(InvalidSentinel(raw)) else Ok(Multiple(raw, Step(m.scale)))
  {
    var raw := RawFor(value, m, platform);
    var edt := EdtFor(value, m, platform);
    ClampRange(ToInt64(NearestRaw(value, m), platform), m.size, m.signed);
    BytesRoundTrip(raw, m.size, m.signed);
    GridScaleIsExact(m);
    ValueOfWhole(edt, m);
  }

  // ----- What the round trip means over the reals -----

  predicate NumericSpec(m: MetricSpec) {
    Encodable(m) && m.labels == map[] && m.scale > 0.0 && Step(m.scale) == m.scale
  }

  /** The value that comes back: clamp(round(v / scale)) * scale. */
  function Quantized(value: real, m: MetricSpec): real
    requires NumericSpec(m)
  {
    Multiple(Clamp(UnitsOf(value, m.scale), m.size, m.signed), m.scale)
  }

  /** The least and greatest values the metric can carry. */
  function LowestValue(m: MetricSpec): real {
    Multiple(Lowest(m.size, m.signed), m.scale)
  }

  function HighestValue(m: MetricSpec): real {
    Multiple(Highest(m.size, m.signed), m.scale)
  }

  /**
   * A numeric metric reads back what was written, quantized; only the invalid sentinel is refused. A value too large
   * for int64 becomes whatever the platform converts it to, clamped, so it too reads back quantized exactly when that
   * clamps to the same limit.
   */
  lemma NumericRoundTrip(value: real, m: MetricSpec, platform: Int64)
    requires NumericSpec(m) && m.offset == 0
    ensures var raw := RawFor(value, m, platform);
            ValueOf(EdtFor(value, m, platform), m) ==
            if m.invalid == Some(raw) then Err(InvalidSentinel(raw)) else Ok(Multiple(raw, m.scale))
    ensures Multiple(RawFor(value, m, platform), m.scale) == Quantized(value, m) <==>
            -0x8000_0000_0000_0000 <= NearestRaw(value, m) < 0x8000_0000_0000_0000 ||
                Clamp(platform, m.size, m.signed) == Clamp(NearestRaw(value, m), m.size, m.signed)
  {
    if m.scale < 1.0 {
      var p := Pow10(Digits(m.scale));
      assert 1.0 / p * p == 1.0;
      assert Drift(m.scale) == 0.0;
    }
    ValueRoundTrip(value, m, platform);
    MultipleInjective(RawFor(value, m, platform), Clamp(NearestRaw(value, m), m.size, m.signed), m.scale);
  }

  lemma MultipleInjective(j: int, k: int, s: real)
    requires s > 0.0
    ensures Multiple(j, s) == Multiple(k, s) <==> j == k
  {
    UnitsOfMultiple(j, s);
    UnitsOfMultiple(k, s);
  }

  lemma UnitsInRange(value: real, m: MetricSpec)
    requires NumericSpec(m)
    ensures value >= LowestValue(m) ==> UnitsOf(value, m.scale) >= Lowest(m.size, m.signed)
    ensures value <= LowestValue(m) ==> UnitsOf(value, m.scale) <= Lowest(m.size, m.signed)
    ensures value >= HighestValue(m) ==> UnitsOf(value, m.scale) >= Highest(m.size, m.signed)
    ensures value <= HighestValue(m) ==> UnitsOf(value, m.scale) <= Highest(m.size, m.signed)
  {
    var lo, hi, s := Lowest(m.size, m.signed), Highest(m.size, m.signed), m.scale;
    UnitsOfMultiple(lo, s);
    UnitsOfMultiple(hi, s);
    if value >= LowestValue(m) {
      UnitsMonotone(LowestValue(m), value, s);
    }
    if value <= LowestValue(m) {
      UnitsMonotone(value, LowestValue(m), s);
    }
    if value >= HighestValue(m) {
      UnitsMonotone(HighestValue(m), value, s);
    }
    if value <= HighestValue(m) {
      UnitsMonotone(value, HighestValue(m), s);
    }
  }

  /** In range the error is at most half a step; outside it the extreme value comes back. */
  lemma QuantizedError(value: real, m: MetricSpec)
    requires NumericSpec(m)
    ensures LowestValue(m) <= value <= HighestValue(m) ==> Abs(Quantized(value, m) - value) <= m.scale / 2.0
    ensures value <= LowestValue(m) ==> Quantized(value, m) == LowestValue(m)
    ensures value >= HighestValue(m) ==> Quantized(value, m) == HighestValue(m)
  {
    RangeBound(m.size, m.signed);
    UnitsInRange(value, m);
    UnitsError(value, m.scale);
  }

  /** Every multiple of the scale in range comes back unchanged. */
  lemma QuantizedExactOnGrid(k: int, m: MetricSpec)
    requires NumericSpec(m) && Lowest(m.size, m.signed) <= k <= Highest(m.size, m.signed)
    ensures Quantized(Multiple(k, m.scale), m) == Multiple(k, m.scale)
  {
    UnitsOfMultiple(k, m.scale);
  }

  lemma ClampMonotone(a: int, b: int, size: nat, signed: bool)
    requires a <= b && Lowest(size, signed) <= Highest(size, signed)
    ensures Clamp(a, size, signed) <= Clamp(b, size, signed)
  {
  }

  lemma QuantizedMonotone(v: real, w: real, m: MetricSpec)
    requires NumericSpec(m) && v <= w
    ensures Quantized(v, m) <= Quantized(w, m)
  {
    UnitsMonotone(v, w, m.scale);
    RangeBound(m.size, m.signed);
    var a, b := UnitsOf(v, m.scale), UnitsOf(w, m.scale);
    ClampMonotone(a, b, m.size, m.signed);
    MultipleMonotone(Clamp(a, m.size, m.signed), Clamp(b, m.size, m.signed), m.scale);
  }

  /**
   * The loader's tolerance is absolute, so with three or more decimals it admits scales that decode to the
   * wrong multiple: 0.001000000001 is accepted, and the raw value 2^32 - 1 comes back as 2^32 + 3 thousandths.
   */
  lemma ToleranceTooWide(m: MetricSpec)
    requires m.scale == 0.001000000001 && m.size == 4 && !m.signed
    ensures AcceptedScale(m.scale) && !GridScale(m)
    ensures Step(m.scale) == 0.001 && Scaled(0xFFFF_FFFF, m.scale) == Multiple(0x1_0000_0003, 0.001)
  {
  }
}

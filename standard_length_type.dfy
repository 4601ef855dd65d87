/** STANDARD-LENGTH-TYPE: a diag coded type of fixed bit length with an
    optional BIT-MASK, applied either as a plain AND or "condensed" (the masked
    bits packed together), and the used-bits mask handed to the encoder. */
module StandardLength {
  import opened Odx
  import opened Bits
  import opened Bytes
  import opened Text

  /** The fields of the DiagCodedType base that this type reads (its
      construction from XML is not part of this model) and its own three. */
  datatype StandardLengthType = StandardLengthType(
    baseDataType: DataType,
    baseTypeEncoding: Option<string>,
    isHighLowByteOrder: bool,
    bitLength: nat,
    bitMask: Option<nat>,
    isCondensedRaw: Option<bool>)

  /** The already-extracted XML of a STANDARD-LENGTH-TYPE: the texts of
      BIT-LENGTH and BIT-MASK and the IS-CONDENSED attribute as a boolean. */
  datatype StandardLengthTypeElement = StandardLengthTypeElement(
    bitLengthText: Option<string>,
    bitMaskText: Option<string>,
    isCondensedRaw: Option<bool>)

  const DctType: string := "STANDARD-LENGTH-TYPE"

  predicate IsCondensed(t: StandardLengthType)
  {
    t.isCondensedRaw == Some(true)
  }

  /** Only these base types may carry a bit mask. */
  predicate Maskable(d: DataType)
  {
    d == AUInt32 || d == AInt32 || d == AByteField
  }

  function StaticBitLength(t: StandardLengthType): nat
  {
    if t.bitMask.Some? && IsCondensed(t) then Popcount(t.bitMask.value) else t.bitLength
  }

  /** get_static_bit_length: the number of mask bits when condensed, whatever
      the declared length; the declared length otherwise, mask or not. */
  lemma StaticBitLengthCases(t: StandardLengthType, declared: nat)
    ensures t.bitMask.Some? && IsCondensed(t) ==>
              StaticBitLength(t) == Popcount(t.bitMask.value)
              && StaticBitLength(t.(bitLength := declared)) == StaticBitLength(t)
    ensures t.bitMask.None? || !IsCondensed(t) ==> StaticBitLength(t) == t.bitLength
    ensures IsCondensed(t) <==> t.isCondensedRaw == Some(true)
  {
  }

  // ---------------------------------------------------------------------
  // Reading the XML

  /** `int(odxrequire(text))` for the BIT-LENGTH text. */
  function ParseBitLength(text: Option<string>, strict: bool): (r: Outcome<nat>)
    ensures text.None? ==> r.Err?
    ensures r.Ok? ==> Strip(text.value) != [] && AllDecimal(Strip(text.value))
                      && r.value == DecimalValue(Strip(text.value))
    ensures text.Some? && Strip(text.value) != [] && AllDecimal(Strip(text.value)) ==> r.Ok?
  {
    match text
    case None =>
      // strict: odxrequire raises; otherwise int(None) raises a TypeError
      if strict then Err(OdxError("BIT-LENGTH is missing"))
      else Err(ConversionError("int() argument must be a string, not 'NoneType'"))
    case Some(s) =>
      var digits := Strip(s);
      if digits != [] && AllDecimal(digits) then Ok(DecimalValue(digits), [])
      else Err(ConversionError("invalid literal for int() with base 10"))
  }

  /** The BIT-MASK text: surrounding whitespace is stripped, nothing left
      means no mask, otherwise the hex digits are read, odd counts included. */
  function ParseBitMask(text: Option<string>): (r: Outcome<Option<nat>>)
    ensures r.Ok? ==> r.warnings == []
    ensures r.Ok? && r.value.None? <==> text.None? || Strip(text.value) == []
    ensures r.Ok? && r.value.Some? ==>
              text.Some? && AllHex(Strip(text.value)) && r.value.value == HexValue(Strip(text.value))
    ensures r.Err? <==> text.Some? && Strip(text.value) != [] && !AllHex(Strip(text.value))
  {
    match text
    case None => Ok(None, [])
    case Some(s) =>
      var digits := Strip(s);
      if |digits| == 0 then Ok(None, [])
      else if AllHex(digits) then Ok(Some(HexValue(digits)), [])
      else Err(ConversionError("invalid literal for int() with base 16"))
  }

  /** Any mask spelled in hex, surrounded by any whitespace, reads back. */
  lemma BitMaskTextRoundTrip(pre: string, mask: nat, post: string)
    requires AllSpace(pre) && AllSpace(post)
    ensures ParseBitMask(Some(pre + HexDigits(mask) + post)) == Ok(Some(mask), [])
  {
    StripPadded(pre, HexDigits(mask), post);
    HexRoundTrip(mask);
  }

  /** Whitespace alone declares no mask. */
  lemma BlankBitMaskIsNoMask(s: string)
    requires AllSpace(s)
    ensures ParseBitMask(Some(s)) == Ok(None, [])
  {
    StripPadded(s, [], []);
    assert s + [] + [] == s;
  }

  /** An odd number of hex digits is accepted. */
  lemma OddLengthBitMask()
    ensures ParseBitMask(Some(" f0f\n")) == Ok(Some(0xf0f), [])
  {
    var pre, core, post := " ", "f0f", "\n";
    assert pre + core + post == " f0f\n";
    assert IsSpace(pre[0]) && IsSpace(post[0]);
    StripPadded(pre, core, post);
    assert core[..2] == "f0" && core[..2][..1] == "f" && core[..2][..1][..0] == "";
    assert HexValue(core[..2][..1]) == 0xf;
    assert HexValue(core[..2]) == 0xf0;
    assert HexValue(core) == 0xf0f;
  }

  /** The message of the `__post_init__` check as written: the string lacks
      its f-prefix, so the placeholder is printed literally. */
  function MaskTypeMessageAsWritten(d: DataType): string
  {
    "Can not apply a bit_mask on a value of type {self.base_data_type}"
  }

  /** The message as evidently intended: it names the base data type. */
  function MaskTypeMessage(d: DataType): string
  {
    "Can not apply a bit_mask on a value of type " + DataTypeName(d)
  }

  /** `__post_init__` as written: the same check as `Construct`, but the
      report is the literal placeholder text. */
  function ConstructAsWritten(t: StandardLengthType, strict: bool): (r: Outcome<StandardLengthType>)
    ensures r.Err? <==> strict && t.bitMask.Some? && !Maskable(t.baseDataType)
    ensures r.Ok? ==> r.value == t
    ensures r.Ok? ==> r.warnings == (if t.bitMask.None? || Maskable(t.baseDataType) then []
                                     else ["Can not apply a bit_mask on a value of type {self.base_data_type}"])
  {
    Then(Assert(strict, t.bitMask.None? || Maskable(t.baseDataType),
                MaskTypeMessageAsWritten(t.baseDataType)),
         Ok(t, []))
  }

  /** As written, the report is the same whichever base type is at fault. */
  lemma AsWrittenReportIgnoresType(t1: StandardLengthType, t2: StandardLengthType)
    requires t1.bitMask.Some? && t2.bitMask.Some?
    requires !Maskable(t1.baseDataType) && !Maskable(t2.baseDataType)
    ensures ConstructAsWritten(t1, false).Ok? && ConstructAsWritten(t2, false).Ok?
    ensures ConstructAsWritten(t1, false).warnings == ConstructAsWritten(t2, false).warnings
              == ["Can not apply a bit_mask on a value of type {self.base_data_type}"]
  {
  }

  /** `__post_init__`: a mask on a base type other than A_UINT32, A_INT32 and
      A_BYTEFIELD is reported (fatal in strict mode), naming the type. */
  function Construct(t: StandardLengthType, strict: bool): (r: Outcome<StandardLengthType>)
    ensures r.Err? <==> strict && t.bitMask.Some? && !Maskable(t.baseDataType)
    ensures r.Ok? ==> r.value == t
    ensures r.Ok? ==> (r.warnings == [] <==> t.bitMask.None? || Maskable(t.baseDataType))
  {
    Then(Assert(strict, t.bitMask.None? || Maskable(t.baseDataType), MaskTypeMessage(t.baseDataType)),
         Ok(t, []))
  }

  /** The corrected report tells the base types apart. */
  lemma ReportNamesType(t1: StandardLengthType, t2: StandardLengthType)
    requires t1.bitMask.Some? && t2.bitMask.Some?
    requires !Maskable(t1.baseDataType) && !Maskable(t2.baseDataType)
    requires t1.baseDataType != t2.baseDataType
    ensures Construct(t1, false).warnings != Construct(t2, false).warnings
  {
    var prefix := "Can not apply a bit_mask on a value of type ";
    var m1, m2 := MaskTypeMessage(t1.baseDataType), MaskTypeMessage(t2.baseDataType);
    assert m1[|prefix|..] == DataTypeName(t1.baseDataType);
    assert m2[|prefix|..] == DataTypeName(t2.baseDataType);
    assert Construct(t1, false).warnings == [m1];
    assert Construct(t2, false).warnings == [m2];
  }

  /** `from_et`: BIT-LENGTH is required, BIT-MASK is optional, and the
      result goes through `__post_init__`. */
  function FromEt(baseDataType: DataType, baseTypeEncoding: Option<string>,
                  isHighLowByteOrder: bool, e: StandardLengthTypeElement,
                  strict: bool): (r: Outcome<StandardLengthType>)
    ensures r.Ok? ==> e.bitLengthText.Some? && ParseBitLength(e.bitLengthText, strict).Ok?
    ensures r.Ok? ==> r.value.bitLength == ParseBitLength(e.bitLengthText, strict).value
    ensures r.Ok? ==> ParseBitMask(e.bitMaskText).Ok? && r.value.bitMask == ParseBitMask(e.bitMaskText).value
    ensures r.Ok? ==> r.value.isCondensedRaw == e.isCondensedRaw && r.value.baseDataType == baseDataType
    ensures r.Ok? && strict && r.value.bitMask.Some? ==> Maskable(baseDataType)
  {
    match ParseBitLength(e.bitLengthText, strict)
    case Err(f) => Err(f)
    case Ok(bitLength, _) =>
      match ParseBitMask(e.bitMaskText)
      case Err(f) => Err(f)
      case Ok(bitMask, _) =>
        Construct(StandardLengthType(baseDataType, baseTypeEncoding, isHighLowByteOrder,
                                     bitLength, bitMask, e.isCondensedRaw), strict)
  }

  // ---------------------------------------------------------------------
  // The used mask

  /** Byte order of the used mask: little-endian only for the numeric base
      types whose byte order is not high-low. */
  function MaskByteOrder(t: StandardLengthType): Endianness
  {
    if !t.isHighLowByteOrder
       && (t.baseDataType == AInt32 || t.baseDataType == AUInt32
           || t.baseDataType == AFloat32 || t.baseDataType == AFloat64)
    then Little else Big
  }

  /** Size in bytes of the used mask in simple mode. */
  function SimpleMaskSize(t: StandardLengthType, v: AtomicValue): nat
  {
    if v.BytesValue? then |v.bytes| else (StaticBitLength(t) + 7) / 8
  }

  lemma OnesFit(n: nat)
    ensures Pow2(n) - 1 < Capacity((n + 7) / 8)
  {
    Pow2Monotone(n, 8 * ((n + 7) / 8));
  }

  /** Size in bytes of the used mask. */
  function UsedMaskSize(t: StandardLengthType, v: AtomicValue): nat
    requires t.bitMask.Some?
  {
    if IsCondensed(t) then (Popcount(t.bitMask.value) + 7) / 8 else SimpleMaskSize(t, v)
  }

  /** The number whose bytes form the used mask. */
  function UsedMaskNumber(t: StandardLengthType, v: AtomicValue): (x: nat)
    requires t.bitMask.Some?
    ensures x < Capacity(UsedMaskSize(t, v))
  {
    var m := t.bitMask.value;
    if IsCondensed(t) then
      OnesFit(Popcount(m));
      Pow2(Popcount(m)) - 1
    else
      AndBelow(m, Capacity(SimpleMaskSize(t, v)) - 1);
      And(m, Capacity(SimpleMaskSize(t, v)) - 1)
  }

  /** `__get_used_mask`: None when there is no mask (every bit is used);
      when condensed, popcount(mask) one bits in just enough bytes; otherwise
      the mask cut to the size of the value. */
  function UsedMask(t: StandardLengthType, v: AtomicValue): (r: Option<seq<byte>>)
    ensures r.None? <==> t.bitMask.None?
    ensures r.Some? && IsCondensed(t) ==>
              var n := Popcount(t.bitMask.value);
              |r.value| == (n + 7) / 8 && FromBytes(r.value, MaskByteOrder(t)) == Pow2(n) - 1
    ensures r.Some? && !IsCondensed(t) ==>
              var size := SimpleMaskSize(t, v);
              |r.value| == size
              && FromBytes(r.value, MaskByteOrder(t)) == And(t.bitMask.value, Capacity(size) - 1)
  {
    if t.bitMask.None? then None
    else Some(ToBytes(UsedMaskNumber(t, v), UsedMaskSize(t, v), MaskByteOrder(t)).value)
  }

  lemma {:induction false} OnesBit(k: nat, i: nat)
    ensures Bit(Pow2(k) - 1, i) <==> i < k
  {
    if k == 0 {
      ZeroHasNoBits(i);
    } else if i > 0 {
      OnesBit(k - 1, i - 1);
      assert (Pow2(k) - 1) / 2 == Pow2(k - 1) - 1;
    }
  }

  /** Bit by bit: the condensed used mask marks the popcount(mask) low bits;
      the simple one marks the mask's bits that lie within the value's bytes. */
  lemma UsedMaskBits(t: StandardLengthType, v: AtomicValue, i: nat)
    requires t.bitMask.Some?
    ensures var used := FromBytes(UsedMask(t, v).value, MaskByteOrder(t));
            if IsCondensed(t) then Bit(used, i) <==> i < Popcount(t.bitMask.value)
            else Bit(used, i) <==> i < 8 * SimpleMaskSize(t, v) && Bit(t.bitMask.value, i)
  {
    var m := t.bitMask.value;
    var used := FromBytes(UsedMask(t, v).value, MaskByteOrder(t));
    assert used == UsedMaskNumber(t, v);
    if IsCondensed(t) {
      assert used == Pow2(Popcount(m)) - 1;
      OnesBit(Popcount(m), i);
    } else {
      var size := SimpleMaskSize(t, v);
      assert used == And(m, Capacity(size) - 1);
      AndBit(m, Capacity(size) - 1, i);
      OnesBit(8 * size, i);
    }
  }

  /** The used mask is byte-swapped exactly for the numeric base types
      whose byte order is not high-low; the byte order changes nothing else. */
  lemma UsedMaskByteOrder(t: StandardLengthType, v: AtomicValue)
    requires t.bitMask.Some?
    ensures var highLow := UsedMask(t.(isHighLowByteOrder := true), v).value;
            var numeric := t.baseDataType == AInt32 || t.baseDataType == AUInt32
                           || t.baseDataType == AFloat32 || t.baseDataType == AFloat64;
            if !t.isHighLowByteOrder && numeric then UsedMask(t, v).value == Reverse(highLow)
            else UsedMask(t, v).value == highLow
  {
    var t' := t.(isHighLowByteOrder := true);
    assert StaticBitLength(t') == StaticBitLength(t);
    assert UsedMaskSize(t', v) == UsedMaskSize(t, v);
    assert UsedMaskNumber(t', v) == UsedMaskNumber(t, v);
    ToBytesOrder(UsedMaskNumber(t, v), UsedMaskSize(t, v));
  }

  // ---------------------------------------------------------------------
  // Applying and unapplying the mask

  /** Python's `type(v)` as printed in the error message. */
  function PyTypeName(v: AtomicValue): string
  {
    match v
    case IntValue(_) => "<class 'int'>"
    case BytesValue(_) => "<class 'bytes'>"
    case FloatValue(_) => "<class 'float'>"
    case StringValue(_) => "<class 'str'>"
  }

  const CondensedTypeMessage: string := "bit masks can only be specified for integers and byte fields"

  /** `x.to_bytes(n, 'big')` as the masked byte-field value. */
  function BytesResult(x: nat, n: nat): Outcome<Option<AtomicValue>>
  {
    match ToBytes(x, n, Big)
    case Ok(b, _) => Ok(Some(BytesValue(b)), [])
    case Err(f) => Err(f)
  }

  /** What `__apply_mask` returns; `None` is Python's None, which the
      non-strict error path of the condensed branch returns. */
  function Applied(t: StandardLengthType, v: AtomicValue, strict: bool): Outcome<Option<AtomicValue>>
  {
    match t.bitMask
    case None => Ok(Some(v), [])
    case Some(m) =>
      if IsCondensed(t) then
        match v
        case IntValue(n) => Ok(Some(IntValue(Gather(n, m))), [])
        case BytesValue(b) => BytesResult(Gather(FromBytesBE(b), m), |b|)
        case _ => Raise(strict, CondensedTypeMessage, None)
      else
        match v
        case IntValue(n) => Ok(Some(IntValue(And(n, m))), [])
        case BytesValue(b) => BytesResult(And(FromBytesBE(b), m), |b|)
        case _ => Raise(strict, "Can not apply a bit_mask on a value of type " + PyTypeName(v), Some(v))
  }

  /** What `__unapply_mask` returns. */
  function Unapplied(t: StandardLengthType, raw: AtomicValue, strict: bool): Outcome<Option<AtomicValue>>
  {
    match t.bitMask
    case None => Ok(Some(raw), [])
    case Some(m) =>
      if IsCondensed(t) then
        match raw
        case IntValue(n) => Ok(Some(IntValue(Scatter(n, m))), [])
        case BytesValue(b) => BytesResult(Scatter(FromBytesBE(b), m), |b|)
        case _ => Raise(strict, CondensedTypeMessage, None)
      else
        match raw
        case IntValue(n) => Ok(Some(IntValue(And(n, m))), [])
        case BytesValue(b) => BytesResult(And(FromBytesBE(b), m), |b|)
        case _ => Raise(strict, "Can not apply a bit_mask on a value of type " + PyTypeName(raw), Some(raw))
  }

  /** `__apply_mask`, with the condensed branch's bit-by-bit loop. */
  method ApplyMask(t: StandardLengthType, v: AtomicValue, strict: bool)
    returns (r: Outcome<Option<AtomicValue>>)
    ensures r == Applied(t, v, strict)
  {
    if t.bitMask.None? {
      return Ok(Some(v), []);
    }
    var mask := t.bitMask.value;
    if IsCondensed(t) {
      var intValue: nat;
      if v.BytesValue? {
        intValue := FromBytesBE(v.bytes);
      } else if v.IntValue? {
        intValue := v.n;
      } else {
        return Raise(strict, CondensedTypeMessage, None);
      }
      var result := CondensedApply(intValue, mask);
      if v.BytesValue? {
        return BytesResult(result, |v.bytes|);
      }
      return Ok(Some(IntValue(result)), []);
    }
    if v.IntValue? {
      return Ok(Some(IntValue(And(v.n, mask))), []);
    }
    if v.BytesValue? {
      return BytesResult(And(FromBytesBE(v.bytes), mask), |v.bytes|);
    }
    return Raise(strict, "Can not apply a bit_mask on a value of type " + PyTypeName(v), Some(v));
  }

  /** `__unapply_mask`, with the condensed branch's bit-by-bit loop. */
  method UnapplyMask(t: StandardLengthType, raw: AtomicValue, strict: bool)
    returns (r: Outcome<Option<AtomicValue>>)
    ensures r == Unapplied(t, raw, strict)
  {
    if t.bitMask.None? {
      return Ok(Some(raw), []);
    }
    var mask := t.bitMask.value;
    if IsCondensed(t) {
      var intValue: nat;
      if raw.BytesValue? {
        intValue := FromBytesBE(raw.bytes);
      } else if raw.IntValue? {
        intValue := raw.n;
      } else {
        return Raise(strict, CondensedTypeMessage, None);
      }
      var result := CondensedUnapply(intValue, mask);
      if raw.BytesValue? {
        return BytesResult(result, |raw.bytes|);
      }
      return Ok(Some(IntValue(result)), []);
    }
    if raw.IntValue? {
      return Ok(Some(IntValue(And(raw.n, mask))), []);
    }
    if raw.BytesValue? {
      return BytesResult(And(FromBytesBE(raw.bytes), mask), |raw.bytes|);
    }
    return Raise(strict, "Can not apply a bit_mask on a value of type " + PyTypeName(raw), Some(raw));
  }

  // ---------------------------------------------------------------------
  // Laws of the mask engine

  /** Without a mask, values pass unchanged both ways and every bit is used. */
  lemma NoMaskIsIdentity(t: StandardLengthType, v: AtomicValue, strict: bool)
    requires t.bitMask.None?
    ensures Applied(t, v, strict) == Ok(Some(v), [])
    ensures Unapplied(t, v, strict) == Ok(Some(v), [])
    ensures UsedMask(t, v).None?
  {
  }

  /** A masked integer or byte value never fails and keeps its byte length. */
  lemma BytesMaskedFit(x: nat, b: seq<byte>, m: nat)
    requires x <= FromBytesBE(b)
    ensures BytesResult(x, |b|).Ok? && BytesResult(x, |b|).warnings == []
    ensures BytesResult(x, |b|).value == Some(BytesValue(EncodeBE(x, |b|)))
    ensures FromBytesBE(EncodeBE(x, |b|)) == x
  {
    FromBytesBelow(b);
    EncodeDecode(x, |b|);
  }

  /** Simple mode: apply and unapply are the same AND, applying twice is
      applying once, and byte fields keep their length. */
  lemma SimpleMaskIdempotent(t: StandardLengthType, v: AtomicValue, strict: bool)
    requires t.bitMask.Some? && !IsCondensed(t)
    requires v.IntValue? || v.BytesValue?
    ensures var a := Applied(t, v, strict);
            a.Ok? && a.warnings == [] && a.value.Some?
            && Applied(t, a.value.value, strict) == a
            && Unapplied(t, v, strict) == a
            && (v.IntValue? ==> a.value.value == IntValue(And(v.n, t.bitMask.value)))
            && (v.BytesValue? ==> a.value.value.BytesValue? && |a.value.value.bytes| == |v.bytes|
                                  && FromBytesBE(a.value.value.bytes) == And(FromBytesBE(v.bytes), t.bitMask.value))
  {
    var m := t.bitMask.value;
    if v.IntValue? {
      AndIdempotent(v.n, m);
    } else {
      var x := And(FromBytesBE(v.bytes), m);
      AndBelow(FromBytesBE(v.bytes), m);
      BytesMaskedFit(x, v.bytes, m);
      var c := EncodeBE(x, |v.bytes|);
      AndIdempotent(FromBytesBE(v.bytes), m);
      AndBelow(x, m);
      BytesMaskedFit(x, c, m);
    }
  }

  /** Condensed integers: the packed value has popcount(mask) bits, i.e. fits
      the static bit length, and unapplying it restores `value & mask`. */
  lemma CondensedIntRoundTrip(t: StandardLengthType, n: nat, strict: bool)
    requires t.bitMask.Some? && IsCondensed(t)
    ensures var a := Applied(t, IntValue(n), strict);
            a.Ok? && a.warnings == [] && a.value.Some? && a.value.value.IntValue?
            && a.value.value.n < Pow2(StaticBitLength(t))
            && Unapplied(t, a.value.value, strict) == Ok(Some(IntValue(And(n, t.bitMask.value))), [])
  {
    GatherBelow(n, t.bitMask.value);
    ScatterGather(n, t.bitMask.value);
  }

  /** Condensed integers: packing reads only the bits the mask selects, and
      an unpacked value has its bits inside the mask (so it is at most the
      mask). */
  lemma CondensedMaskedBitsOnly(t: StandardLengthType, n: nat, raw: nat, strict: bool)
    requires t.bitMask.Some? && IsCondensed(t)
    ensures Applied(t, IntValue(And(n, t.bitMask.value)), strict) == Applied(t, IntValue(n), strict)
    ensures var u := Unapplied(t, IntValue(raw), strict);
            u.Ok? && u.value.Some? && u.value.value.IntValue?
            && u.value.value.n <= t.bitMask.value
            && forall i: nat :: Bit(u.value.value.n, i) ==> Bit(t.bitMask.value, i)
  {
    var m := t.bitMask.value;
    GatherOfMasked(n, m);
    ScatterAtMost(raw, m);
    forall i: nat ensures Bit(Scatter(raw, m), i) ==> Bit(m, i) {
      ScatterInsideMask(raw, m, i);
    }
  }

  /** Condensed byte fields: the packed bytes keep their length, and
      unapplying them gives what a simple AND mask would have produced. */
  lemma CondensedBytesRoundTrip(t: StandardLengthType, b: seq<byte>, strict: bool)
    requires t.bitMask.Some? && IsCondensed(t)
    ensures var a := Applied(t, BytesValue(b), strict);
            a.Ok? && a.warnings == [] && a.value.Some? && a.value.value.BytesValue?
            && |a.value.value.bytes| == |b|
            && Unapplied(t, a.value.value, strict) == Applied(t.(isCondensedRaw := None), BytesValue(b), strict)
  {
    var m := t.bitMask.value;
    var x := FromBytesBE(b);
    GatherAtMost(x, m);
    BytesMaskedFit(Gather(x, m), b, m);
    var c := EncodeBE(Gather(x, m), |b|);
    ScatterGather(x, m);
    AndBelow(x, m);
    BytesMaskedFit(And(x, m), b, m);
    FromBytesBelow(b);
  }

  /** Condensed integers the other way round: re-applying the mask to a
      decoded value gives back the raw value's popcount(mask) low bits. */
  lemma CondensedDecodeThenEncode(t: StandardLengthType, raw: nat, strict: bool)
    requires t.bitMask.Some? && IsCondensed(t)
    ensures var u := Unapplied(t, IntValue(raw), strict);
            u.Ok? && u.value.Some?
            && Applied(t, u.value.value, strict) == Ok(Some(IntValue(Low(raw, StaticBitLength(t)))), [])
  {
    GatherScatter(raw, t.bitMask.value);
  }

  /** Condensed unapply may produce more bits than the raw byte field holds;
      `to_bytes` then raises OverflowError. */
  lemma CondensedBytesOverflow(t: StandardLengthType, strict: bool)
    requires t.bitMask == Some(0x100) && IsCondensed(t)
    ensures Unapplied(t, BytesValue([1]), strict).Err?
    ensures Unapplied(t, BytesValue([1]), strict).failure.OverflowError?
  {
    var b: seq<byte> := [1];
    assert FromBytesBE(b) == 1 by { assert b[..0] == []; }
    assert Scatter(1, 0x100) == 0x100;
    assert Capacity(1) == 256;
  }

  lemma ExamplePopcount()
    ensures Popcount(0xb0) == 3
  {
    assert Popcount(1) == 1;
    assert Popcount(2) == 1;
    assert Popcount(5) == 2;
    assert Popcount(0xb) == 3;
    assert Popcount(0x16) == 3;
    assert Popcount(0x2c) == 3;
    assert Popcount(0x58) == 3;
  }

  lemma ExampleGather()
    ensures Gather(0x90, 0xb0) == 5 && Gather(5, 0xb0) == 0
  {
    assert Gather(1, 1) == 1;
    assert Gather(2, 2) == 1;
    assert Gather(4, 5) == 2;
    assert Gather(9, 0xb) == 5;
    assert Gather(0x12, 0x16) == 5;
    assert Gather(0x24, 0x2c) == 5;
    assert Gather(0x48, 0x58) == 5;
    assert Gather(0, 5) == 0;
    assert Gather(0, 0xb) == 0;
    assert Gather(0, 0x16) == 0;
    assert Gather(1, 0x2c) == 0;
    assert Gather(2, 0x58) == 0;
  }

  lemma ExampleScatter()
    ensures Scatter(5, 0xb0) == 0x90
  {
    assert Scatter(1, 1) == 1;
    assert Scatter(1, 2) == 2;
    assert Scatter(2, 5) == 4;
    assert Scatter(5, 0xb) == 9;
    assert Scatter(5, 0x16) == 0x12;
    assert Scatter(5, 0x2c) == 0x24;
    assert Scatter(5, 0x58) == 0x48;
  }

  /** Condensed mask 0b10110000 on an 8-bit unsigned integer: the internal
      value's bits 4, 5 and 7 become bits 0, 1 and 2 of the transmitted one.
      An internal 0b10010000 goes out as 0b101 and comes back; an internal
      0b101 has none of those bits and goes out as 0. */
  lemma CondensedExample(strict: bool)
    ensures var t := StandardLengthType(AUInt32, None, true, 8, Some(0xb0), Some(true));
            StaticBitLength(t) == 3
            && Applied(t, IntValue(0x90), strict) == Ok(Some(IntValue(5)), [])
            && Unapplied(t, IntValue(5), strict) == Ok(Some(IntValue(0x90)), [])
            && Applied(t, IntValue(5), strict) == Ok(Some(IntValue(0)), [])
  {
    ExamplePopcount();
    ExampleGather();
    ExampleScatter();
  }

  /** Simple mask 0x0f on an 8-bit unsigned integer: 0xff goes out as 0x0f,
      and 0x0f comes back unchanged. */
  lemma SimpleExample(strict: bool)
    ensures var t := StandardLengthType(AUInt32, None, true, 8, Some(0x0f), None);
            Applied(t, IntValue(0xff), strict) == Ok(Some(IntValue(0x0f)), [])
            && Unapplied(t, IntValue(0x0f), strict) == Ok(Some(IntValue(0x0f)), [])
  {
    assert And(0xff, 0x0f) == 0x0f by { assert And(0xf, 0) == 0; assert And(1, 1) == 1; }
    assert And(0x0f, 0x0f) == 0x0f by { AndIdempotent(0x0f, 0x0f); assert And(0x0f, 0x0f) == And(And(0xff, 0x0f), 0x0f); }
  }

  /** Values other than integers and byte fields: fatal in strict mode;
      otherwise reported, and the condensed branch yields None while the
      simple one passes the value through. */
  lemma UnsupportedValueRejected(t: StandardLengthType, v: AtomicValue, strict: bool)
    requires t.bitMask.Some?
    requires v.FloatValue? || v.StringValue?
    ensures strict ==> Applied(t, v, strict).Err? && Unapplied(t, v, strict).Err?
    ensures !strict ==> Applied(t, v, strict).Ok? && |Applied(t, v, strict).warnings| == 1
    ensures !strict && IsCondensed(t) ==> Applied(t, v, strict).value.None? && Unapplied(t, v, strict).value.None?
    ensures !strict && !IsCondensed(t) ==> Applied(t, v, strict).value == Some(v) && Unapplied(t, v, strict).value == Some(v)
  {
  }

  // ---------------------------------------------------------------------
  // Encoding and decoding

  /** The arguments of `EncodeState.emplace_atomic_value`. */
  datatype EmplaceRequest = EmplaceRequest(
    internalValue: Option<AtomicValue>,
    usedMask: Option<seq<byte>>,
    bitLength: nat,
    baseDataType: DataType,
    baseTypeEncoding: Option<string>,
    isHighLowByteOrder: bool)

  /** The arguments of `DecodeState.extract_atomic_value`. */
  datatype ExtractRequest = ExtractRequest(
    bitLength: nat,
    baseDataType: DataType,
    baseTypeEncoding: Option<string>,
    isHighLowByteOrder: bool)

  /** The shared encoder state, reduced to the requests it has received (the
      bit placement itself is not part of this model). */
  class EncodeState {
    var emplaced: seq<EmplaceRequest>

    constructor ()
      ensures emplaced == []
    {
      emplaced := [];
    }

    method EmplaceAtomicValue(request: EmplaceRequest)
      modifies this
      ensures emplaced == old(emplaced) + [request]
    {
      emplaced := emplaced + [request];
    }
  }

  /** The shared decoder state, reduced to the requests it has received. */
  class DecodeState {
    var extracted: seq<ExtractRequest>

    constructor ()
      ensures extracted == []
    {
      extracted := [];
    }

    /** `raw` is what the extraction yields for this request. */
    method ExtractAtomicValue(request: ExtractRequest, raw: AtomicValue) returns (value: AtomicValue)
      modifies this
      ensures extracted == old(extracted) + [request] && value == raw
    {
      extracted := extracted + [request];
      value := raw;
    }
  }

  /** `encode_into_pdu`: the masked value, the used mask and the DECLARED bit
      length (also when condensed) go to the encoder; a failing mask leaves
      the encoder untouched. */
  method EncodeIntoPdu(t: StandardLengthType, v: AtomicValue, state: EncodeState, strict: bool)
    returns (r: Outcome<()>)
    modifies state
    ensures Applied(t, v, strict).Err? ==>
              r == Err(Applied(t, v, strict).failure) && state.emplaced == old(state.emplaced)
    ensures Applied(t, v, strict).Ok? ==>
              r == Ok((), Applied(t, v, strict).warnings)
              && state.emplaced == old(state.emplaced)
                 + [EmplaceRequest(Applied(t, v, strict).value, UsedMask(t, v), t.bitLength,
                                   t.baseDataType, t.baseTypeEncoding, t.isHighLowByteOrder)]
  {
    var masked := ApplyMask(t, v, strict);
    if masked.Err? {
      return Err(masked.failure);
    }
    var used := UsedMask(t, v);
    state.EmplaceAtomicValue(EmplaceRequest(masked.value, used, t.bitLength,
                                            t.baseDataType, t.baseTypeEncoding, t.isHighLowByteOrder));
    r := Ok((), masked.warnings);
  }

  /** `decode_from_pdu`: extract the declared bit length, then unapply the
      mask; `raw` is the value the extraction yields. */
  method DecodeFromPdu(t: StandardLengthType, state: DecodeState, raw: AtomicValue, strict: bool)
    returns (r: Outcome<Option<AtomicValue>>)
    modifies state
    ensures state.extracted == old(state.extracted)
              + [ExtractRequest(t.bitLength, t.baseDataType, t.baseTypeEncoding, t.isHighLowByteOrder)]
    ensures r == Unapplied(t, raw, strict)
  {
    var value := state.ExtractAtomicValue(
      ExtractRequest(t.bitLength, t.baseDataType, t.baseTypeEncoding, t.isHighLowByteOrder), raw);
    r := UnapplyMask(t, value, strict);
  }
}

/** What a scalar field can read from any bytes, and what it puts on the wire for other readers. */
module ScalarValues {
  import opened Words
  import V = Varint
  import opened Descriptor
  import opened Decoding
  import opened Encoding
  import opened Concatenation
  import opened RoundTrip

  // ---------------------------------------------------------------- what is refused

  predicate VarintField(f: Field) {
    (f.ltype.Varint? || f.ltype.UVarint? || f.ltype.SVarint?) && NumericSize(f.dataSize)
  }

  /** The 64-bit word as int64_t, or its low half as int32_t. */
  function Signed(w: nat, long: bool): int {
    if long then (if w < TWO63 then w else w - TWO64)
    else if w % TWO32 < TWO31 then w % TWO32 else w % TWO32 - TWO32
  }

  /** The integer a wire word stands for in this field. */
  function Meaning(f: Field, w: nat): int {
    if f.ltype.UVarint? then w
    else if f.ltype.Varint? then Signed(w, f.dataSize == 8)
    else if w % 2 == 1 then -(w / 2) - 1 else w / 2
  }

  /** Integers of the field's C type. */
  predicate InRange(f: Field, n: int) {
    if f.ltype.UVarint? then 0 <= n < Pow2(8 * f.dataSize)
    else f.dataSize > 0 && SignedRange(n, f.dataSize)
  }

  lemma ToSignedInRange(n: int, size: nat)
    requires size > 0
    ensures SignedRange(V.ToSigned(n, size), size)
  {
    var m := Pow2(8 * size);
    assert m == 2 * Pow2(8 * size - 1);
    Remainder(n, m);
  }

  lemma Remainder(n: int, m: nat)
    requires m > 0
    ensures 0 <= n % m < m
  {
  }

  /** A number survives its own width exactly if it is in range. */
  lemma NarrowExact(n: int, signed: bool, size: nat, rest: seq<Byte>)
    requires NumericSize(size)
    ensures Narrow(n, signed, size, rest)
            == if (if signed then SignedRange(n, size) else 0 <= n < Pow2(8 * size)) then Ok(Num(n), rest) else Fail
  {
    hide V.ToSigned;
    if signed {
      ToSignedInRange(n, size);
      if SignedRange(n, size) {
        SignedFits(n, size);
      }
    } else {
      var m := Pow2(8 * size);
      Remainder(n, m);
      if 0 <= n < m {
        SmallModulus(n, 0, m);
      }
    }
  }

  lemma ToSignedIs(w: nat, long: bool)
    requires w < TWO64
    ensures V.ToSigned(w, if long then 8 else 4) == Signed(w, long)
  {
    Pow2Words();
    if long {
      SmallModulus(w, 0, TWO64);
    }
  }

  /** A varint field is refused exactly when there is no varint of at most ten bytes or its meaning
      is out of the range of the field's C type; otherwise that meaning is stored. */
  lemma VarintRefusedIff(f: Field, bs: seq<Byte>)
    requires VarintField(f)
    ensures var word := V.DecodeVarint(bs);
            DecodeScalar(f, bs)
            == if word.Ok? && InRange(f, Meaning(f, word.value)) then Ok(Num(Meaning(f, word.value)), word.rest)
               else Fail
  {
    hide V.DecodeVarint, V.ToSigned, V.UnZigZag, Narrow, SignedRange, Pow2, Signed;
    var word := V.DecodeVarint(bs);
    if word.Ok? {
      var n := Meaning(f, word.value);
      NarrowExact(n, !f.ltype.UVarint?, f.dataSize, word.rest);
      ToSignedIs(word.value, f.dataSize == 8);
      V.UnZigZagOrder(word.value);
    }
  }

  lemma {:induction false} LittleEndianBound(bs: seq<Byte>)
    ensures LittleEndian(bs) < Pow2(8 * |bs|)
    decreases |bs|
  {
    if bs != [] {
      LittleEndianBound(bs[1..]);
      ShlByte(Pow2(8 * |bs[1..]|));
      ShlShl(1, 8 * |bs[1..]|, 8);
      assert 8 * |bs[1..]| + 8 == 8 * |bs|;
    }
  }

  lemma FixedIsValid(f: Field, bs: seq<Byte>)
    requires (f.ltype.Fixed32? || f.ltype.Fixed64?) && DecodeScalar(f, bs).Ok?
    ensures ValidValue(f, DecodeScalar(f, bs).value)
  {
    Pow2Words();
    LittleEndianBound(bs[..if f.ltype.Fixed32? then 4 else 8]);
  }

  lemma SizeIsSmall()
    ensures PB_SIZE_MAX < TWO32
  {
    Pow2Words();
    ShlMonotone(1, 1, 8 * PB_SIZE_WIDTH, 32);
  }

  lemma BlobIsValid(f: Field, bs: seq<Byte>)
    requires f.ltype.Bytes? || f.ltype.Text? || (f.ltype.FixedBytes? && f.dataSize <= PB_SIZE_MAX)
    requires DecodeScalar(f, bs).Ok?
    ensures ValidValue(f, DecodeScalar(f, bs).value)
  {
    hide V.DecodeVarint32, Pow2;
    SizeIsSmall();
    if f.ltype.Text? {
      var b := DecodeScalar(f, bs).value.bytes;
      assert |b| < f.dataSize && ByteAt(b, |b|) == 0;
    }
  }

  /** Whatever a field reads, from any bytes, is a value it can hold: numbers in range, strings with
      room for their NUL, byte arrays no longer than the space for them. */
  lemma DecodedIsValid(f: Field, bs: seq<Byte>)
    requires WellFormedField(f) && !f.ltype.SubMessage? && DecodeScalar(f, bs).Ok?
    ensures ValidValue(f, DecodeScalar(f, bs).value)
  {
    match f.ltype
    case Bool =>
    case Fixed32 => FixedIsValid(f, bs);
    case Fixed64 => FixedIsValid(f, bs);
    case Bytes => BlobIsValid(f, bs);
    case Text => BlobIsValid(f, bs);
    case FixedBytes => BlobIsValid(f, bs);
    case _ => VarintRefusedIff(f, bs);
  }

  /** So it can be sent on, and is then read as the same value up to normal form. */
  lemma DecodedIsSentOn(f: Field, bs: seq<Byte>, tail: seq<Byte>)
    requires WellFormedField(f) && !f.ltype.SubMessage? && DecodeScalar(f, bs).Ok?
    ensures var v := DecodeScalar(f, bs).value;
            EncodeScalar(f, v).Some? && DecodeScalar(f, EncodeScalar(f, v).value + tail) == Ok(NormalValue(f, v), tail)
  {
    DecodedIsValid(f, bs);
    ScalarRoundTrip(f, DecodeScalar(f, bs).value, tail);
  }

  // ---------------------------------------------------------------- sign extension on the wire

  lemma {:induction false} Base128Bound(bs: seq<Byte>)
    ensures V.Base128(bs) < Pow2(7 * |bs|)
    decreases |bs|
  {
    if bs != [] {
      Base128Bound(bs[1..]);
      V.ScaleUp(7 * |bs[1..]|);
      assert 7 * |bs[1..]| + 7 == 7 * |bs|;
    }
  }

  /** A signed field of any width is sent as the same 64-bit integer, so a reader that takes it for an
      int64 gets the same number; a negative one takes ten bytes. */
  lemma SignedFieldsAreWidened(f: Field, n: int, tail: seq<Byte>)
    requires f.ltype.Varint? && NumericSize(f.dataSize) && SignedRange(n, f.dataSize)
    ensures EncodeScalar(f, Num(n)).Some?
    ensures var bs := EncodeScalar(f, Num(n)).value;
            && V.DecodeVarint(bs + tail).Ok? && V.DecodeVarint(bs + tail).rest == tail
            && Signed(V.DecodeVarint(bs + tail).value, true) == n
            && (n < 0 ==> |bs| == 10)
  {
    hide V.DecodeVarint, V.EncodeVarint;
    var w := n % TWO64;
    V.VarintRoundTrip(w, tail);
    NumericSizes(f.dataSize);
    if n >= 0 {
      SmallModulus(n, 0, TWO64);
    } else {
      SmallModulus(n, -1, TWO64);
      TenBytes(w);
    }
  }

  lemma TenBytes(w: nat)
    requires TWO63 <= w < TWO64
    ensures |V.EncodeVarint(w)| == 10
  {
    V.EncodeVarintFits(w);
    V.EncodeVarintSpells(w);
    Base128Bound(V.EncodeVarint(w));
    Pow2Words();
    if |V.EncodeVarint(w)| < 10 {
      ShlMonotone(1, 1, 7 * |V.EncodeVarint(w)|, 63);
    }
  }

  // ---------------------------------------------------------------- what is left out of the encoding

  /** Can the value of this field be left out? A zero in a fixed-length byte array is sent. */
  predicate Omittable(f: Field)
    decreases f, 0
  {
    match f.ltype
    case FixedBytes => f.dataSize == 0
    case SubMessage => forall i :: 0 <= i < |f.sub| ==> OmittableField(f.sub[i])
    case _ => true
  }

  /** Required fields and fixed-count arrays always count as set. */
  predicate OmittableField(f: Field)
    decreases f, 1
  {
    match f.htype
    case Required => false
    case Repeated => f.sizeOffset != 0
    case OneOf => true
    case Optional => f.sizeOffset != 0 || Omittable(f)
  }

  lemma {:induction false} ZeroIsOmittable(f: Field, v: Value)
    requires IsZero(f, v) && WellFormedField(f) && (f.ltype.SubMessage? ==> v.Msg?)
    ensures Omittable(f)
    decreases f
  {
    if f.ltype.SubMessage? {
      forall i | 0 <= i < |f.sub|
        ensures OmittableField(f.sub[i])
      {
        var g, slot := f.sub[i], Get(v.slots, SlotOf(f.sub, i));
        assert IsDefault(g, slot) && WellFormedField(g);
        if Singular(g) && IsZero(g, Content(slot)) {
          if g.ltype.SubMessage? {
            ZeroIsOmittable(g, Msg(Slots(Content(slot))));
          } else {
            ZeroIsOmittable(g, Content(slot));
          }
        }
      }
    }
  }

  lemma {:induction false} DefaultIsZero(f: Field, v: Value)
    requires WellFormedField(f) && ValidValue(f, v) && Singular(f)
    requires NormalValue(f, v) == DefaultValue(f) && Omittable(f)
    ensures IsZero(f, v)
    decreases f, 0
  {
    if f.ltype.SubMessage? {
      forall i | 0 <= i < |f.sub|
        ensures IsDefault(f.sub[i], Get(v.slots, SlotOf(f.sub, i)))
      {
        DefaultFieldIsOmitted(f.sub, v.slots, i);
      }
    }
  }

  lemma {:induction false} DefaultFieldIsOmitted(fields: seq<Field>, slots: seq<Slot>, i: nat)
    requires WellFormed(fields) && Valid(fields, slots) && i < |fields| && OmittableField(fields[i])
    requires Normal(fields, slots) == Defaults(fields)
    ensures IsDefault(fields[i], Get(slots, SlotOf(fields, i)))
    decreases fields, 1
  {
    var f, h := fields[i], SlotOf(fields, i);
    UnionHead(fields, i);
    assert ValidSlot(fields, h, slots[h]) && NormalSlot(fields, h, slots[h]) == Defaults(fields)[h];
    if Singular(f) {
      DefaultIsZero(f, slots[i].v);
    }
  }

  /** What is sent has a tag at least. */
  lemma EmptyIsZero(f: Field, v: Value)
    requires Singular(f)
    ensures EncodeSlot(f, Single(v)) == Some([]) <==> IsZero(f, v)
  {
    hide IsZero, EncodeValue;
  }

  /** A proto3 singular field is left out exactly when it holds its default and is of a type whose
      zero is left out. */
  lemma OmittedIff(f: Field, v: Value)
    requires WellFormedField(f) && ValidValue(f, v) && Singular(f)
    ensures EncodeSlot(f, Single(v)) == Some([]) <==> NormalValue(f, v) == DefaultValue(f) && Omittable(f)
  {
    assert f.ltype.SubMessage? ==> v.Msg?;
    hide NormalValue, DefaultValue, Omittable, ValidValue, WellFormedField, EncodeSlot, IsZero;
    EmptyIsZero(f, v);
    if IsZero(f, v) {
      OmittedIsDefault(f, v);
      ZeroIsOmittable(f, v);
    } else if NormalValue(f, v) == DefaultValue(f) && Omittable(f) {
      DefaultIsZero(f, v);
    }
  }
}

/** pb_encode.c as the imperative program it is: loops that fill byte buffers and advance a
    stream, sizing passes before delimited parts. Each method is proved to emit the bytes of
    module Encoding, on a sizing stream and on a real one alike. */
module Encoder {
  import opened Words
  import V = Varint
  import opened Descriptor
  import opened FieldIterator
  import opened Decoding
  import opened Encoding
  import opened OutputStream

  // ---------------------------------------------------------------- varints and words

  /** What one turn of the loop adds: a continuation byte, or the last byte with its top bit set. */
  lemma VarintStep(v: nat, before: seq<Byte>, after: seq<Byte>)
    requires v > 0 && after == before + [v % 128 + 128]
    ensures v / 128 > 0 ==> |V.EncodeVarint(v)| == 1 + |V.EncodeVarint(v / 128)|
                              && before + V.EncodeVarint(v) == after + V.EncodeVarint(v / 128)
    ensures v / 128 == 0 ==> V.EncodeVarint(v) == [after[|before|] - 128]
  {
    if v >= 128 {
      assert before + V.EncodeVarint(v) == after + V.EncodeVarint(v / 128);
    }
  }

  /** The loop of pb_encode_varint: seven bits a byte, the last byte's top bit unset at the end. */
  method FillVarint(buffer: array<Byte>, value: nat) returns (n: nat)
    requires 0x7F < value < TWO64 && buffer.Length == 10
    modifies buffer
    ensures n <= 10 && buffer[..n] == V.EncodeVarint(value)
  {
    hide V.EncodeVarint;
    V.EncodeVarintFits(value);
    var v: nat := value;
    n := 0;
    while v > 0
      invariant v > 0 ==> n + |V.EncodeVarint(v)| <= 10 && V.EncodeVarint(value) == buffer[..n] + V.EncodeVarint(v)
      invariant v == 0 ==> 0 < n <= 10 && buffer[n - 1] >= 128
                             && V.EncodeVarint(value) == buffer[..n - 1] + [buffer[n - 1] - 128]
      decreases v
    {
      ghost var before := buffer[..n];
      buffer[n] := v % 128 + 128;
      assert buffer[..n] == before && buffer[..n + 1] == before + [v % 128 + 128];
      VarintStep(v, before, buffer[..n + 1]);
      v := v / 128;
      n := n + 1;
    }
    ghost var filled := buffer[..n - 1];
    buffer[n - 1] := buffer[n - 1] - 128;
    assert buffer[..n] == filled + [buffer[n - 1]];
  }

  method WriteVarint(stream: OStream, value: nat) returns (ok: bool)
    requires stream.Valid() && value < TWO64
    modifies stream, stream.buf
    ensures Emitted(old(stream.View()), stream.View(), ok, Some(V.EncodeVarint(value)))
  {
    if value <= 0x7F {
      ok := stream.Write([value], 1, [value]);
    } else {
      var buffer := new Byte[10];
      var n := FillVarint(buffer, value);
      ok := stream.Write(buffer[..n], n, buffer[..n]);
    }
  }

  method WriteSVarint(stream: OStream, value: int) returns (ok: bool)
    requires stream.Valid() && -TWO63 <= value < TWO63
    modifies stream, stream.buf
    ensures Emitted(old(stream.View()), stream.View(), ok, Some(V.EncodeVarint(V.ZigZag(value))))
  {
    var shifted := value % TWO64 * 2 % TWO64;
    ok := WriteVarint(stream, if value < 0 then TWO64 - 1 - shifted else shifted);
  }

  /** Byte `j` of a little-endian word is the word shifted right by `j` bytes. */
  lemma {:induction false} LittleEndianByte(n: nat, size: nat, j: nat)
    requires j < size
    ensures LittleEndianBytes(n, size)[j] == Shr(n, 8 * j) % 0x100
    decreases j
  {
    if j > 0 {
      LittleEndianByte(n / 0x100, size - 1, j - 1);
      assert Shr(n, 8) == n / 0x100 by { ShrByte(n); }
      ShrShr(n, 8, 8 * (j - 1));
      assert 8 + 8 * (j - 1) == 8 * j;
    }
  }

  method WriteFixed32(stream: OStream, val: nat) returns (ok: bool)
    requires stream.Valid() && val < TWO32
    modifies stream, stream.buf
    ensures Emitted(old(stream.View()), stream.View(), ok, Some(LittleEndianBytes(val, 4)))
  {
    hide Shr, LittleEndianBytes;
    var bytes: seq<Byte> := [Shr(val, 0) % 0x100, Shr(val, 8) % 0x100, Shr(val, 16) % 0x100, Shr(val, 24) % 0x100];
    assert bytes == LittleEndianBytes(val, 4) by {
      LittleEndianByte(val, 4, 0);
      LittleEndianByte(val, 4, 1);
      LittleEndianByte(val, 4, 2);
      LittleEndianByte(val, 4, 3);
    }
    ok := stream.Write(bytes, 4, bytes);
  }

  method WriteFixed64(stream: OStream, val: nat) returns (ok: bool)
    requires stream.Valid() && val < TWO64
    modifies stream, stream.buf
    ensures Emitted(old(stream.View()), stream.View(), ok, Some(LittleEndianBytes(val, 8)))
  {
    hide Shr, LittleEndianBytes;
    var bytes: seq<Byte> := [Shr(val, 0) % 0x100, Shr(val, 8) % 0x100, Shr(val, 16) % 0x100, Shr(val, 24) % 0x100,
                             Shr(val, 32) % 0x100, Shr(val, 40) % 0x100, Shr(val, 48) % 0x100, Shr(val, 56) % 0x100];
    forall j | 0 <= j < 8
      ensures LittleEndianBytes(val, 8)[j] == Shr(val, 8 * j) % 0x100
    {
      LittleEndianByte(val, 8, j);
    }
    assert bytes == LittleEndianBytes(val, 8);
    ok := stream.Write(bytes, 8, bytes);
  }

  // ---------------------------------------------------------------- tags and strings

  lemma TagWord(wire: nat, tag: nat)
    requires wire < 8
    ensures BitOr(wire, Shl(tag, 3)) == tag * 8 + wire
  {
    assert Shl(tag, 1) == 2 * tag;
    assert Shl(tag, 2) == 2 * Shl(tag, 1);
    assert Shl(tag, 3) == 2 * Shl(tag, 2);
    assert Pow2(3) == 8;
    hide Shl;
    BitOrDisjoint(wire, tag, 3);
  }

  method WriteTag(stream: OStream, wire: nat, tag: nat) returns (ok: bool)
    requires stream.Valid() && wire < 8 && tag < TWO32
    modifies stream, stream.buf
    ensures Emitted(old(stream.View()), stream.View(), ok, Some(EncodeTag(wire, tag)))
  {
    hide BitOr, Shl, V.EncodeVarint, Emitted, Sound;
    TagWord(wire, tag);
    ok := WriteVarint(stream, BitOr(wire, Shl(tag, 3)));
  }

  method WriteTagForField(stream: OStream, f: Field) returns (ok: bool)
    requires stream.Valid() && CoveredField(f)
    modifies stream, stream.buf
    ensures Emitted(old(stream.View()), stream.View(), ok, Some(EncodeTag(WireOf(f.ltype), f.tag)))
  {
    var wire: nat;
    match f.ltype {
      case Bool => wire := WT_VARINT;
      case Varint => wire := WT_VARINT;
      case UVarint => wire := WT_VARINT;
      case SVarint => wire := WT_VARINT;
      case Fixed32 => wire := WT_32BIT;
      case Fixed64 => wire := WT_64BIT;
      case _ => wire := WT_STRING;
    }
    ok := WriteTag(stream, wire, f.tag);
  }

  method WriteString(stream: OStream, data: seq<Byte>, size: nat) returns (ok: bool)
    requires stream.Valid() && size <= |data|
    modifies stream, stream.buf
    ensures Emitted(old(stream.View()), stream.View(), ok, Some(Delimit(data[..size])))
  {
    ghost var u := stream.View();
    ok := WriteVarint(stream, size % TWO64);
    ghost var prefix, v := V.EncodeVarint(size % TWO64), stream.View();
    if !ok {
      EmittedFail(u, v, Some(prefix), Some(data[..size]));
      return false;
    }
    ok := stream.Write(data[..size], size, data[..size]);
    EmittedJoin(u, v, stream.View(), ok, Some(prefix), Some(data[..size]));
  }

  // ---------------------------------------------------------------- scalar encoders

  method EncVarint(stream: OStream, f: Field, v: Value) returns (ok: bool)
    requires stream.Valid() && (f.ltype.Varint? || f.ltype.UVarint?)
    modifies stream, stream.buf
    ensures Emitted(old(stream.View()), stream.View(), ok, EncodeScalar(f, v))
  {
    EmittedNothing(stream.View());
    if !NumericSize(f.dataSize) {
      return false;
    }
    ok := WriteVarint(stream, Number(v) % TWO64);
  }

  method EncSVarint(stream: OStream, f: Field, v: Value) returns (ok: bool)
    requires stream.Valid() && f.ltype.SVarint?
    modifies stream, stream.buf
    ensures Emitted(old(stream.View()), stream.View(), ok, EncodeScalar(f, v))
  {
    EmittedNothing(stream.View());
    if !NumericSize(f.dataSize) {
      return false;
    }
    ok := WriteSVarint(stream, Signed64(Number(v)));
  }

  method EncBytes(stream: OStream, f: Field, v: Value) returns (ok: bool)
    requires stream.Valid() && f.ltype.Bytes?
    modifies stream, stream.buf
    ensures Emitted(old(stream.View()), stream.View(), ok, EncodeScalar(f, v))
  {
    EmittedNothing(stream.View());
    var size := |Contents(v)|;
    if size > f.dataSize - PB_SIZE_WIDTH {
      return false;
    }
    assert Contents(v)[..size] == Contents(v);
    ok := WriteString(stream, Contents(v), size);
  }

  lemma {:induction false} CStringEnds(b: seq<Byte>, limit: nat, n: nat)
    requires n <= |b| && n <= limit && forall i :: 0 <= i < n ==> b[i] != 0
    requires n == limit || n == |b| || b[n] == 0
    ensures CString(b, limit) == b[..n]
    decreases n
  {
    if n > 0 {
      CStringEnds(b[1..], limit - 1, n - 1);
    }
  }

  /** The strnlen loop. */
  method StringLength(p: seq<Byte>, maxSize: nat) returns (size: nat)
    ensures size <= |p| && p[..size] == CString(p, maxSize)
  {
    size := 0;
    while size < maxSize && ByteAt(p, size) != 0
      invariant size <= |p| && size <= maxSize
      invariant forall i :: 0 <= i < size ==> p[i] != 0
    {
      size := size + 1;
    }
    CStringEnds(p, maxSize, size);
  }

  method EncString(stream: OStream, f: Field, v: Value) returns (ok: bool)
    requires stream.Valid() && f.ltype.Text?
    modifies stream, stream.buf
    ensures Emitted(old(stream.View()), stream.View(), ok, EncodeScalar(f, v))
  {
    hide CString, Delimit, Emitted;
    var size := StringLength(Contents(v), f.dataSize);
    ok := WriteString(stream, Contents(v), size);
  }

  /** The dispatch through PB_ENCODERS for everything but submessages. */
  method EncScalar(stream: OStream, f: Field, v: Value) returns (ok: bool)
    requires stream.Valid() && !f.ltype.SubMessage? && !f.ltype.Extension?
    modifies stream, stream.buf
    ensures Emitted(old(stream.View()), stream.View(), ok, EncodeScalar(f, v))
  {
    match f.ltype
    case Bool => ok := WriteVarint(stream, if Number(v) != 0 then 1 else 0);
    case Varint => ok := EncVarint(stream, f, v);
    case UVarint => ok := EncVarint(stream, f, v);
    case SVarint => ok := EncSVarint(stream, f, v);
    case Bytes => ok := EncBytes(stream, f, v);
    case Text => ok := EncString(stream, f, v);
    case FixedBytes =>
      var raw := Buffer(Contents(v), f.dataSize);
      assert raw[..f.dataSize] == raw;
      ok := WriteString(stream, raw, f.dataSize);
    case Fixed32 => ok := WriteFixed32(stream, Number(v) % TWO32);
    case Fixed64 => ok := WriteFixed64(stream, Number(v) % TWO64);
  }

  // ---------------------------------------------------------------- arrays

  lemma JoinAssociative(a: Option<seq<Byte>>, b: Option<seq<Byte>>, c: Option<seq<Byte>>)
    ensures Join(Join(a, b), c) == Join(a, Join(b, c))
  {
    if a.Some? && b.Some? && c.Some? {
      assert a.value + b.value + c.value == a.value + (b.value + c.value);
    }
  }

  lemma JoinNothing(a: Option<seq<Byte>>)
    ensures Join(Some([]), a) == a && Join(a, Some([])) == a
  {
    if a.Some? {
      assert [] + a.value == a.value && a.value + [] == a.value;
    }
  }

  lemma EmittedSound(u: Output, v: Output, ok: bool, out: Option<seq<Byte>>)
    requires Emitted(u, v, ok, out)
    ensures Sound(v) && (ok ==> out.Some?)
  {
  }

  /** Elements one after another, without tags. */
  method WritePacked(stream: OStream, f: Field, items: seq<Value>) returns (ok: bool)
    requires stream.Valid() && Packable(f.ltype)
    modifies stream, stream.buf
    ensures Emitted(old(stream.View()), stream.View(), ok, EncodePacked(f, items))
  {
    hide EncodeScalar, Emitted, OStream.View;
    ghost var u := stream.View();
    ghost var written: seq<Byte> := [];
    EmittedNothing(u);
    JoinNothing(EncodePacked(f, items));
    assert items[0..] == items;
    var i := 0;
    while i < |items|
      invariant i <= |items| && stream.Valid()
      invariant Emitted(u, stream.View(), true, Some(written))
      invariant EncodePacked(f, items) == Join(Some(written), EncodePacked(f, items[i..]))
    {
      ghost var v, one, more := stream.View(), EncodeScalar(f, items[i]), EncodePacked(f, items[i + 1..]);
      assert items[i..][1..] == items[i + 1..] && EncodePacked(f, items[i..]) == Join(one, more);
      JoinAssociative(Some(written), one, more);
      ok := EncScalar(stream, f, items[i]);
      EmittedJoin(u, v, stream.View(), ok, Some(written), one);
      EmittedSound(u, stream.View(), ok, Join(Some(written), one));
      if !ok {
        EmittedFail(u, stream.View(), Join(Some(written), one), more);
        return false;
      }
      written := written + one.value;
      i := i + 1;
    }
    assert items[|items|..] == [];
    JoinNothing(Some(written));
    return true;
  }

  /** Fixed-size elements need no sizing pass. */
  lemma {:induction false} FixedPacked(f: Field, items: seq<Value>)
    requires f.ltype.Fixed32? || f.ltype.Fixed64?
    ensures EncodePacked(f, items).Some?
    ensures |EncodePacked(f, items).value| == if f.ltype.Fixed32? then 4 * |items| else 8 * |items|
    decreases |items|
  {
    if items != [] {
      hide LittleEndianBytes;
      FixedPacked(f, items[1..]);
    }
  }

  /** Total size of a packed array; fails only if some element cannot be encoded at all. */
  method PackedSize(f: Field, items: seq<Value>) returns (ok: bool, size: nat)
    requires Packable(f.ltype)
    ensures ok == EncodePacked(f, items).Some? && (ok ==> size == |EncodePacked(f, items).value|)
  {
    hide EncodePacked, EncodeScalar;
    if f.ltype.Fixed32? {
      FixedPacked(f, items);
      return true, 4 * |items|;
    } else if f.ltype.Fixed64? {
      FixedPacked(f, items);
      return true, 8 * |items|;
    }
    var sizestream := new OStream.Sizing();
    ok := WritePacked(sizestream, f, items);
    size := sizestream.bytesWritten;
  }

  /** Size and elements of a packed array. On a sizing stream the elements are only counted. */
  method WritePackedBody(stream: OStream, f: Field, items: seq<Value>) returns (ok: bool)
    requires stream.Valid() && Packable(f.ltype)
    modifies stream, stream.buf
    ensures Emitted(old(stream.View()), stream.View(), ok, Delimited(EncodePacked(f, items)))
  {
    hide EncodePacked, V.EncodeVarint;
    ghost var u := stream.View();
    EmittedNothing(u);
    var size: nat;
    ok, size := PackedSize(f, items);
    if !ok {
      return false;
    }
    ghost var body, prefix := EncodePacked(f, items).value, V.EncodeVarint(size % TWO64);
    ok := WriteVarint(stream, size % TWO64);
    ghost var v := stream.View();
    if !ok {
      EmittedFail(u, v, Some(prefix), Some(body));
      return false;
    }
    if stream.sizing {
      ok := stream.Write([], size, body);
    } else {
      ok := WritePacked(stream, f, items);
    }
    EmittedJoin(u, v, stream.View(), ok, Some(prefix), Some(body));
  }

  /** Elements with a tag each. */
  method WriteUnpacked(stream: OStream, f: Field, items: seq<Value>) returns (ok: bool)
    requires stream.Valid() && CoveredField(f)
    modifies stream, stream.buf
    ensures Emitted(old(stream.View()), stream.View(), ok, EncodeUnpacked(f, items))
    decreases f, 3
  {
    hide Tagged, Emitted, OStream.View;
    ghost var u := stream.View();
    ghost var written: seq<Byte> := [];
    EmittedNothing(u);
    JoinNothing(EncodeUnpacked(f, items));
    assert items[0..] == items;
    var i := 0;
    while i < |items|
      invariant i <= |items| && stream.Valid()
      invariant Emitted(u, stream.View(), true, Some(written))
      invariant EncodeUnpacked(f, items) == Join(Some(written), EncodeUnpacked(f, items[i..]))
    {
      ghost var v, one, more := stream.View(), Tagged(f, items[i]), EncodeUnpacked(f, items[i + 1..]);
      assert items[i..][1..] == items[i + 1..] && EncodeUnpacked(f, items[i..]) == Join(one, more);
      JoinAssociative(Some(written), one, more);
      ok := WriteTagged(stream, f, items[i]);
      EmittedJoin(u, v, stream.View(), ok, Some(written), one);
      EmittedSound(u, stream.View(), ok, Join(Some(written), one));
      if !ok {
        EmittedFail(u, stream.View(), Join(Some(written), one), more);
        return false;
      }
      written := written + one.value;
      i := i + 1;
    }
    assert items[|items|..] == [];
    JoinNothing(Some(written));
    return true;
  }

  /** encode_array: packed whenever the type allows it. */
  method WriteArray(stream: OStream, f: Field, items: seq<Value>, count: nat) returns (ok: bool)
    requires stream.Valid() && CoveredField(f) && count == |items|
    modifies stream, stream.buf
    ensures Emitted(old(stream.View()), stream.View(), ok, EncodeArray(f, items))
    decreases f, 4
  {
    hide EncodePacked, EncodeUnpacked, EncodeTag, Emitted, Delimited;
    ghost var u := stream.View();
    EmittedNothing(u);
    if count == 0 {
      return true;
    }
    if count > f.arraySize {
      return false;
    }
    if Packable(f.ltype) {
      ghost var tag, body := Some(EncodeTag(WT_STRING, f.tag)), Delimited(EncodePacked(f, items));
      ok := WriteTag(stream, WT_STRING, f.tag);
      ghost var v := stream.View();
      EmittedSound(u, v, ok, tag);
      if !ok {
        EmittedFail(u, v, tag, body);
        return false;
      }
      ok := WritePackedBody(stream, f, items);
      EmittedJoin(u, v, stream.View(), ok, tag, body);
    } else {
      ok := WriteUnpacked(stream, f, items);
    }
  }

  // ---------------------------------------------------------------- fields

  /** A tag and the element behind it, through PB_ENCODERS. */
  method WriteTagged(stream: OStream, f: Field, v: Value) returns (ok: bool)
    requires stream.Valid() && CoveredField(f)
    modifies stream, stream.buf
    ensures Emitted(old(stream.View()), stream.View(), ok, Tagged(f, v))
    decreases f, 2
  {
    hide EncodeMessage, EncodeScalar, EncodeTag, Emitted, Delimited;
    ghost var u, tag := stream.View(), Some(EncodeTag(WireOf(f.ltype), f.tag));
    ok := WriteTagForField(stream, f);
    ghost var w := stream.View();
    EmittedSound(u, w, ok, tag);
    if !ok {
      EmittedFail(u, w, tag, EncodeValue(f, v));
      return false;
    }
    if f.ltype.SubMessage? {
      ok := WriteSubmessage(stream, f.sub, Slots(v));
    } else {
      ok := EncScalar(stream, f, v);
    }
    EmittedJoin(u, w, stream.View(), ok, tag, EncodeValue(f, v));
  }

  /** One turn of the loop over a submessage's fields in pb_check_proto3_default_value. */
  method CheckAndNext(iter: FieldIter) returns (isDefault: bool, more: bool)
    requires iter.Canonical() && iter.pos < |iter.fields| && CoveredField(iter.fields[iter.pos])
    modifies iter`pos, iter`requiredIndex, iter`pData, iter`pSize
    ensures iter.Canonical() && more == (old(iter.pos) + 1 < |iter.fields|) && (more ==> iter.pos == old(iter.pos) + 1)
    ensures isDefault
            == IsDefault(iter.fields[old(iter.pos)], Get(iter.dest, SlotOf(iter.fields, old(iter.pos))))
    decreases iter.fields[iter.pos], 2
  {
    isDefault := CheckProto3Default(iter.fields[iter.pos], Get(iter.dest, SlotOf(iter.fields, iter.pos)));
    more := iter.Next();
  }

  method CheckAllDefault(iter: FieldIter) returns (isDefault: bool)
    requires iter.Canonical() && iter.pos == 0 && |iter.fields| > 0 && Covered(iter.fields)
    modifies iter`pos, iter`requiredIndex, iter`pData, iter`pSize
    ensures isDefault <==> forall i :: 0 <= i < |iter.fields| ==>
                             IsDefault(iter.fields[i], Get(iter.dest, SlotOf(iter.fields, i)))
    decreases iter.fields, 0
  {
    hide IsDefault, SlotOf, FieldIter.Valid, FieldIter.OwnSize;
    ghost var n := 0;
    var more := true;
    while more
      invariant iter.Canonical() && n <= |iter.fields| && more == (n < |iter.fields|)
      invariant more ==> iter.pos == n
      invariant forall i :: 0 <= i < n ==> IsDefault(iter.fields[i], Get(iter.dest, SlotOf(iter.fields, i)))
      decreases |iter.fields| - n
    {
      isDefault, more := CheckAndNext(iter);
      if !isDefault {
        return false;
      }
      n := n + 1;
    }
    return true;
  }

  method CheckProto3Default(f: Field, slot: Slot) returns (isDefault: bool)
    requires CoveredField(f)
    ensures isDefault == IsDefault(f, slot)
    decreases f, 1
  {
    match f.htype {
      case Required => return false;
      case Repeated =>
        if f.sizeOffset != 0 {
          return |Items(slot)| == 0;
        }
        return false;
      case OneOf => return Which(slot) == 0;
      case Optional =>
        if f.sizeOffset != 0 {
          return !Has(slot);
        }
    }
    var v := Content(slot);
    match f.ltype {
      case Bytes => return |Contents(v)| == 0;
      case Text => return |Contents(v)| == 0 || Contents(v)[0] == 0;
      case FixedBytes => return f.dataSize == 0;
      case SubMessage =>
        assert Covered(f.sub);
        var iter := new FieldIter(f.sub, 0, Slots(v));
        var more := iter.Begin();
        if more {
          isDefault := CheckAllDefault(iter);
          return isDefault;
        }
        return true;
      case _ => return f.dataSize == 0 || Number(v) == 0;
    }
  }

  /** encode_basic_field. */
  method WriteBasicField(stream: OStream, f: Field, slot: Slot) returns (ok: bool)
    requires stream.Valid() && CoveredField(f)
    modifies stream, stream.buf
    ensures Emitted(old(stream.View()), stream.View(), ok, EncodeSlot(f, slot))
    decreases f, 5
  {
    hide Tagged, EncodeArray, IsDefault, Emitted, CoveredField, Elements;
    EmittedNothing(stream.View());
    var has := true;
    if f.sizeOffset != 0 {
      has := Has(slot);
    } else if f.htype.Optional? {
      has := CheckProto3Default(f, slot);
      has := !has;
    }
    ok := true;
    match f.htype
    case Required => ok := WriteTagged(stream, f, Content(slot));
    case Optional =>
      if has {
        ok := WriteTagged(stream, f, Content(slot));
      }
    case Repeated => ok := WriteArray(stream, f, Elements(f, slot), |Elements(f, slot)|);
    case OneOf =>
      if Which(slot) == f.tag {
        ok := WriteTagged(stream, f, Content(slot));
      }
  }

  // ---------------------------------------------------------------- messages

  method WriteAndNext(stream: OStream, iter: FieldIter) returns (ok: bool, more: bool)
    requires stream.Valid() && iter.Canonical() && iter.pos < |iter.fields| && CoveredField(iter.fields[iter.pos])
    modifies stream, stream.buf, iter`pos, iter`requiredIndex, iter`pData, iter`pSize
    ensures Emitted(old(stream.View()), stream.View(), ok,
                    EncodeSlot(iter.fields[old(iter.pos)], Get(iter.dest, SlotOf(iter.fields, old(iter.pos)))))
    ensures iter.Canonical()
    ensures ok ==> more == (old(iter.pos) + 1 < |iter.fields|) && (more ==> iter.pos == old(iter.pos) + 1)
    decreases iter.fields[iter.pos], 6
  {
    hide EncodeSlot, Emitted, OStream.View, OStream.Valid;
    more := false;
    ok := WriteBasicField(stream, iter.fields[iter.pos], Get(iter.dest, SlotOf(iter.fields, iter.pos)));
    if ok {
      more := iter.Next();
    }
  }

  /** The loop of pb_encode, from the first field on. */
  method WriteFields(stream: OStream, iter: FieldIter) returns (ok: bool)
    requires stream.Valid() && iter.Canonical() && iter.pos == 0 && |iter.fields| > 0 && Covered(iter.fields)
    modifies stream, stream.buf, iter`pos, iter`requiredIndex, iter`pData, iter`pSize
    ensures Emitted(old(stream.View()), stream.View(), ok, EncodeFrom(iter.fields, iter.dest, 0))
    decreases iter.fields, 1
  {
    hide EncodeSlot, Emitted, SlotOf, FieldIter.Valid, FieldIter.OwnSize;
    ghost var u := stream.View();
    ghost var fields, slots := iter.fields, iter.dest;
    ghost var written: seq<Byte> := [];
    ghost var n := 0;
    EmittedNothing(u);
    JoinNothing(EncodeFrom(fields, slots, 0));
    var more := true;
    while more
      invariant stream.Valid() && iter.Canonical() && n <= |fields| && more == (n < |fields|)
      invariant more ==> iter.pos == n
      invariant Emitted(u, stream.View(), true, Some(written))
      invariant EncodeFrom(fields, slots, 0) == Join(Some(written), EncodeFrom(fields, slots, n))
      decreases |fields| - n
    {
      ghost var v, rest := stream.View(), EncodeFrom(fields, slots, n + 1);
      ghost var one := EncodeSlot(fields[n], Get(slots, SlotOf(fields, n)));
      JoinAssociative(Some(written), one, rest);
      ok, more := WriteAndNext(stream, iter);
      EmittedJoin(u, v, stream.View(), ok, Some(written), one);
      EmittedSound(u, stream.View(), ok, Join(Some(written), one));
      if !ok {
        EmittedFail(u, stream.View(), Join(Some(written), one), rest);
        return false;
      }
      written := written + one.value;
      n := n + 1;
    }
    JoinNothing(Some(written));
    return true;
  }

  /** pb_encode. It succeeds exactly when the message has an encoding and that fits, and then
      writes it; on a sizing stream it counts exactly the bytes it would write. */
  method PbEncode(stream: OStream, fields: seq<Field>, slots: seq<Slot>) returns (ok: bool)
    requires stream.Valid() && Covered(fields)
    modifies stream, stream.buf
    ensures Emitted(old(stream.View()), stream.View(), ok, EncodeMessage(fields, slots))
    decreases fields, 2
  {
    hide EncodeSlot, Emitted, OStream.View;
    EmittedNothing(stream.View());
    var iter := new FieldIter(fields, 0, slots);
    var more := iter.Begin();
    if !more {
      return true;
    }
    ok := WriteFields(stream, iter);
  }

  /** The second pass of pb_encode_submessage. Its substream is exactly as large as the first pass
      counted, and that is how much it writes: the size never changes between the passes. */
  method WriteSecondPass(stream: OStream, fields: seq<Field>, slots: seq<Slot>, size: nat) returns (ok: bool)
    requires stream.Valid() && !stream.sizing && Covered(fields)
    requires EncodeMessage(fields, slots).Some? && size == |EncodeMessage(fields, slots).value|
    requires stream.bytesWritten + size <= stream.maxSize
    modifies stream, stream.buf
    ensures ok && Emitted(old(stream.View()), stream.View(), true, EncodeMessage(fields, slots))
    decreases fields, 3
  {
    hide EncodeMessage;
    ghost var v, body := stream.View(), EncodeMessage(fields, slots).value;
    var substream := new OStream.Over(stream.buf, stream.state, size);
    var status := PbEncode(substream, fields, slots);
    stream.bytesWritten := stream.bytesWritten + substream.bytesWritten;
    stream.state := substream.state;
    assert stream.View() == After(v, body);
    if substream.bytesWritten != size {
      return false;
    }
    return status;
  }

  method WriteSubmessage(stream: OStream, fields: seq<Field>, slots: seq<Slot>) returns (ok: bool)
    requires stream.Valid() && Covered(fields)
    modifies stream, stream.buf
    ensures Emitted(old(stream.View()), stream.View(), ok, Delimited(EncodeMessage(fields, slots)))
    decreases fields, 4
  {
    hide EncodeMessage, V.EncodeVarint;
    ghost var u := stream.View();
    EmittedNothing(u);
    var size: nat;
    ok, size := PbGetEncodedSize(fields, slots);
    if !ok {
      return false;
    }
    ghost var body, prefix := EncodeMessage(fields, slots).value, V.EncodeVarint(size % TWO64);
    ok := WriteVarint(stream, size % TWO64);
    ghost var v := stream.View();
    if !ok {
      EmittedFail(u, v, Some(prefix), Some(body));
      return false;
    }
    if stream.sizing {
      ok := stream.Write([], size, body);
    } else if stream.bytesWritten + size > stream.maxSize {
      EmittedTooLong(v, body);
      ok := false;
    } else {
      ok := WriteSecondPass(stream, fields, slots, size);
    }
    EmittedJoin(u, v, stream.View(), ok, Some(prefix), Some(body));
  }

  method PbGetEncodedSize(fields: seq<Field>, slots: seq<Slot>) returns (ok: bool, size: nat)
    requires Covered(fields)
    ensures ok == EncodeMessage(fields, slots).Some? && (ok ==> size == |EncodeMessage(fields, slots).value|)
    decreases fields, 3
  {
    var stream := new OStream.Sizing();
    ok := PbEncode(stream, fields, slots);
    size := stream.bytesWritten;
  }

  method PbEncodeDelimited(stream: OStream, fields: seq<Field>, slots: seq<Slot>) returns (ok: bool)
    requires stream.Valid() && Covered(fields)
    modifies stream, stream.buf
    ensures Emitted(old(stream.View()), stream.View(), ok, Delimited(EncodeMessage(fields, slots)))
  {
    ok := WriteSubmessage(stream, fields, slots);
  }

  method PbEncodeNullterminated(stream: OStream, fields: seq<Field>, slots: seq<Slot>) returns (ok: bool)
    requires stream.Valid() && Covered(fields)
    modifies stream, stream.buf
    ensures Emitted(old(stream.View()), stream.View(), ok, Join(EncodeMessage(fields, slots), Some([0])))
  {
    hide EncodeMessage;
    ghost var u := stream.View();
    ok := PbEncode(stream, fields, slots);
    ghost var v := stream.View();
    if !ok {
      EmittedFail(u, v, EncodeMessage(fields, slots), Some([0]));
      return false;
    }
    ok := stream.Write([0], 1, [0]);
    EmittedJoin(u, v, stream.View(), ok, EncodeMessage(fields, slots), Some([0]));
  }
}

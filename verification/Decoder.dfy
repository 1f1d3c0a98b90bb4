/** pb_decode.c as the imperative program it is: a stream cursor, a field iterator, a destination
    written field by field, and the bitmap of required fields. Each method is proved to compute
    the function of module Decoding. */
module Decoder {
  import opened Words
  import V = Varint
  import opened InputStream
  import opened Descriptor
  import opened FieldIterator
  import opened Decoding
  import opened RequiredBitmap

  // ---------------------------------------------------------------- tags, skipping, substreams

  method ReadTag(stream: IStream) returns (ok: bool, wire: nat, tag: nat, eof: bool)
    requires stream.Valid()
    modifies stream
    ensures stream.Valid() && stream.End() == old(stream.End())
    ensures ok == DecodeTag(old(stream.Rest())).Record?
    ensures ok ==> DecodeTag(old(stream.Rest())) == Record(tag, wire, stream.Rest())
    ensures !ok ==> eof == DecodeTag(old(stream.Rest())).EndOfMessage?
    ensures !ok && eof ==> DecodeTag(old(stream.Rest())) == EndOfMessage(stream.Rest())
  {
    var word: nat;
    ok, word, eof := stream.DecodeVarint32Eof();
    if !ok {
      return false, 0, 0, eof;
    }
    if word == 0 {
      return false, 0, 0, true;
    }
    return true, word % 8, word / 8, false;
  }

  method SkipVarint(stream: IStream) returns (ok: bool)
    requires stream.Valid()
    modifies stream
    ensures stream.Valid() && stream.End() == old(stream.End())
    ensures ok == SkipField(WT_VARINT, old(stream.Rest())).Ok?
    ensures ok ==> stream.Rest() == SkipField(WT_VARINT, old(stream.Rest())).rest
  {
    ghost var before := stream.Rest();
    ghost var k := 0;
    while true
      invariant stream.Valid() && stream.End() == old(stream.End())
      invariant k <= |before| && stream.Rest() == before[k..] && forall i :: 0 <= i < k ==> before[i] >= 128
      decreases stream.bytesLeft
    {
      var more, b := stream.ReadByte();
      if !more {
        return false;
      }
      k := k + 1;
      if b < 128 {
        break;
      }
    }
    assert V.IsGroup(before[..k]) && before == before[..k] + before[k..];
    V.GroupLengthOf(before[..k], before[k..]);
    return true;
  }

  method Skip(stream: IStream, wire: nat) returns (ok: bool)
    requires stream.Valid()
    modifies stream
    ensures stream.Valid() && stream.End() == old(stream.End())
    ensures ok == SkipField(wire, old(stream.Rest())).Ok?
    ensures ok ==> stream.Rest() == SkipField(wire, old(stream.Rest())).rest
  {
    if wire == WT_VARINT {
      ok := SkipVarint(stream);
    } else if wire == WT_64BIT {
      ok := stream.Skip(8);
    } else if wire == WT_STRING {
      var size: nat, eof: bool;
      ok, size, eof := stream.DecodeVarint32Eof();
      if !ok {
        return false;
      }
      ok := stream.Skip(size);
    } else if wire == WT_32BIT {
      ok := stream.Skip(4);
    } else {
      ok := false;
    }
  }

  /** A 32-bit varint, as the length prefixes and bools use it. */
  method DecodeLength(stream: IStream) returns (ok: bool, size: nat)
    requires stream.Valid()
    modifies stream
    ensures stream.Valid() && stream.End() == old(stream.End())
    ensures ok == V.DecodeVarint32(old(stream.Rest())).Ok?
    ensures ok ==> V.DecodeVarint32(old(stream.Rest())) == Ok(size, stream.Rest())
  {
    var eof: bool;
    ok, size, eof := stream.DecodeVarint32Eof();
  }

  /** On success the substream holds the delimited bytes, and the parent, still standing at their
      start, has only what follows them left to count. */
  method MakeStringSubstream(stream: IStream) returns (ok: bool, sub: IStream)
    requires stream.Valid()
    modifies stream
    ensures stream.Valid() && fresh(sub) && sub.Valid() && sub.buf == stream.buf
    ensures ok == TakeDelimited(old(stream.Rest())).Ok?
    ensures !ok ==> stream.End() == old(stream.End())
    ensures ok ==> sub.Rest() == TakeDelimited(old(stream.Rest())).value
    ensures ok ==> sub.End() + stream.bytesLeft == old(stream.End()) && stream.End() <= old(stream.End())
    ensures ok ==> stream.buf[sub.End()..sub.End() + stream.bytesLeft] == TakeDelimited(old(stream.Rest())).rest
  {
    hide V.DecodeVarint32;
    var size: nat;
    ok, size := DecodeLength(stream);
    sub := new IStream.FromBuffer(stream.buf, stream.state, stream.bytesLeft);
    if !ok || sub.bytesLeft < size {
      return false, sub;
    }
    ghost var rest := stream.Rest();
    sub.bytesLeft := size;
    stream.bytesLeft := stream.bytesLeft - size;
    assert sub.Rest() == rest[..size];
    assert stream.buf[sub.End()..sub.End() + stream.bytesLeft] == rest[size..];
  }

  /** Unread bytes are skipped and the parent goes on behind the substream. */
  method CloseStringSubstream(stream: IStream, sub: IStream) returns (ok: bool)
    requires stream.Valid() && sub.Valid() && sub != stream && sub.buf == stream.buf
    requires sub.End() + stream.bytesLeft <= stream.buf.Length
    modifies stream, sub
    ensures ok && stream.Valid()
    ensures stream.state == old(sub.End()) && stream.bytesLeft == old(stream.bytesLeft)
  {
    if sub.bytesLeft > 0 {
      var skipped := sub.Skip(sub.bytesLeft);
      if !skipped {
        return false;
      }
    }
    stream.state := sub.state;
    return true;
  }

  // ---------------------------------------------------------------- scalar decoders

  method DecBool(stream: IStream, f: Field) returns (ok: bool, v: Value)
    requires stream.Valid() && f.ltype.Bool?
    modifies stream
    ensures stream.Valid() && stream.End() == old(stream.End())
    ensures ok == DecodeScalar(f, old(stream.Rest())).Ok?
    ensures ok ==> DecodeScalar(f, old(stream.Rest())) == Ok(v, stream.Rest())
  {
    var value: nat;
    ok, value := DecodeLength(stream);
    v := Num(if value != 0 then 1 else 0);
  }

  method DecVarint(stream: IStream, f: Field) returns (ok: bool, v: Value)
    requires stream.Valid() && f.ltype.Varint?
    modifies stream
    ensures stream.Valid() && stream.End() == old(stream.End())
    ensures ok == DecodeScalar(f, old(stream.Rest())).Ok?
    ensures ok ==> DecodeScalar(f, old(stream.Rest())) == Ok(v, stream.Rest())
  {
    var value: nat;
    ok, value := stream.DecodeVarint();
    if !ok {
      return false, Num(0);
    }
    var svalue := if f.dataSize == 8 then V.ToSigned(value, 8) else V.ToSigned(value, 4);
    if !NumericSize(f.dataSize) {
      return false, Num(0);
    }
    var clamped := V.ToSigned(svalue, f.dataSize);
    return clamped == svalue, Num(clamped);
  }

  method DecUVarint(stream: IStream, f: Field) returns (ok: bool, v: Value)
    requires stream.Valid() && f.ltype.UVarint?
    modifies stream
    ensures stream.Valid() && stream.End() == old(stream.End())
    ensures ok == DecodeScalar(f, old(stream.Rest())).Ok?
    ensures ok ==> DecodeScalar(f, old(stream.Rest())) == Ok(v, stream.Rest())
  {
    var value: nat;
    ok, value := stream.DecodeVarint();
    if !ok || !NumericSize(f.dataSize) {
      return false, Num(0);
    }
    var clamped := value % Pow2(8 * f.dataSize);
    return clamped == value, Num(clamped);
  }

  method DecSVarint(stream: IStream, f: Field) returns (ok: bool, v: Value)
    requires stream.Valid() && f.ltype.SVarint?
    modifies stream
    ensures stream.Valid() && stream.End() == old(stream.End())
    ensures ok == DecodeScalar(f, old(stream.Rest())).Ok?
    ensures ok ==> DecodeScalar(f, old(stream.Rest())) == Ok(v, stream.Rest())
  {
    var word: nat;
    ok, word := stream.DecodeVarint();
    if !ok || !NumericSize(f.dataSize) {
      return false, Num(0);
    }
    var value := V.UnZigZag(word);
    var clamped := V.ToSigned(value, f.dataSize);
    return clamped == value, Num(clamped);
  }

  method DecFixed(stream: IStream, f: Field) returns (ok: bool, v: Value)
    requires stream.Valid() && (f.ltype.Fixed32? || f.ltype.Fixed64?)
    modifies stream
    ensures stream.Valid() && stream.End() == old(stream.End())
    ensures ok == DecodeScalar(f, old(stream.Rest())).Ok?
    ensures ok ==> DecodeScalar(f, old(stream.Rest())) == Ok(v, stream.Rest())
  {
    var raw: seq<Byte>;
    ok, raw := stream.Read(if f.ltype.Fixed32? then 4 else 8);
    v := Num(LittleEndian(raw));
  }

  method DecBytes(stream: IStream, f: Field) returns (ok: bool, v: Value)
    requires stream.Valid() && f.ltype.Bytes?
    modifies stream
    ensures stream.Valid() && stream.End() == old(stream.End())
    ensures ok == DecodeScalar(f, old(stream.Rest())).Ok?
    ensures ok ==> DecodeScalar(f, old(stream.Rest())) == Ok(v, stream.Rest())
  {
    var size: nat, raw: seq<Byte>;
    ok, size := DecodeLength(stream);
    if !ok || size > PB_SIZE_MAX {
      return false, Blob([]);
    }
    var allocSize := size + PB_SIZE_WIDTH;
    if allocSize > f.dataSize {
      return false, Blob([]);
    }
    ok, raw := stream.Read(size);
    v := Blob(raw);
  }

  method DecString(stream: IStream, f: Field) returns (ok: bool, v: Value)
    requires stream.Valid() && f.ltype.Text?
    modifies stream
    ensures stream.Valid() && stream.End() == old(stream.End())
    ensures ok == DecodeScalar(f, old(stream.Rest())).Ok?
    ensures ok ==> DecodeScalar(f, old(stream.Rest())) == Ok(v, stream.Rest())
  {
    var size: nat, raw: seq<Byte>;
    ok, size := DecodeLength(stream);
    if !ok {
      return false, Blob([]);
    }
    var allocSize := size + 1;
    if allocSize > f.dataSize {
      return false, Blob([]);
    }
    ok, raw := stream.Read(size);
    v := Blob(raw);
  }

  method DecFixedLengthBytes(stream: IStream, f: Field) returns (ok: bool, v: Value)
    requires stream.Valid() && f.ltype.FixedBytes?
    modifies stream
    ensures stream.Valid() && stream.End() == old(stream.End())
    ensures ok == DecodeScalar(f, old(stream.Rest())).Ok?
    ensures ok ==> DecodeScalar(f, old(stream.Rest())) == Ok(v, stream.Rest())
  {
    var size: nat, raw: seq<Byte>;
    ok, size := DecodeLength(stream);
    if !ok || size > PB_SIZE_MAX {
      return false, Blob([]);
    }
    if size == 0 {
      return true, Blob(Zeros(f.dataSize));
    }
    if size != f.dataSize {
      return false, Blob([]);
    }
    ok, raw := stream.Read(f.dataSize);
    v := Blob(raw);
  }

  /** The dispatch through PB_DECODERS for everything but submessages. */
  method DecScalar(stream: IStream, f: Field) returns (ok: bool, v: Value)
    requires stream.Valid() && !f.ltype.SubMessage? && !f.ltype.Extension?
    modifies stream
    ensures stream.Valid() && stream.End() == old(stream.End())
    ensures ok == DecodeScalar(f, old(stream.Rest())).Ok?
    ensures ok ==> DecodeScalar(f, old(stream.Rest())) == Ok(v, stream.Rest())
  {
    hide DecodeScalar;
    match f.ltype
    case Bool => ok, v := DecBool(stream, f);
    case Varint => ok, v := DecVarint(stream, f);
    case UVarint => ok, v := DecUVarint(stream, f);
    case SVarint => ok, v := DecSVarint(stream, f);
    case Bytes => ok, v := DecBytes(stream, f);
    case Text => ok, v := DecString(stream, f);
    case FixedBytes => ok, v := DecFixedLengthBytes(stream, f);
    case Fixed32 => ok, v := DecFixed(stream, f);
    case Fixed64 => ok, v := DecFixed(stream, f);
  }

  // ---------------------------------------------------------------- defaults

  /** Memory seen as the struct of a descriptor: a joined field has no storage of its own. */
  function AsStruct(fields: seq<Field>, dest: seq<Slot>): (r: seq<Slot>)
    ensures |r| == |fields|
  {
    seq(|fields|, i requires 0 <= i < |fields| => if Joins(fields, i) then Joined else Get(dest, i))
  }

  /** What pb_field_set_to_default leaves in slot `j` when it has visited the fields before `n`. */
  function DefaultsUpTo(fields: seq<Field>, dest: seq<Slot>, n: nat): (r: seq<Slot>)
    ensures |r| == |fields|
    ensures forall j :: 0 <= j < |fields| ==>
              r[j] == if Joins(fields, j) then Joined else if j < n then DefaultSlot(fields[j]) else Get(dest, j)
  {
    seq(|fields|, j requires 0 <= j < |fields| =>
      if Joins(fields, j) then Joined else if j < n then DefaultSlot(fields[j]) else Get(dest, j))
  }

  method FieldSetToDefault(iter: FieldIter)
    requires iter.Valid() && iter.pos < |iter.fields| && CoveredField(iter.fields[iter.pos])
    modifies iter`dest
    ensures iter.dest == Put(old(iter.dest), SlotOf(iter.fields, iter.pos), DefaultSlot(iter.fields[iter.pos]))
    decreases iter.fields[iter.pos], 0
  {
    var f, k := iter.fields[iter.pos], SlotOf(iter.fields, iter.pos);
    if f.htype.Repeated? {
      iter.dest := Put(iter.dest, k, Many([]));
    } else if f.htype.OneOf? {
      iter.dest := Put(iter.dest, k, Union(0, Num(0)));
    } else {
      var v: Value;
      if f.ltype.SubMessage? {
        var slots := MessageSetToDefaults(f.sub, iter.pData, Slots(Content(Get(iter.dest, k))));
        v := Msg(slots);
      } else if f.init.Some? {
        v := f.init.value;
      } else {
        v := ZeroValue(f);
      }
      iter.dest := Put(iter.dest, k, if f.htype.Optional? && f.sizeOffset != 0 then Opt(false, v) else Single(v));
    }
  }

  /** One turn of the loop over the fields. */
  method DefaultAndNext(iter: FieldIter) returns (more: bool)
    requires iter.Canonical() && iter.pos < |iter.fields| && CoveredField(iter.fields[iter.pos])
    modifies iter
    ensures iter.Canonical() && more == (old(iter.pos) + 1 < |iter.fields|) && (more ==> iter.pos == old(iter.pos) + 1)
    ensures iter.dest
            == Put(old(iter.dest), SlotOf(iter.fields, old(iter.pos)), DefaultSlot(iter.fields[old(iter.pos)]))
    decreases iter.fields[iter.pos], 1
  {
    FieldSetToDefault(iter);
    more := iter.Next();
  }

  /** The loop of pb_message_set_to_defaults, from the first field on. */
  method DefaultAll(iter: FieldIter)
    requires iter.Canonical() && iter.pos == 0 && |iter.fields| > 0 && Covered(iter.fields)
    requires iter.dest == AsStruct(iter.fields, iter.dest)
    modifies iter
    ensures iter.dest == DefaultsUpTo(iter.fields, old(iter.dest), |iter.fields|)
    decreases iter.fields, 0
  {
    hide DefaultSlot, DefaultsUpTo, SlotOf, FieldIter.Valid, FieldIter.OwnSize;
    ghost var start := iter.dest;
    DefaultsEnds(iter.fields, start);
    ghost var n := 0;
    var more := true;
    while more
      invariant iter.Canonical() && n <= |iter.fields| && more == (n < |iter.fields|)
      invariant more ==> iter.pos == n
      invariant iter.dest == DefaultsUpTo(iter.fields, start, n)
      decreases |iter.fields| - n
    {
      more := DefaultAndNext(iter);
      DefaultsStep(iter.fields, start, n);
      n := n + 1;
    }
  }

  method MessageSetToDefaults(fields: seq<Field>, base: int, dest: seq<Slot>) returns (dest': seq<Slot>)
    requires Covered(fields)
    ensures dest' == Defaults(fields)
    decreases fields, 1
  {
    var iter := new FieldIter(fields, base, AsStruct(fields, dest));
    var more := iter.Begin();
    DefaultsEnds(fields, iter.dest);
    if more {
      DefaultAll(iter);
    }
    return iter.dest;
  }

  lemma DefaultsEnds(fields: seq<Field>, dest: seq<Slot>)
    requires dest == AsStruct(fields, dest)
    ensures DefaultsUpTo(fields, dest, 0) == dest && DefaultsUpTo(fields, dest, |fields|) == Defaults(fields)
  {
  }

  lemma DefaultsStep(fields: seq<Field>, dest: seq<Slot>, n: nat)
    requires n < |fields|
    ensures DefaultsUpTo(fields, dest, n + 1)
            == Put(DefaultsUpTo(fields, dest, n), SlotOf(fields, n), DefaultSlot(fields[n]))
  {
    UnionHead(fields, n);
  }

  // ---------------------------------------------------------------- one field

  /** The loop over a packed run: elements are stored one by one while there is room. It stops
      early on a bad element or a full array; either way bytes or a failure are left over. */
  method DecodePackedRun(sub: IStream, f: Field, items: seq<Value>, count: nat)
    returns (ok: bool, items': seq<Value>, count': nat)
    requires sub.Valid() && Packable(f.ltype)
    modifies sub
    ensures sub.Valid() && sub.End() == old(sub.End())
    ensures (ok && sub.bytesLeft == 0) == DecodePacked(f, items, count, old(sub.Rest())).Some?
    ensures ok && sub.bytesLeft == 0 ==> DecodePacked(f, items, count, old(sub.Rest())) == Some((items', count'))
  {
    hide DecodeScalar;
    items', count' := items, count;
    while sub.bytesLeft > 0 && count' < f.arraySize
      invariant sub.Valid() && sub.End() == old(sub.End())
      invariant DecodePacked(f, items, count, old(sub.Rest())) == DecodePacked(f, items', count', sub.Rest())
      decreases sub.bytesLeft
    {
      ghost var before := sub.Rest();
      var more, v := DecScalar(sub, f);
      if !more {
        return false, items', count';
      }
      assert DecodeScalar(f, before) == Ok(v, sub.Rest());
      items' := PutItem(items', count', v);
      count' := count' + 1;
    }
    return true, items', count';
  }

  /** The packed path: bytes left over after the loop are an "array overflow", reported without
      closing the substream. */
  method DecodePackedField(stream: IStream, f: Field, slot: Slot, count: nat)
    returns (ok: bool, items: seq<Value>, count': nat)
    requires stream.Valid() && Packable(f.ltype)
    modifies stream
    ensures stream.Valid() && stream.End() <= old(stream.End())
    ensures var t := TakeDelimited(old(stream.Rest()));
            ok == (t.Ok? && DecodePacked(f, Items(slot), count, t.value).Some?)
            && (ok ==> stream.End() == old(stream.End()) && stream.Rest() == t.rest
                       && DecodePacked(f, Items(slot), count, t.value) == Some((items, count')))
  {
    hide DecodePacked, TakeDelimited;
    var sub: IStream;
    ok, sub := MakeStringSubstream(stream);
    if !ok {
      return false, [], count;
    }
    var status: bool;
    status, items, count' := DecodePackedRun(sub, f, Items(slot), count);
    if sub.bytesLeft != 0 {
      return false, items, count';
    }
    ok := CloseStringSubstream(stream, sub);
    ok := status;
  }

  /** The dispatch through PB_DECODERS; `address` is where the element lies. */
  method DecValue(stream: IStream, f: Field, address: int, into: Value) returns (ok: bool, v: Value)
    requires stream.Valid() && CoveredField(f)
    modifies stream
    ensures stream.Valid() && stream.End() <= old(stream.End())
    ensures ok == DecodeValue(f, into, old(stream.Rest())).Ok?
    ensures ok ==> stream.End() == old(stream.End()) && DecodeValue(f, into, old(stream.Rest())) == Ok(v, stream.Rest())
    decreases stream.bytesLeft, 1
  {
    if f.ltype.SubMessage? {
      ok, v := DecSubmessage(stream, f, address, into);
    } else {
      ok, v := DecScalar(stream, f);
    }
  }

  /** The body of a submessage: array elements are initialised first, others are merged. */
  method DecBody(sub: IStream, f: Field, address: int, into: Value) returns (ok: bool, slots: seq<Slot>)
    requires sub.Valid() && CoveredField(f) && f.ltype.SubMessage?
    modifies sub
    ensures sub.Valid() && sub.End() <= old(sub.End())
    ensures var r := DecodeMessage(f.sub, if f.htype.Repeated? then Defaults(f.sub) else Slots(into), old(sub.Rest()));
            ok == r.Ok? && (ok ==> sub.End() == old(sub.End()) && r.value == slots)
    decreases sub.bytesLeft, 9
  {
    hide DecodeMessage;
    if f.htype.Repeated? {
      ok, slots := PbDecode(sub, f.sub, address, Slots(into));
    } else {
      ok, slots := DecodeNoInit(sub, f.sub, address, Slots(into));
    }
  }

  method DecSubmessage(stream: IStream, f: Field, address: int, into: Value) returns (ok: bool, v: Value)
    requires stream.Valid() && CoveredField(f) && f.ltype.SubMessage?
    modifies stream
    ensures stream.Valid() && stream.End() <= old(stream.End())
    ensures ok == DecodeValue(f, into, old(stream.Rest())).Ok?
    ensures ok ==> stream.End() == old(stream.End()) && DecodeValue(f, into, old(stream.Rest())) == Ok(v, stream.Rest())
    decreases stream.bytesLeft, 0
  {
    hide DecodeMessage, TakeDelimited, CoveredField;
    var sub: IStream;
    ok, sub := MakeStringSubstream(stream);
    if !ok {
      return false, into;
    }
    var slots: seq<Slot>;
    ok, slots := DecBody(sub, f, address, into);
    v := Msg(slots);
    var closed := CloseStringSubstream(stream, sub);
  }

  /** One array record: a packed run, or one more element. */
  method DecodeArrayField(stream: IStream, wire: nat, f: Field, address: int, slot: Slot, count: nat)
    returns (ok: bool, slot': Slot, count': nat)
    requires stream.Valid() && CoveredField(f) && f.htype.Repeated?
    modifies stream
    ensures stream.Valid() && stream.End() <= old(stream.End())
    ensures var r := DecodeStatic(f, wire, slot, count, old(stream.Rest()));
            ok == r.Ok?
            && (ok ==> stream.End() == old(stream.End()) && r == Ok((slot', count'), stream.Rest()))
    decreases stream.bytesLeft, 2
  {
    hide DecodeValue, DecodePacked, TakeDelimited;
    slot', count' := slot, count;
    if wire == WT_STRING && Packable(f.ltype) {
      var items: seq<Value>;
      ok, items, count' := DecodePackedField(stream, f, slot, count);
      slot' := Many(items);
    } else if count >= f.arraySize {
      ok := false;
    } else {
      var v: Value;
      ok, v := DecValue(stream, f, address + f.dataSize * count, Num(0));
      slot' := Many(PutItem(Items(slot), count, v));
      count' := count + 1;
    }
  }

  /** decode_static_field at the iterator's position. `fixedCount` is the counter that stands in
      for a fixed-count array's missing count word. */
  method DecodeStaticField(stream: IStream, wire: nat, iter: FieldIter, fixedCount: nat)
    returns (ok: bool, fixedCount': nat)
    requires stream.Valid() && iter.Valid() && iter.pos < |iter.fields| && CoveredField(iter.fields[iter.pos])
    requires FixedCount(iter.fields[iter.pos]) ==> iter.pSize == LocalCounter
    modifies stream, iter`dest
    ensures stream.Valid() && stream.End() <= old(stream.End())
    ensures var f, k := iter.fields[iter.pos], SlotOf(iter.fields, iter.pos);
            var slot := Get(old(iter.dest), k);
            var n := if FixedCount(f) then fixedCount else |Items(slot)|;
            var r := DecodeStatic(f, wire, slot, n, old(stream.Rest()));
            ok == r.Ok?
            && (ok ==>
                  && stream.End() == old(stream.End()) && stream.Rest() == r.rest
                  && iter.dest == Put(old(iter.dest), k, r.value.0)
                  && fixedCount' == if FixedCount(f) then r.value.1 else fixedCount)
    decreases stream.bytesLeft, 3
  {
    hide DecodeValue, DecodePacked, TakeDelimited, FieldIter.Valid;
    var f, k := iter.fields[iter.pos], SlotOf(iter.fields, iter.pos);
    var slot := Get(iter.dest, k);
    var v: Value;
    fixedCount' := fixedCount;
    match f.htype
    case Required =>
      ok, v := DecValue(stream, f, iter.pData, Content(slot));
      iter.dest := Put(iter.dest, k, Single(v));
    case Optional =>
      ok, v := DecValue(stream, f, iter.pData, Content(slot));
      iter.dest := Put(iter.dest, k, if f.sizeOffset != 0 then Opt(true, v) else Single(v));
    case Repeated =>
      var size := if FixedCount(f) then fixedCount else |Items(slot)|;
      ok, slot, size := DecodeArrayField(stream, wire, f, iter.pData, slot, size);
      iter.dest := Put(iter.dest, k, slot);
      if FixedCount(f) {
        fixedCount' := size;
      }
    case OneOf =>
      var into := Content(slot);
      if f.ltype.SubMessage? && Which(slot) != f.tag {
        var slots := MessageSetToDefaults(f.sub, iter.pData, []);
        into := Msg(slots);
      }
      ok, v := DecValue(stream, f, iter.pData, into);
      iter.dest := Put(iter.dest, k, Union(f.tag, v));
  }

  // ---------------------------------------------------------------- messages

  /** The count of required fields, found by running the iterator to the end from wherever it
      stands. */
  method CountRequired(iter: FieldIter) returns (count: nat)
    requires iter.Valid()
    requires iter.pSize != iter.OwnSize() ==> iter.pos < |iter.fields| && !iter.fields[iter.pos].htype.OneOf?
    modifies iter`pos, iter`requiredIndex, iter`pData, iter`pSize
    ensures count == RequiredBefore(iter.fields, |iter.fields|)
  {
    var lastRequired: bool;
    while true
      invariant iter.Valid()
      invariant iter.pSize != iter.OwnSize() ==> iter.pos < |iter.fields| && !iter.fields[iter.pos].htype.OneOf?
      decreases |iter.fields| - iter.pos
    {
      count := iter.requiredIndex;
      // The type of the terminator reads as required.
      lastRequired := iter.pos < |iter.fields| ==> iter.fields[iter.pos].htype.Required?;
      assert iter.pos < |iter.fields| ==>
          RequiredBefore(iter.fields, iter.pos + 1) == count + if lastRequired then 1 else 0;
      ghost var pos := iter.pos;
      var more := iter.Next();
      if !more {
        assert |iter.fields| > 0 ==> pos + 1 == |iter.fields|;
        break;
      }
    }
    if lastRequired && iter.TagAt(iter.pos) != 0 {
      count := count + 1;
    }
  }

  /** The iterator between records: canonical, unless its size pointer is still redirected to the
      counter of the fixed-count array it stands at. */
  ghost predicate Settled(iter: FieldIter, fixedField: Option<nat>)
    reads iter
  {
    && iter.Valid()
    && (iter.pSize != iter.OwnSize() ==>
          iter.pSize == LocalCounter && fixedField == Some(iter.pos) && iter.pos < |iter.fields|
          && FixedCount(iter.fields[iter.pos]))
  }

  /** The bitmap and the set it stands for; the terminator of an empty descriptor may set a bit
      that nothing looks at. */
  ghost predicate Tracks(fields: seq<Field>, words: seq<nat>, seen: set<nat>) {
    |fields| > 0 ==>
      Represents(words, seen)
      && forall k :: k in seen ==> k < RequiredBefore(fields, |fields|) && k < PB_MAX_REQUIRED_FIELDS
  }

  const TERMINATOR: Field := Field(0, Static, HType.Required, Bool, 0, 0, 0, 0, [], None)

  /** The field at the iterator's position has been recognised: turn to its fixed-count counter if
      it needs one, mark it seen if it is required, and decode it. */
  method DecodeKnown(stream: IStream, wire: nat, iter: FieldIter, words: array<nat>,
                     fixedField: Option<nat>, fixedCount: nat, ghost seen: set<nat>)
    returns (ok: bool, fixedField': Option<nat>, fixedCount': nat, ghost seen': set<nat>)
    requires stream.Valid() && Settled(iter, fixedField) && iter.pos < |iter.fields| && Covered(iter.fields)
    requires words.Length == 2 && Tracks(iter.fields, words[..], seen)
    modifies stream, iter`pSize, iter`dest, words
    ensures stream.Valid() && stream.End() <= old(stream.End())
    ensures var r := DecodeField(iter.fields, State(old(iter.dest), seen, fixedField, fixedCount), iter.pos, wire,
                                 old(stream.Rest()));
            ok == r.Ok?
            && (ok ==>
                  && stream.End() == old(stream.End())
                  && r == Ok(State(iter.dest, seen', fixedField', fixedCount'), stream.Rest())
                  && Settled(iter, fixedField') && Tracks(iter.fields, words[..], seen'))
    decreases stream.bytesLeft, 4
  {
    hide DecodeStatic, SlotOf, Represents;
    var f := iter.fields[iter.pos];
    assert CoveredField(f);
    fixedField', fixedCount', seen' := fixedField, fixedCount, seen;
    UnionHead(iter.fields, iter.pos);
    if f.htype.Repeated? && iter.pSize == InStruct(iter.pData) {
      if fixedField' != Some(iter.pos) {
        if fixedField'.Some? && fixedField'.value < |iter.fields|
           && fixedCount' != iter.fields[fixedField'.value].arraySize {
          return false, fixedField', fixedCount', seen';
        }
        fixedField', fixedCount' := Some(iter.pos), 0;
      }
      iter.pSize := LocalCounter;
    }
    assert FixedCount(f) ==> iter.pSize == LocalCounter;
    if f.htype.Required? && iter.requiredIndex < PB_MAX_REQUIRED_FIELDS {
      RequiredGrows(iter.fields, iter.pos, |iter.fields|);
      Mark(words, iter.requiredIndex, seen');
      seen' := seen' + {iter.requiredIndex};
    }
    ok, fixedCount' := DecodeStaticField(stream, wire, iter, fixedCount');
  }

  /** A tag word has been read; find its field, or skip the payload. */
  method HandleRecord(stream: IStream, wire: nat, tag: nat, iter: FieldIter, words: array<nat>,
                      fixedField: Option<nat>, fixedCount: nat, extensionStart: nat, ghost seen: set<nat>)
    returns (ok: bool, fixedField': Option<nat>, fixedCount': nat, extensionStart': nat, ghost seen': set<nat>)
    requires stream.Valid() && Settled(iter, fixedField) && Covered(iter.fields) && tag < TWO32 / 8
    requires words.Length == 2 && Tracks(iter.fields, words[..], seen)
    modifies stream, iter, words
    ensures stream.Valid() && stream.End() <= old(stream.End())
    ensures var r := DecodeRecord(iter.fields, State(old(iter.dest), seen, fixedField, fixedCount), tag, wire,
                                  old(stream.Rest()));
            ok == r.Ok?
            && (ok ==>
                  && stream.End() == old(stream.End())
                  && r == Ok(State(iter.dest, seen', fixedField', fixedCount'), stream.Rest())
                  && Settled(iter, fixedField') && Tracks(iter.fields, words[..], seen'))
    decreases stream.bytesLeft, 5
  {
    hide DecodeField, SkipField;
    fixedField', fixedCount', extensionStart', seen' := fixedField, fixedCount, extensionStart, seen;
    var found := iter.Find(tag);
    if !found {
      if tag >= extensionStart' {
        assert forall i :: 0 <= i < |iter.fields| ==> CoveredField(iter.fields[i]);
        var extension := iter.FindExtension();
        extensionStart' := TWO32 - 1;
      }
      ok := Skip(stream, wire);
    } else if |iter.fields| == 0 {
      words[0] := BitOr(words[0], 1);
      var value: Value;
      ok, value := DecBool(stream, TERMINATOR);
    } else {
      LookupUnique(iter.fields, iter.pos);
      ok, fixedField', fixedCount', seen' :=
        DecodeKnown(stream, wire, iter, words, fixedField', fixedCount', seen');
    }
  }

  /** The record loop. */
  method DecodeRecords(stream: IStream, iter: FieldIter, words: array<nat>)
    returns (ok: bool, fixedField: Option<nat>, fixedCount: nat, ghost seen: set<nat>)
    requires stream.Valid() && iter.Canonical() && Covered(iter.fields)
    requires words.Length == 2 && Tracks(iter.fields, words[..], {})
    modifies stream, iter, words
    ensures stream.Valid() && stream.End() <= old(stream.End())
    ensures var r := RunRecords(iter.fields, Start(old(iter.dest)), old(stream.Rest()));
            ok == r.Done?
            && (ok ==>
                  && stream.End() == old(stream.End())
                  && r.state == State(iter.dest, seen, fixedField, fixedCount) && r.rest == stream.Rest()
                  && Settled(iter, fixedField) && Tracks(iter.fields, words[..], seen))
    decreases stream.bytesLeft, 6
  {
    assert Settled(iter, None);
    hide DecodeRecord, DecodeTag, Covered, Tracks, Settled;
    fixedField, fixedCount, seen := None, 0, {};
    var extensionStart := 0;
    ghost var all := RunRecords(iter.fields, Start(iter.dest), stream.Rest());
    while stream.bytesLeft > 0
      invariant stream.Valid() && stream.End() == old(stream.End())
      invariant all == RunRecords(iter.fields, State(iter.dest, seen, fixedField, fixedCount), stream.Rest())
      invariant Settled(iter, fixedField) && Tracks(iter.fields, words[..], seen)
      decreases stream.bytesLeft
    {
      ghost var before := stream.Rest();
      var more, wire, tag, eof := ReadTag(stream);
      if !more {
        return eof, fixedField, fixedCount, seen;
      }
      ok, fixedField, fixedCount, extensionStart, seen :=
        HandleRecord(stream, wire, tag, iter, words, fixedField, fixedCount, extensionStart, seen);
      if !ok {
        return false, fixedField, fixedCount, seen;
      }
    }
    return true, fixedField, fixedCount, seen;
  }

  /** The checks after the last record. */
  method FinalChecks(iter: FieldIter, words: array<nat>, fixedField: Option<nat>, fixedCount: nat, ghost seen: set<nat>)
    returns (ok: bool)
    requires Settled(iter, fixedField) && words.Length == 2 && Tracks(iter.fields, words[..], seen)
    modifies iter`pos, iter`requiredIndex, iter`pData, iter`pSize
    ensures ok == (FixedDone(iter.fields, State(iter.dest, seen, fixedField, fixedCount))
                   && RequiredSeen(iter.fields, seen))
  {
    hide Represents;
    if fixedField.Some? && fixedField.value < |iter.fields| && fixedCount != iter.fields[fixedField.value].arraySize {
      return false;
    }
    var count := CountRequired(iter);
    if count > PB_MAX_REQUIRED_FIELDS {
      count := PB_MAX_REQUIRED_FIELDS;
    }
    if count > 0 {
      ok := AllSeen(words, count, seen);
    } else {
      ok := true;
    }
  }

  /** pb_decode_noinit: records until the stream ends or a zero tag word, then the checks on the
      last fixed-count array and the required fields. */
  method DecodeNoInit(stream: IStream, fields: seq<Field>, base: int, dest: seq<Slot>)
    returns (ok: bool, dest': seq<Slot>)
    requires stream.Valid() && Covered(fields)
    modifies stream
    ensures stream.Valid() && stream.End() <= old(stream.End())
    ensures ok == DecodeMessage(fields, dest, old(stream.Rest())).Ok?
    ensures ok ==> stream.End() == old(stream.End())
                   && DecodeMessage(fields, dest, old(stream.Rest())) == Ok(dest', stream.Rest())
    decreases stream.bytesLeft, 7
  {
    hide RunRecords, Represents, RequiredSeen, FixedDone;
    var iter := new FieldIter(fields, base, dest);
    var words := new nat[2](_ => 0);
    assert words[..] == [0, 0];
    EmptyBitmap();
    var fixedField: Option<nat>, fixedCount: nat;
    ghost var seen: set<nat>;
    ok, fixedField, fixedCount, seen := DecodeRecords(stream, iter, words);
    dest' := iter.dest;
    if ok {
      ok := FinalChecks(iter, words, fixedField, fixedCount, seen);
    }
  }

  method PbDecode(stream: IStream, fields: seq<Field>, base: int, dest: seq<Slot>) returns (ok: bool, dest': seq<Slot>)
    requires stream.Valid() && Covered(fields)
    modifies stream
    ensures stream.Valid() && stream.End() <= old(stream.End())
    ensures ok == Decode(fields, old(stream.Rest())).Ok?
    ensures ok ==> stream.End() == old(stream.End())
                   && Decode(fields, old(stream.Rest())) == Ok(dest', stream.Rest())
    decreases stream.bytesLeft, 8
  {
    var initial := MessageSetToDefaults(fields, base, dest);
    ok, dest' := DecodeNoInit(stream, fields, base, initial);
  }

  /** pb_decode_delimited: however much of the substream the message uses, success moves the
      parent past exactly the length prefix and that many bytes. */
  method PbDecodeDelimited(stream: IStream, fields: seq<Field>, dest: seq<Slot>) returns (ok: bool, dest': seq<Slot>)
    requires stream.Valid() && Covered(fields)
    modifies stream
    ensures stream.Valid() && stream.End() <= old(stream.End())
    ensures ok == DecodeDelimited(fields, old(stream.Rest())).Ok?
    ensures ok ==> stream.End() == old(stream.End())
                   && DecodeDelimited(fields, old(stream.Rest())) == Ok(dest', stream.Rest())
  {
    hide Decode, TakeDelimited;
    var sub: IStream;
    ok, sub := MakeStringSubstream(stream);
    if !ok {
      return false, dest;
    }
    ok, dest' := PbDecode(sub, fields, 0, dest);
    var closed := CloseStringSubstream(stream, sub);
  }
}

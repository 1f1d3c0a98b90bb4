/** What pb_encode.c writes, as functions from message structs to bytes; None is an error that no
    amount of stream space avoids. */
module Encoding {
  import opened Words
  import V = Varint
  import opened Descriptor
  import opened Decoding

  function EncodeTag(wire: nat, tag: nat): (bs: seq<Byte>)
    ensures |bs| > 0
  {
    V.EncodeVarint(tag * 8 + wire)
  }

  function WireOf(t: LType): nat {
    match t
    case Fixed32 => WT_32BIT
    case Fixed64 => WT_64BIT
    case Bytes => WT_STRING
    case Text => WT_STRING
    case SubMessage => WT_STRING
    case FixedBytes => WT_STRING
    case _ => WT_VARINT
  }

  /** pb_encode_string: the length cast to 64 bits, then the bytes. */
  function Delimit(body: seq<Byte>): seq<Byte> {
    V.EncodeVarint(|body| % TWO64) + body
  }

  function Delimited(body: Option<seq<Byte>>): Option<seq<Byte>> {
    if body.Some? then Some(Delimit(body.value)) else None
  }

  function LittleEndianBytes(n: nat, size: nat): (bs: seq<Byte>)
    ensures |bs| == size
  {
    if size == 0 then [] else [n % 0x100] + LittleEndianBytes(n / 0x100, size - 1)
  }

  /** A string buffer of `limit` bytes up to its first NUL. */
  function CString(b: seq<Byte>, limit: nat): (s: seq<Byte>)
    ensures |s| <= |b| && |s| <= limit && s == b[..|s|]
    ensures forall i :: 0 <= i < |s| ==> s[i] != 0
    ensures |s| < |b| && |s| < limit ==> b[|s|] == 0
    decreases limit
  {
    if limit == 0 || b == [] || b[0] == 0 then [] else [b[0]] + CString(b[1..], limit - 1)
  }

  /** The first `n` bytes of a buffer. */
  function Buffer(b: seq<Byte>, n: nat): (r: seq<Byte>)
    ensures |r| == n && (|b| == n ==> r == b)
  {
    seq(n, i requires 0 <= i < n => ByteAt(b, i))
  }

  function EncodeScalar(f: Field, v: Value): Option<seq<Byte>> {
    match f.ltype
    case Bool => Some(V.EncodeVarint(if Number(v) != 0 then 1 else 0))
    case Varint => if NumericSize(f.dataSize) then Some(V.EncodeVarint(Number(v) % TWO64)) else None
    case UVarint => if NumericSize(f.dataSize) then Some(V.EncodeVarint(Number(v) % TWO64)) else None
    case SVarint => if NumericSize(f.dataSize) then Some(V.EncodeVarint(V.ZigZag(Signed64(Number(v))))) else None
    case Fixed32 => Some(LittleEndianBytes(Number(v) % TWO32, 4))
    case Fixed64 => Some(LittleEndianBytes(Number(v) % TWO64, 8))
    case Bytes => if |Contents(v)| + PB_SIZE_WIDTH > f.dataSize then None else Some(Delimit(Contents(v)))
    case Text => Some(Delimit(CString(Contents(v), f.dataSize)))
    case FixedBytes => Some(Delimit(Buffer(Contents(v), f.dataSize)))
    case _ => None
  }

  function Signed64(n: int): (r: int)
    ensures -TWO63 <= r < TWO63
    ensures -TWO63 <= n < TWO63 ==> r == n
  {
    if n % TWO64 < TWO63 then n % TWO64 else n % TWO64 - TWO64
  }

  function EncodeValue(f: Field, v: Value): Option<seq<Byte>>
    decreases f, 0
  {
    if f.ltype.SubMessage? then Delimited(EncodeMessage(f.sub, Slots(v))) else EncodeScalar(f, v)
  }

  function Join(a: Option<seq<Byte>>, b: Option<seq<Byte>>): Option<seq<Byte>> {
    if a.Some? && b.Some? then Some(a.value + b.value) else None
  }

  /** The tag of a field and one element. */
  function Tagged(f: Field, v: Value): Option<seq<Byte>>
    decreases f, 1
  {
    Join(Some(EncodeTag(WireOf(f.ltype), f.tag)), EncodeValue(f, v))
  }

  /** The body of a packed array. */
  function EncodePacked(f: Field, items: seq<Value>): Option<seq<Byte>> {
    if items == [] then Some([]) else Join(EncodeScalar(f, items[0]), EncodePacked(f, items[1..]))
  }

  function EncodeUnpacked(f: Field, items: seq<Value>): Option<seq<Byte>>
    decreases f, 2, |items|
  {
    if items == [] then Some([]) else Join(Tagged(f, items[0]), EncodeUnpacked(f, items[1..]))
  }

  /** The elements the encoder visits; undefined elements of a fixed-count array read as zero. */
  function Elements(f: Field, slot: Slot): seq<Value> {
    if FixedCount(f)
    then seq(f.arraySize, i requires 0 <= i < f.arraySize =>
           if i < |Items(slot)| then Items(slot)[i] else Num(0))
    else Items(slot)
  }

  function EncodeArray(f: Field, items: seq<Value>): Option<seq<Byte>>
    decreases f, 3
  {
    if items == [] then Some([])
    else if |items| > f.arraySize then None
    else if Packable(f.ltype) then Join(Some(EncodeTag(WT_STRING, f.tag)), Delimited(EncodePacked(f, items)))
    else EncodeUnpacked(f, items)
  }

  /** pb_check_proto3_default_value. */
  predicate IsDefault(f: Field, slot: Slot)
    decreases f, 1
  {
    match f.htype
    case Required => false
    case Repeated => f.sizeOffset != 0 && Items(slot) == []
    case OneOf => Which(slot) == 0
    case Optional => if f.sizeOffset != 0 then !Has(slot) else IsZero(f, Content(slot))
  }

  predicate IsZero(f: Field, v: Value)
    decreases f, 0
  {
    match f.ltype
    case Bytes => Contents(v) == []
    case Text => Contents(v) == [] || Contents(v)[0] == 0
    case FixedBytes => f.dataSize == 0
    case SubMessage =>
      forall i :: 0 <= i < |f.sub| ==> IsDefault(f.sub[i], Get(Slots(v), SlotOf(f.sub, i)))
    case _ => f.dataSize == 0 || Number(v) == 0
  }

  /** encode_basic_field. */
  function EncodeSlot(f: Field, slot: Slot): Option<seq<Byte>>
    decreases f, 4
  {
    match f.htype
    case Required => Tagged(f, Content(slot))
    case Optional =>
      if (if f.sizeOffset != 0 then Has(slot) else !IsDefault(f, slot)) then Tagged(f, Content(slot)) else Some([])
    case Repeated => EncodeArray(f, Elements(f, slot))
    case OneOf => if Which(slot) == f.tag then Tagged(f, Content(slot)) else Some([])
  }

  function EncodeFrom(fields: seq<Field>, slots: seq<Slot>, k: nat): Option<seq<Byte>>
    requires k <= |fields|
    decreases fields, |fields| - k
  {
    if k == |fields| then Some([])
    else Join(EncodeSlot(fields[k], Get(slots, SlotOf(fields, k))), EncodeFrom(fields, slots, k + 1))
  }

  /** pb_encode. */
  function EncodeMessage(fields: seq<Field>, slots: seq<Slot>): Option<seq<Byte>>
    decreases fields, |fields| + 1
  {
    EncodeFrom(fields, slots, 0)
  }
}

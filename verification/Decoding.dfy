/** What pb_decode.c computes, as functions from bytes to message structs. They are total: every
    descriptor, destination and byte string has an answer. */
module Decoding {
  import opened Words
  import V = Varint
  import opened Descriptor

  // Wire types.
  const WT_VARINT: nat := 0
  const WT_64BIT: nat := 1
  const WT_STRING: nat := 2
  const WT_32BIT: nat := 5

  // ---------------------------------------------------------------- tags, skipping, substreams

  datatype TagWord = Record(tag: nat, wire: nat, rest: seq<Byte>) | EndOfMessage(rest: seq<Byte>) | BadTag

  /** A zero word ends the message. */
  function DecodeTag(bs: seq<Byte>): (r: TagWord)
    ensures !r.BadTag? ==> |r.rest| <= |bs|
    ensures r.Record? ==> |r.rest| < |bs| && r.tag < TWO32 / 8 && r.wire < 8 && (r.tag != 0 || r.wire != 0)
  {
    match V.DecodeVarint32(bs)
    case Fail => if bs == [] then EndOfMessage(bs) else BadTag
    case Ok(w, rest) => if w == 0 then EndOfMessage(rest) else Record(w / 8, w % 8, rest)
  }

  function ReadBytes(n: nat, bs: seq<Byte>): (r: Parse<seq<Byte>>)
    ensures r.Ok? ==> r.value + r.rest == bs && |r.value| == n
  {
    if n <= |bs| then Ok(bs[..n], bs[n..]) else Fail
  }

  /** A length and that many bytes. */
  function TakeDelimited(bs: seq<Byte>): (r: Parse<seq<Byte>>)
    ensures r.Ok? ==> |r.value| + |r.rest| < |bs|
  {
    match V.DecodeVarint32(bs)
    case Fail => Fail
    case Ok(size, rest) => ReadBytes(size, rest)
  }

  function SkipField(wire: nat, bs: seq<Byte>): (r: Parse<seq<Byte>>)
    ensures r.Ok? ==> |r.rest| < |bs|
  {
    if wire == WT_VARINT then
      match V.GroupLength(bs)
      case None => Fail
      case Some(n) => Ok(bs[..n], bs[n..])
    else if wire == WT_64BIT then ReadBytes(8, bs)
    else if wire == WT_STRING then TakeDelimited(bs)
    else if wire == WT_32BIT then ReadBytes(4, bs)
    else Fail
  }

  // ---------------------------------------------------------------- values

  function LittleEndian(bs: seq<Byte>): nat {
    if bs == [] then 0 else bs[0] + 0x100 * LittleEndian(bs[1..])
  }

  /** Store a number in `size` bytes; "integer too large" unless it survives. */
  function Narrow(n: int, signed: bool, size: nat, rest: seq<Byte>): (r: Parse<Value>)
    ensures r.Ok? ==> r.rest == rest
  {
    if !NumericSize(size) then Fail
    else if (if signed then V.ToSigned(n, size) else n % Pow2(8 * size)) != n then Fail
    else Ok(Num(n), rest)
  }

  /** Every element type but submessages. */
  function DecodeScalar(f: Field, bs: seq<Byte>): (r: Parse<Value>)
    ensures r.Ok? ==> |r.rest| <= |bs|
    ensures r.Ok? && Packable(f.ltype) ==> |r.rest| < |bs|
  {
    match f.ltype
    case Bool => (
      match V.DecodeVarint32(bs)
      case Fail => Fail
      case Ok(w, rest) => Ok(Num(if w != 0 then 1 else 0), rest))
    case Varint => (
      match V.DecodeVarint(bs)
      case Fail => Fail
      case Ok(w, rest) => Narrow(V.ToSigned(w, if f.dataSize == 8 then 8 else 4), true, f.dataSize, rest))
    case UVarint => (
      match V.DecodeVarint(bs)
      case Fail => Fail
      case Ok(w, rest) => Narrow(w, false, f.dataSize, rest))
    case SVarint => (
      match V.DecodeVarint(bs)
      case Fail => Fail
      case Ok(w, rest) => Narrow(V.UnZigZag(w), true, f.dataSize, rest))
    case Fixed32 => (
      match ReadBytes(4, bs)
      case Fail => Fail
      case Ok(raw, rest) => Ok(Num(LittleEndian(raw)), rest))
    case Fixed64 => (
      match ReadBytes(8, bs)
      case Fail => Fail
      case Ok(raw, rest) => Ok(Num(LittleEndian(raw)), rest))
    case Bytes => (
      match V.DecodeVarint32(bs)
      case Fail => Fail
      case Ok(size, rest) =>
        if size > PB_SIZE_MAX || size + PB_SIZE_WIDTH > f.dataSize then Fail else ReadBlob(size, rest))
    case Text => (
      match V.DecodeVarint32(bs)
      case Fail => Fail
      case Ok(size, rest) => if size + 1 > f.dataSize then Fail else ReadBlob(size, rest))
    case FixedBytes => (
      match V.DecodeVarint32(bs)
      case Fail => Fail
      case Ok(size, rest) =>
        if size > PB_SIZE_MAX then Fail
        else if size == 0 then Ok(Blob(Zeros(f.dataSize)), rest)
        else if size != f.dataSize then Fail
        else ReadBlob(size, rest))
    case _ => Fail
  }

  function ReadBlob(n: nat, bs: seq<Byte>): (r: Parse<Value>)
    ensures r.Ok? ==> |r.rest| <= |bs|
  {
    match ReadBytes(n, bs)
    case Fail => Fail
    case Ok(b, rest) => Ok(Blob(b), rest)
  }

  /** A submessage is merged into `into`, except that array elements start from defaults. */
  function DecodeValue(f: Field, into: Value, bs: seq<Byte>): (r: Parse<Value>)
    ensures r.Ok? ==> |r.rest| <= |bs|
    decreases |bs|, 1
  {
    if f.ltype.SubMessage? then
      match TakeDelimited(bs)
      case Fail => Fail
      case Ok(body, rest) =>
        match DecodeMessage(f.sub, if f.htype.Repeated? then Defaults(f.sub) else Slots(into), body)
        case Fail => Fail
        case Ok(slots, _) => Ok(Msg(slots), rest)
    else DecodeScalar(f, bs)
  }

  /** Elements of one packed run, from element `n` on; all of `bs` must be used. */
  function DecodePacked(f: Field, items: seq<Value>, n: nat, bs: seq<Byte>): Option<(seq<Value>, nat)>
    requires Packable(f.ltype)
    decreases |bs|
  {
    if bs == [] then Some((items, n))
    else if n >= f.arraySize then None
    else match DecodeScalar(f, bs)
      case Fail => None
      case Ok(v, rest) => DecodePacked(f, PutItem(items, n, v), n + 1, rest)
  }

  // ---------------------------------------------------------------- fields and messages

  /** decode_static_field on the slot of `f`, where `n` is the array's current element count.
      The wire type matters only for choosing the packed path. */
  function DecodeStatic(f: Field, wire: nat, slot: Slot, n: nat, bs: seq<Byte>): (r: Parse<(Slot, nat)>)
    ensures r.Ok? ==> |r.rest| <= |bs|
    decreases |bs|, 3
  {
    match f.htype
    case Required => Stored(DecodeValue(f, Content(slot), bs), v => (Single(v), n))
    case Optional =>
      Stored(DecodeValue(f, Content(slot), bs), v => (if f.sizeOffset == 0 then Single(v) else Opt(true, v), n))
    case Repeated =>
      if wire == WT_STRING && Packable(f.ltype) then
        match TakeDelimited(bs)
        case Fail => Fail
        case Ok(body, rest) =>
          match DecodePacked(f, Items(slot), n, body)
          case None => Fail
          case Some((items, n')) => Ok((Many(items), n'), rest)
      else if n >= f.arraySize then Fail
      else Stored(DecodeValue(f, Num(0), bs), v => (Many(PutItem(Items(slot), n, v)), n + 1))
    case OneOf =>
      var into := if f.ltype.SubMessage? && Which(slot) != f.tag then Msg(Defaults(f.sub)) else Content(slot);
      Stored(DecodeValue(f, into, bs), v => (Union(f.tag, v), n))
  }

  function Stored(p: Parse<Value>, store: Value -> (Slot, nat)): (r: Parse<(Slot, nat)>)
    ensures p.Fail? ==> r.Fail?
    ensures p.Ok? ==> r == Ok(store(p.value), p.rest)
  {
    match p
    case Fail => Fail
    case Ok(v, rest) => Ok(store(v), rest)
  }

  /** The record loop's state: the struct, the required fields seen (by their index among the
      required fields), and the fixed-count array being filled. */
  datatype State = State(slots: seq<Slot>, seen: set<nat>, fixed: Option<nat>, count: nat)

  function Start(slots: seq<Slot>): State {
    State(slots, {}, None, 0)
  }

  predicate FixedDone(fields: seq<Field>, s: State) {
    s.fixed.Some? && s.fixed.value < |fields| ==> s.count == fields[s.fixed.value].arraySize
  }

  /** Turn to fixed-count array `i`, if the one before it is complete. */
  function SelectFixed(fields: seq<Field>, s: State, i: nat): (r: Option<State>)
    ensures r.Some? ==> r.value.slots == s.slots
  {
    if s.fixed == Some(i) then Some(s)
    else if !FixedDone(fields, s) then None
    else Some(s.(fixed := Some(i), count := 0))
  }

  function MarkSeen(fields: seq<Field>, s: State, i: nat): (r: State)
    requires i < |fields|
    ensures r.slots == s.slots && r.fixed == s.fixed && r.count == s.count
  {
    if fields[i].htype.Required? && RequiredBefore(fields, i) < PB_MAX_REQUIRED_FIELDS
    then s.(seen := s.seen + {RequiredBefore(fields, i)})
    else s
  }

  /** One record whose tag word has been read. */
  function DecodeRecord(fields: seq<Field>, s: State, tag: nat, wire: nat, bs: seq<Byte>): (r: Parse<State>)
    ensures r.Ok? ==> |r.rest| <= |bs|
    decreases |bs|, 5
  {
    match Lookup(fields, tag)
    case None =>
      if fields == [] && tag == 0 then
        // The terminator of an empty descriptor matches, and has the type of a bool.
        match V.DecodeVarint32(bs)
        case Fail => Fail
        case Ok(_, rest) => Ok(s, rest)
      else (
        match SkipField(wire, bs)
        case Fail => Fail
        case Ok(_, rest) => Ok(s, rest))
    case Some(i) => DecodeField(fields, s, i, wire, bs)
  }

  /** One record for field `i`. */
  function DecodeField(fields: seq<Field>, s: State, i: nat, wire: nat, bs: seq<Byte>): (r: Parse<State>)
    requires i < |fields|
    ensures r.Ok? ==> |r.rest| <= |bs|
    decreases |bs|, 4
  {
    var f := fields[i];
    var selected := if FixedCount(f) then SelectFixed(fields, s, i) else Some(s);
    match selected
    case None => Fail
    case Some(s1) =>
      var s2 := MarkSeen(fields, s1, i);
      var k := SlotOf(fields, i);
      var n := if FixedCount(f) then s2.count else |Items(Get(s2.slots, k))|;
      match DecodeStatic(f, wire, Get(s2.slots, k), n, bs)
      case Fail => Fail
      case Ok((slot, n'), rest) =>
        Ok(s2.(slots := Put(s2.slots, k, slot), count := if FixedCount(f) then n' else s2.count), rest)
  }

  /** `ended` tells a zero tag word from the end of the bytes. */
  datatype Run = Done(state: State, rest: seq<Byte>, ended: bool) | Broken

  function RunRecords(fields: seq<Field>, s: State, bs: seq<Byte>): (r: Run)
    ensures r.Done? ==> |r.rest| <= |bs| && (!r.ended ==> r.rest == [])
    decreases |bs|, 0
  {
    if bs == [] then Done(s, bs, false)
    else match DecodeTag(bs)
      case BadTag => Broken
      case EndOfMessage(rest) => Done(s, rest, true)
      case Record(tag, wire, rest) =>
        match DecodeRecord(fields, s, tag, wire, rest)
        case Fail => Broken
        case Ok(s', rest') => RunRecords(fields, s', rest')
  }

  /** Every required field among the first 64 was seen. */
  predicate RequiredSeen(fields: seq<Field>, seen: set<nat>) {
    forall k :: 0 <= k < RequiredBefore(fields, |fields|) && k < PB_MAX_REQUIRED_FIELDS ==> k in seen
  }

  /** pb_decode_noinit. */
  function DecodeMessage(fields: seq<Field>, slots: seq<Slot>, bs: seq<Byte>): (r: Parse<seq<Slot>>)
    ensures r.Ok? ==> |r.rest| <= |bs|
    decreases |bs|, 6
  {
    match RunRecords(fields, Start(slots), bs)
    case Broken => Fail
    case Done(s, rest, _) => if FixedDone(fields, s) && RequiredSeen(fields, s.seen) then Ok(s.slots, rest) else Fail
  }

  /** pb_decode. */
  function Decode(fields: seq<Field>, bs: seq<Byte>): Parse<seq<Slot>> {
    DecodeMessage(fields, Defaults(fields), bs)
  }

  /** pb_decode_delimited. */
  function DecodeDelimited(fields: seq<Field>, bs: seq<Byte>): Parse<seq<Slot>> {
    match TakeDelimited(bs)
    case Fail => Fail
    case Ok(body, rest) =>
      match Decode(fields, body)
      case Fail => Fail
      case Ok(slots, _) => Ok(slots, rest)
  }
}

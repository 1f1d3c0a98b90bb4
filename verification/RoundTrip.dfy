/** Decoding what the encoder wrote gives the message back, up to normal form. */
module RoundTrip {
  import opened Words
  import V = Varint
  import opened Descriptor
  import opened Decoding
  import opened Encoding
  import opened Concatenation

  // ---------------------------------------------------------------- well-formed descriptors

  ghost predicate WellFormed(fields: seq<Field>)
    decreases fields
  {
    && DistinctTags(fields)
    && forall i :: 0 <= i < |fields| ==> WellFormedField(fields[i])
  }

  /** Distinct tags in the protobuf range, sizes the C types have, and no default behind a
      proto3 singular field. */
  ghost predicate WellFormedField(f: Field)
    decreases f
  {
    && 0 < f.tag < TWO32 / 8
    && f.atype.Static? && !f.ltype.Extension?
    && (f.ltype.Varint? || f.ltype.UVarint? || f.ltype.SVarint? ==> NumericSize(f.dataSize))
    && (f.ltype.Bool? || f.ltype.Fixed32? || f.ltype.Fixed64? ==> f.dataSize > 0)
    && (f.ltype.FixedBytes? ==> f.dataSize <= PB_SIZE_MAX)
    && (Singular(f) ==> f.init.None?)
    && (f.ltype.SubMessage? ==> WellFormed(f.sub))
  }

  // ---------------------------------------------------------------- valid messages

  predicate SignedRange(n: int, size: nat)
    requires size > 0
  {
    0 <= n + Pow2(8 * size - 1) && n < Pow2(8 * size - 1)
  }

  /** Values of the C type of the field; lengths the wire format can state. */
  ghost predicate ValidValue(f: Field, v: Value)
    decreases f, 0
  {
    match f.ltype
    case Bool => v.Num? && 0 <= v.n < 0x100
    case Varint => v.Num? && f.dataSize > 0 && SignedRange(v.n, f.dataSize)
    case UVarint => v.Num? && 0 <= v.n < Pow2(8 * f.dataSize)
    case SVarint => v.Num? && f.dataSize > 0 && SignedRange(v.n, f.dataSize)
    case Fixed32 => v.Num? && 0 <= v.n < TWO32
    case Fixed64 => v.Num? && 0 <= v.n < TWO64
    case Bytes => v.Blob? && |v.bytes| <= PB_SIZE_MAX && |v.bytes| < TWO32 && |v.bytes| + PB_SIZE_WIDTH <= f.dataSize
    case Text => v.Blob? && Terminated(v.bytes, f.dataSize) && |v.bytes| < TWO32
    case FixedBytes => v.Blob? && |v.bytes| == f.dataSize < TWO32
    case SubMessage => v.Msg? && Valid(f.sub, v.slots) && ShortEnough(EncodeMessage(f.sub, v.slots))
    case Extension => false
  }

  /** Some byte of the buffer is NUL. */
  predicate Terminated(b: seq<Byte>, size: nat): (r: bool)
    ensures r <==> exists i :: 0 <= i < size && ByteAt(b, i) == 0
  {
    var n := |CString(b, size)|;
    assert n < size ==> ByteAt(b, n) == 0;
    assert forall i :: 0 <= i < n ==> ByteAt(b, i) == CString(b, size)[i];
    n < size
  }

  predicate ShortEnough(bs: Option<seq<Byte>>) {
    bs.Some? ==> |bs.value| < TWO32
  }

  ghost predicate ValidSlot(fields: seq<Field>, i: nat, slot: Slot)
    requires i < |fields|
    decreases fields, 0
  {
    var f := fields[i];
    if Joins(fields, i) then slot.Joined?
    else match f.htype
      case Required => slot.Single? && ValidValue(f, slot.v)
      case Optional =>
        if Singular(f) then slot.Single? && ValidValue(f, slot.v)
        else slot.Opt? && (slot.has ==> ValidValue(f, slot.v))
      case Repeated =>
        && slot.Many? && |slot.items| <= f.arraySize
        && (FixedCount(f) ==> |slot.items| == f.arraySize)
        && (forall k :: 0 <= k < |slot.items| ==> ValidValue(f, slot.items[k]))
        && (Packable(f.ltype) ==> ShortEnough(EncodePacked(f, slot.items)))
      case OneOf =>
        slot.Union? && (slot.which != 0 ==>
          exists j :: 0 <= j < |fields| && SlotOf(fields, j) == i && fields[j].tag == slot.which
                      && ValidValue(fields[j], slot.v))
  }

  ghost predicate Valid(fields: seq<Field>, slots: seq<Slot>)
    decreases fields, 1
  {
    |slots| == |fields| && forall i :: 0 <= i < |fields| ==> ValidSlot(fields, i, slots[i])
  }

  // ---------------------------------------------------------------- normal form

  /** What decoding can tell: bools are 0 or 1 and strings end at their first NUL. */
  function NormalValue(f: Field, v: Value): Value
    decreases f, 0
  {
    match f.ltype
    case Bool => Num(if Number(v) != 0 then 1 else 0)
    case Text => Blob(CString(Contents(v), f.dataSize))
    case SubMessage => Msg(Normal(f.sub, Slots(v)))
    case _ => v
  }

  /** Absent optionals and unset unions hold their defaults. */
  function NormalSlot(fields: seq<Field>, i: nat, slot: Slot): Slot
    requires i < |fields|
    decreases fields, 0
  {
    var f := fields[i];
    if Joins(fields, i) then Joined
    else match f.htype
      case Required => Single(NormalValue(f, Content(slot)))
      case Optional =>
        if Singular(f) then Single(NormalValue(f, Content(slot)))
        else if Has(slot) then Opt(true, NormalValue(f, Content(slot)))
        else Opt(false, DefaultValue(f))
      case Repeated => Many(NormalItems(f, Items(slot)))
      case OneOf =>
        match Lookup(fields, Which(slot))
        case None => Union(0, Num(0))
        case Some(j) => Union(Which(slot), NormalValue(fields[j], Content(slot)))
  }

  function NormalItems(f: Field, items: seq<Value>): (r: seq<Value>)
    ensures |r| == |items|
    ensures forall k :: 0 <= k < |items| ==> r[k] == NormalValue(f, items[k])
    decreases f, 1
  {
    seq(|items|, k requires 0 <= k < |items| => NormalValue(f, items[k]))
  }

  function Normal(fields: seq<Field>, slots: seq<Slot>): (r: seq<Slot>)
    ensures |r| == |fields|
    ensures forall i :: 0 <= i < |fields| ==> r[i] == NormalSlot(fields, i, Get(slots, i))
    decreases fields, 1
  {
    seq(|fields|, i requires 0 <= i < |fields| => NormalSlot(fields, i, Get(slots, i)))
  }

  // ---------------------------------------------------------------- numbers

  lemma {:induction false} LittleEndianRoundTrip(n: nat, size: nat)
    requires n < Pow2(8 * size)
    ensures LittleEndian(LittleEndianBytes(n, size)) == n
    decreases size
  {
    if size > 0 {
      assert Pow2(8 * size) == 0x100 * Pow2(8 * (size - 1)) by {
        ShlByte(Pow2(8 * (size - 1)));
        ShlShl(1, 8 * (size - 1), 8);
        assert 8 * (size - 1) + 8 == 8 * size;
      }
      LittleEndianRoundTrip(n / 0x100, size - 1);
      assert LittleEndianBytes(n, size)[1..] == LittleEndianBytes(n / 0x100, size - 1);
    }
  }

  /** Truncating a value of a signed type to its own width changes nothing. */
  lemma SignedFits(n: int, size: nat)
    requires size > 0 && SignedRange(n, size)
    ensures V.ToSigned(n, size) == n
  {
    var m := Pow2(8 * size);
    assert m == 2 * Pow2(8 * size - 1);
    if n >= 0 { SmallModulus(n, 0, m); } else { SmallModulus(n, -1, m); }
  }

  lemma SmallModulus(n: int, q: int, m: nat)
    requires m > 0 && 0 <= n - q * m < m
    ensures n % m == n - q * m
  {
    assert n == q * m + n % m + (n / m - q) * m;
    if n / m > q { MulAtLeast(n / m - q, m); } else if n / m < q { MulAtLeast(q - n / m, m); }
  }

  lemma MulAtLeast(k: int, m: nat)
    requires k >= 1
    ensures k * m >= m
  {
  }

  lemma NumericSizes(size: nat)
    requires NumericSize(size)
    ensures Pow2(8 * size - 1) <= TWO63 && Pow2(8 * size) <= TWO64
    ensures size < 8 ==> Pow2(8 * size - 1) <= TWO31
  {
    Pow2Words();
    ShlMonotone(1, 1, 8 * size - 1, 63);
    ShlMonotone(1, 1, 8 * size, 64);
    if size < 8 {
      ShlMonotone(1, 1, 8 * size - 1, 31);
    }
  }

  /** The sign-extended word of a varint field reads back through a 32- or 64-bit integer. */
  lemma SignExtension(n: int, size: nat)
    requires NumericSize(size) && SignedRange(n, size)
    ensures V.ToSigned(n % TWO64, if size == 8 then 8 else 4) == n
  {
    NumericSizes(size);
    Pow2Words();
    var w := n % TWO64;
    if n >= 0 {
      SmallModulus(n, 0, TWO64);
      SignedFits(w, if size == 8 then 8 else 4);
    } else {
      SmallModulus(n, -1, TWO64);
      if size == 8 {
        SmallModulus(w, 0, TWO64);
      } else {
        Residue32(w, TWO32 - 1, n + TWO32);
      }
    }
  }

  // ---------------------------------------------------------------- one value

  lemma PrefixedRoundTrip(body: seq<Byte>, tail: seq<Byte>)
    requires |body| < TWO32
    ensures V.DecodeVarint32(Delimit(body) + tail) == Ok(|body|, body + tail)
    ensures ReadBytes(|body|, body + tail) == Ok(body, tail)
  {
    Residue64(|body|, 0, |body|);
    assert Delimit(body) + tail == V.EncodeVarint(|body|) + (body + tail);
    V.Varint32RoundTrip(|body|, body + tail);
    assert (body + tail)[..|body|] == body && (body + tail)[|body|..] == tail;
  }

  lemma VarintFieldRoundTrip(f: Field, n: int, tail: seq<Byte>)
    requires f.ltype.Varint? && NumericSize(f.dataSize) && SignedRange(n, f.dataSize)
    ensures DecodeScalar(f, V.EncodeVarint(n % TWO64) + tail) == Ok(Num(n), tail)
  {
    hide V.EncodeVarint, V.DecodeVarint, V.ToSigned;
    V.VarintRoundTrip(n % TWO64, tail);
    SignExtension(n, f.dataSize);
    SignedFits(n, f.dataSize);
  }

  lemma UVarintFieldRoundTrip(f: Field, n: nat, tail: seq<Byte>)
    requires f.ltype.UVarint? && NumericSize(f.dataSize) && n < Pow2(8 * f.dataSize)
    ensures n < TWO64 && DecodeScalar(f, V.EncodeVarint(n) + tail) == Ok(Num(n), tail)
  {
    hide V.EncodeVarint, V.DecodeVarint, Pow2;
    NumericSizes(f.dataSize);
    SmallModulus(n, 0, Pow2(8 * f.dataSize));
    V.VarintRoundTrip(n, tail);
  }

  lemma SVarintFieldRoundTrip(f: Field, n: int, tail: seq<Byte>)
    requires f.ltype.SVarint? && NumericSize(f.dataSize) && SignedRange(n, f.dataSize)
    ensures -TWO63 <= n < TWO63 && DecodeScalar(f, V.EncodeVarint(V.ZigZag(n)) + tail) == Ok(Num(n), tail)
  {
    hide V.EncodeVarint, V.DecodeVarint, V.ToSigned, V.ZigZag, V.UnZigZag;
    NumericSizes(f.dataSize);
    V.ZigZagRoundTrip(n, 0);
    V.VarintRoundTrip(V.ZigZag(n), tail);
    SignedFits(n, f.dataSize);
  }

  lemma ScalarRoundTrip(f: Field, v: Value, tail: seq<Byte>)
    requires WellFormedField(f) && !f.ltype.SubMessage? && ValidValue(f, v)
    ensures EncodeScalar(f, v).Some?
    ensures DecodeScalar(f, EncodeScalar(f, v).value + tail) == Ok(NormalValue(f, v), tail)
  {
    match f.ltype
    case Bool => BoolRoundTrip(f, v, tail);
    case Varint => VarintFieldRoundTrip(f, v.n, tail);
    case UVarint =>
      UVarintFieldRoundTrip(f, v.n, tail);
      Residue64(v.n, 0, v.n);
    case SVarint => SVarintFieldRoundTrip(f, v.n, tail);
    case _ => RawRoundTrip(f, v, tail);
  }

  lemma BoolRoundTrip(f: Field, v: Value, tail: seq<Byte>)
    requires f.ltype.Bool?
    ensures DecodeScalar(f, EncodeScalar(f, v).value + tail) == Ok(NormalValue(f, v), tail)
  {
    hide V.EncodeVarint, V.DecodeVarint32;
    V.Varint32RoundTrip(if Number(v) != 0 then 1 else 0, tail);
  }

  lemma RawRoundTrip(f: Field, v: Value, tail: seq<Byte>)
    requires WellFormedField(f) && ValidValue(f, v)
    requires f.ltype.Fixed32? || f.ltype.Fixed64? || f.ltype.Bytes? || f.ltype.Text? || f.ltype.FixedBytes?
    ensures EncodeScalar(f, v).Some?
    ensures DecodeScalar(f, EncodeScalar(f, v).value + tail) == Ok(NormalValue(f, v), tail)
  {
    hide V.EncodeVarint, V.DecodeVarint32, Delimit;
    match f.ltype
    case Fixed32 =>
      Residue32(v.n, 0, v.n);
      assert v.n < Pow2(8 * 4) by { Pow2Words(); }
      FixedRoundTrip(v.n, 4, tail);
    case Fixed64 =>
      Residue64(v.n, 0, v.n);
      assert v.n < Pow2(8 * 8) by { Pow2Words(); }
      FixedRoundTrip(v.n, 8, tail);
    case Bytes => PrefixedRoundTrip(v.bytes, tail);
    case Text => PrefixedRoundTrip(CString(v.bytes, f.dataSize), tail);
    case FixedBytes =>
      PrefixedRoundTrip(v.bytes, tail);
      assert Buffer(v.bytes, f.dataSize) == v.bytes;
      if f.dataSize == 0 {
        assert v.bytes + tail == tail && Zeros(0) == v.bytes;
      }
  }

  lemma FixedRoundTrip(n: nat, size: nat, tail: seq<Byte>)
    requires n < Pow2(8 * size)
    ensures var bs := LittleEndianBytes(n, size);
            ReadBytes(size, bs + tail) == Ok(bs, tail) && LittleEndian(bs) == n
  {
    LittleEndianRoundTrip(n, size);
    var bs := LittleEndianBytes(n, size);
    assert (bs + tail)[..size] == bs && (bs + tail)[size..] == tail;
  }

  // ---------------------------------------------------------------- arrays

  lemma ScalarNonEmpty(f: Field, v: Value)
    requires Packable(f.ltype) && EncodeScalar(f, v).Some?
    ensures |EncodeScalar(f, v).value| > 0
  {
  }

  /** A packed body decodes exactly when its elements fit, whatever precedes them. */
  lemma {:induction false} PackedBody(f: Field, before: seq<Value>, items: seq<Value>)
    requires WellFormedField(f) && Packable(f.ltype) && forall k :: 0 <= k < |items| ==> ValidValue(f, items[k])
    ensures EncodePacked(f, items).Some?
    ensures DecodePacked(f, before, |before|, EncodePacked(f, items).value)
            == if |before| + |items| <= f.arraySize || items == []
               then Some((before + NormalItems(f, items), |before| + |items|)) else None
    decreases |items|
  {
    hide DecodeScalar, EncodeScalar;
    if items == [] {
      assert before + NormalItems(f, items) == before;
    } else {
      var rest := items[1..];
      var v := NormalValue(f, items[0]);
      PackedBody(f, before + [v], rest);
      ScalarRoundTrip(f, items[0], EncodePacked(f, rest).value);
      ScalarNonEmpty(f, items[0]);
      assert before + NormalItems(f, items) == before + [v] + NormalItems(f, rest);
    }
  }

  // ---------------------------------------------------------------- progress through a message

  /** Slot `j` once the records of the fields before `k` have been decoded. */
  function ProgressSlot(fields: seq<Field>, slots: seq<Slot>, k: nat, j: nat): Slot
    requires j < |fields|
  {
    if Joins(fields, j) then Joined
    else if fields[j].htype.OneOf? then
      var m := Lookup(fields, Which(Get(slots, j)));
      if m.Some? && m.value < k then NormalSlot(fields, j, Get(slots, j)) else Union(0, Num(0))
    else if j < k then NormalSlot(fields, j, Get(slots, j))
    else DefaultSlot(fields[j])
  }

  function Progress(fields: seq<Field>, slots: seq<Slot>, k: nat): (r: seq<Slot>)
    ensures |r| == |fields|
    ensures forall j :: 0 <= j < |fields| ==> r[j] == ProgressSlot(fields, slots, k, j)
  {
    seq(|fields|, j requires 0 <= j < |fields| => ProgressSlot(fields, slots, k, j))
  }

  lemma ProgressStarts(fields: seq<Field>, slots: seq<Slot>)
    ensures Progress(fields, slots, 0) == Defaults(fields)
  {
  }

  lemma ProgressEnds(fields: seq<Field>, slots: seq<Slot>)
    ensures Progress(fields, slots, |fields|) == Normal(fields, slots)
  {
  }

  lemma ProgressElsewhere(fields: seq<Field>, slots: seq<Slot>, k: nat, j: nat)
    requires WellFormed(fields) && Valid(fields, slots) && k < |fields| && j < |fields| && j != SlotOf(fields, k)
    ensures ProgressSlot(fields, slots, k, j) == ProgressSlot(fields, slots, k + 1, j)
  {
    hide NormalSlot;
    LookupUnique(fields, k);
    assert ValidSlot(fields, j, slots[j]);
  }

  /** Passing field `k` changes its own slot only, and a union only if it holds that member. */
  lemma ProgressStep(fields: seq<Field>, slots: seq<Slot>, k: nat)
    requires WellFormed(fields) && Valid(fields, slots) && k < |fields|
    ensures var h := SlotOf(fields, k);
            Progress(fields, slots, k + 1)
            == if fields[k].htype.OneOf? && Which(Get(slots, h)) != fields[k].tag
               then Progress(fields, slots, k)
               else Put(Progress(fields, slots, k), h, NormalSlot(fields, h, Get(slots, h)))
    ensures fields[k].htype.OneOf? && Which(Get(slots, SlotOf(fields, k))) == fields[k].tag ==>
              NormalSlot(fields, SlotOf(fields, k), Get(slots, SlotOf(fields, k)))
              == Union(fields[k].tag, NormalValue(fields[k], Content(Get(slots, SlotOf(fields, k)))))
    ensures !fields[k].htype.OneOf? ==> SlotOf(fields, k) == k
    ensures fields[k].htype.OneOf? ==> fields[SlotOf(fields, k)].htype.OneOf?
  {
    var h := SlotOf(fields, k);
    var p, q := Progress(fields, slots, k), Progress(fields, slots, k + 1);
    UnionHead(fields, k);
    LookupUnique(fields, k);
    forall j | 0 <= j < |fields| && j != h
      ensures p[j] == q[j]
    {
      ProgressElsewhere(fields, slots, k, j);
    }
    if fields[k].htype.OneOf? && Which(slots[h]) != fields[k].tag {
      assert p[h] == q[h];
      assert p == q;
    } else {
      assert q == p[h := NormalSlot(fields, h, slots[h])];
    }
  }

  /** The decoder's state when it stands between the records of fields `k - 1` and `k`. */
  predicate Between(fields: seq<Field>, slots: seq<Slot>, k: nat, s: State)
    requires k <= |fields|
  {
    && s.slots == Progress(fields, slots, k)
    && FixedDone(fields, s) && (s.fixed.Some? ==> s.fixed.value < k)
    && forall r :: 0 <= r < RequiredBefore(fields, k) && r < PB_MAX_REQUIRED_FIELDS ==> r in s.seen
  }

  // ---------------------------------------------------------------- the induction

  /** One element, decoded into anything for scalars and array elements, and into defaults for
      other submessages. */
  lemma {:induction false} ValueRoundTrip(f: Field, v: Value, into: Value, tail: seq<Byte>)
    requires WellFormedField(f) && ValidValue(f, v)
    requires f.ltype.SubMessage? && !f.htype.Repeated? ==> Slots(into) == Defaults(f.sub)
    ensures EncodeValue(f, v).Some?
    ensures DecodeValue(f, into, EncodeValue(f, v).value + tail) == Ok(NormalValue(f, v), tail)
    decreases f, 0, 0
  {
    if f.ltype.SubMessage? {
      MessageRoundTrip(f.sub, v.slots);
      TakeDelimit(EncodeMessage(f.sub, v.slots).value, tail);
    } else {
      ScalarRoundTrip(f, v, tail);
    }
  }

  /** A required, optional or oneof field that is present. */
  lemma {:induction false} PresentRoundTrip(fields: seq<Field>, i: nat, v: Value, s: State, tail: seq<Byte>)
    returns (s': State)
    requires WellFormed(fields) && i < |fields| && !fields[i].htype.Repeated? && ValidValue(fields[i], v)
    requires |s.slots| == |fields|
    requires var slot := s.slots[SlotOf(fields, i)];
             if fields[i].htype.OneOf? then Which(slot) == 0 else Content(slot) == DefaultValue(fields[i])
    ensures Tagged(fields[i], v).Some?
    ensures RunRecords(fields, s, Tagged(fields[i], v).value + tail) == RunRecords(fields, s', tail)
    ensures var x := NormalValue(fields[i], v);
            s' == MarkSeen(fields, s, i).(slots := Put(s.slots, SlotOf(fields, i),
                    match fields[i].htype
                    case OneOf => Union(fields[i].tag, x)
                    case _ => if Singular(fields[i]) || fields[i].htype.Required? then Single(x) else Opt(true, x)))
    decreases fields, 0, 0
  {
    var f := fields[i];
    var slot := s.slots[SlotOf(fields, i)];
    var into := if f.htype.OneOf? && f.ltype.SubMessage? then Msg(Defaults(f.sub)) else Content(slot);
    assert WellFormedField(f);
    hide ValidValue, WellFormed, EncodeValue, DecodeValue, RunRecords, EncodeTag, NormalValue;
    ValueRoundTrip(f, v, into, tail);
    OneRecord(fields, s, i, WireOf(f.ltype), EncodeValue(f, v).value, tail);
    s' := DecodeField(fields, s, i, WireOf(f.ltype), EncodeValue(f, v).value + tail).value;
  }

  /** `s` holds `items` in array `i`; a fixed-count array is either not begun, with any other
      complete, or counted so far. */
  predicate Holds(fields: seq<Field>, i: nat, s: State, items: seq<Value>) {
    && i < |fields| && fields[i].htype.Repeated?
    && |s.slots| == |fields| && s.slots[i] == Many(items)
    && (FixedCount(fields[i]) ==>
          || (s.fixed == Some(i) && s.count == |items|)
          || (items == [] && FixedDone(fields, s) && s.fixed != Some(i)))
  }

  /** `s` with `items` in array `i`, decoded last, and `n` of them counted. */
  function WithRun(fields: seq<Field>, i: nat, s: State, items: seq<Value>, n: nat): State
    requires i < |fields|
  {
    s.(slots := Put(s.slots, i, Many(items)),
       fixed := if FixedCount(fields[i]) then Some(i) else s.fixed,
       count := if FixedCount(fields[i]) then n else s.count)
  }

  function WithItems(fields: seq<Field>, i: nat, s: State, items: seq<Value>): State
    requires i < |fields|
  {
    WithRun(fields, i, s, items, |items|)
  }

  /** One more element after `before`, if there is room. */
  lemma ElementStored(fields: seq<Field>, i: nat, before: seq<Value>, s: State, wire: nat, bs: seq<Byte>)
    requires Holds(fields, i, s, before) && !(wire == WT_STRING && Packable(fields[i].ltype))
    requires DecodeValue(fields[i], Num(0), bs).Ok?
    ensures var p := DecodeValue(fields[i], Num(0), bs);
            DecodeField(fields, s, i, wire, bs)
            == if |before| < fields[i].arraySize then Ok(WithItems(fields, i, s, before + [p.value]), p.rest) else Fail
  {
    hide DecodeValue;
    UnionHead(fields, i);
  }

  /** `s` stands before element `m` of the array. */
  ghost predicate Filling(fields: seq<Field>, i: nat, items: seq<Value>, m: nat, s: State) {
    && WellFormed(fields) && i < |fields| && (forall k :: 0 <= k < |items| ==> ValidValue(fields[i], items[k]))
    && m <= |items| <= fields[i].arraySize && Holds(fields, i, s, NormalItems(fields[i], items[..m]))
  }

  lemma {:induction false} ElementRoundTrip(fields: seq<Field>, i: nat, items: seq<Value>, m: nat,
                                            s: State, tail: seq<Byte>)
    requires Filling(fields, i, items, m, s) && !Packable(fields[i].ltype) && m < |items|
    ensures Tagged(fields[i], items[m]).Some?
    ensures RunRecords(fields, s, Tagged(fields[i], items[m]).value + tail)
            == RunRecords(fields, WithItems(fields, i, s, NormalItems(fields[i], items[..m + 1])), tail)
    decreases fields, 0, 0
  {
    var f, v := fields[i], items[m];
    assert WellFormedField(f) && ValidValue(f, v) && DistinctTags(fields);
    hide DecodeValue, NormalValue, EncodeValue, RunRecords, DecodeField, ValidValue, WellFormed, EncodeTag;
    var before := NormalItems(f, items[..m]);
    assert before + [NormalValue(f, v)] == NormalItems(f, items[..m + 1]);
    ValueRoundTrip(f, v, Num(0), tail);
    var payload := EncodeValue(f, v).value;
    assert DecodeField(fields, s, i, WireOf(f.ltype), payload + tail)
           == Ok(WithItems(fields, i, s, NormalItems(f, items[..m + 1])), tail) by {
      hide WithItems, NormalItems, WireOf, Holds;
      ElementStored(fields, i, before, s, WireOf(f.ltype), payload + tail);
    }
    hide Holds, WithItems, NormalItems;
    OneRecord(fields, s, i, WireOf(f.ltype), payload, tail);
  }

  /** Elements `m` onwards of an array that is not packed. */
  lemma {:induction false} UnpackedRoundTrip(fields: seq<Field>, i: nat, items: seq<Value>, m: nat,
                                             s: State, tail: seq<Byte>)
    requires Filling(fields, i, items, m, s) && !Packable(fields[i].ltype) && items != []
    ensures EncodeUnpacked(fields[i], items[m..]).Some?
    ensures RunRecords(fields, s, EncodeUnpacked(fields[i], items[m..]).value + tail)
            == RunRecords(fields, if m < |items| then WithItems(fields, i, s, NormalItems(fields[i], items)) else s,
                          tail)
    decreases fields, 0, |items| - m
  {
    hide RunRecords, Tagged, NormalValue;
    var f := fields[i];
    if m == |items| {
      assert items[m..] == [] && [] + tail == tail;
    } else {
      assert items[m..][1..] == items[m + 1..];
      var s1 := WithItems(fields, i, s, NormalItems(fields[i], items[..m + 1]));
      UnpackedRoundTrip(fields, i, items, m + 1, s1, tail);
      var rest := EncodeUnpacked(f, items[m + 1..]).value;
      ElementRoundTrip(fields, i, items, m, s, rest + tail);
      assert Tagged(f, items[m]).value + rest + tail == Tagged(f, items[m]).value + (rest + tail);
      assert m + 1 == |items| ==> items[..m + 1] == items;
      assert m + 1 == |items| ==> s1 == WithItems(fields, i, s, NormalItems(fields[i], items));
      assert WithItems(fields, i, s1, NormalItems(fields[i], items))
             == WithItems(fields, i, s, NormalItems(fields[i], items));
    }
  }

  /** A whole array in one packed run. */
  lemma PackedRoundTrip(fields: seq<Field>, i: nat, items: seq<Value>, s: State, tail: seq<Byte>)
    requires Filling(fields, i, items, 0, s) && Packable(fields[i].ltype) && items != []
    requires ShortEnough(EncodePacked(fields[i], items))
    ensures EncodeArray(fields[i], items).Some?
    ensures RunRecords(fields, s, EncodeArray(fields[i], items).value + tail)
            == RunRecords(fields, WithItems(fields, i, s, NormalItems(fields[i], items)), tail)
  {
    hide RunRecords, DecodeField, DecodePacked, EncodePacked, NormalValue, ValidValue;
    var f := fields[i];
    PackedBody(f, [], items);
    var body := EncodePacked(f, items).value;
    TakeDelimit(body, tail);
    OneRecord(fields, s, i, WT_STRING, Delimit(body), tail);
    assert items[..0] == [] && items[..|items|] == items;
    assert [] + NormalItems(f, items) == NormalItems(f, items);
    PackedStored(fields, i, [], s, Delimit(body) + tail);
  }

  /** A packed run for array `i`, counting from the elements already there. */
  lemma PackedStored(fields: seq<Field>, i: nat, before: seq<Value>, s: State, bs: seq<Byte>)
    requires Holds(fields, i, s, before) && Packable(fields[i].ltype) && TakeDelimited(bs).Ok?
    ensures DecodeField(fields, s, i, WT_STRING, bs)
            == var run := DecodePacked(fields[i], before, |before|, TakeDelimited(bs).value);
               if run.None? then Fail
               else Ok(WithRun(fields, i, s, run.value.0, run.value.1), TakeDelimited(bs).rest)
  {
    hide DecodePacked, TakeDelimited;
    UnionHead(fields, i);
  }

  lemma {:induction false} ArrayRoundTrip(fields: seq<Field>, i: nat, items: seq<Value>, s: State, tail: seq<Byte>)
    requires Filling(fields, i, items, 0, s)
    requires Packable(fields[i].ltype) ==> ShortEnough(EncodePacked(fields[i], items))
    ensures EncodeArray(fields[i], items).Some?
    ensures RunRecords(fields, s, EncodeArray(fields[i], items).value + tail)
            == RunRecords(fields, if items == [] then s else WithItems(fields, i, s, NormalItems(fields[i], items)),
                          tail)
    decreases fields, 1, 0
  {
    if items == [] {
      assert [] + tail == tail;
    } else if Packable(fields[i].ltype) {
      PackedRoundTrip(fields, i, items, s, tail);
    } else {
      assert items[0..] == items;
      UnpackedRoundTrip(fields, i, items, 0, s, tail);
    }
  }

  /** A proto3 singular field that is not sent holds its default. */
  lemma {:induction false} OmittedIsDefault(f: Field, v: Value)
    requires WellFormedField(f) && ValidValue(f, v) && Singular(f) && IsZero(f, v)
    ensures NormalValue(f, v) == DefaultValue(f)
    decreases f, 0
  {
    if f.ltype.SubMessage? {
      OmittedMessageIsDefault(f.sub, v.slots);
    } else if f.ltype.FixedBytes? {
      assert v.bytes == Zeros(0);
    }
  }

  lemma {:induction false} OmittedMessageIsDefault(fields: seq<Field>, slots: seq<Slot>)
    requires WellFormed(fields) && Valid(fields, slots)
    requires forall i :: 0 <= i < |fields| ==> IsDefault(fields[i], Get(slots, SlotOf(fields, i)))
    ensures Normal(fields, slots) == Defaults(fields)
    decreases fields, 1
  {
    forall i | 0 <= i < |fields|
      ensures NormalSlot(fields, i, slots[i]) == Defaults(fields)[i]
    {
      if !Joins(fields, i) {
        var f := fields[i];
        assert ValidSlot(fields, i, slots[i]) && IsDefault(f, slots[i]);
        if Singular(f) {
          OmittedIsDefault(f, slots[i].v);
        } else if f.htype.OneOf? {
          assert forall j :: 0 <= j < |fields| ==> WellFormedField(fields[j]);
        }
      }
    }
  }

  lemma {:induction false} ArrayStep(fields: seq<Field>, slots: seq<Slot>, k: nat, s: State, tail: seq<Byte>)
    returns (s': State)
    requires WellFormed(fields) && Valid(fields, slots) && k < |fields| && Between(fields, slots, k, s)
    requires fields[k].htype.Repeated?
    ensures EncodeSlot(fields[k], Get(slots, SlotOf(fields, k))).Some?
    ensures RunRecords(fields, s, EncodeSlot(fields[k], Get(slots, SlotOf(fields, k))).value + tail)
            == RunRecords(fields, s', tail)
    ensures Between(fields, slots, k + 1, s')
    decreases fields, 2, 0
  {
    hide EncodeArray, RunRecords;
    var f := fields[k];
    ProgressStep(fields, slots, k);
    var slot := slots[k];
    assert ValidSlot(fields, k, slot);
    var items := Items(slot);
    assert Elements(f, slot) == items && items[..0] == [] && items[..|items|] == items;
    ArrayRoundTrip(fields, k, items, s, tail);
    if items != [] {
      s' := WithItems(fields, k, s, NormalItems(fields[k], items));
    } else {
      s' := s;
      assert Put(s.slots, k, Many([])) == s.slots;
    }
  }

  /** A field that is not sent leaves the decoder where it is. */
  lemma AbsentStep(fields: seq<Field>, slots: seq<Slot>, k: nat, s: State)
    requires WellFormed(fields) && Valid(fields, slots) && k < |fields| && Between(fields, slots, k, s)
    requires EncodeSlot(fields[k], Get(slots, SlotOf(fields, k))) == Some([])
    requires !fields[k].htype.Repeated?
    ensures Between(fields, slots, k + 1, s)
  {
    var f, h := fields[k], SlotOf(fields, k);
    ProgressStep(fields, slots, k);
    assert ValidSlot(fields, h, slots[h]);
    if f.htype.Optional? {
      if Singular(f) {
        OmittedIsDefault(f, slots[h].v);
      }
      assert Put(s.slots, k, DefaultSlot(f)) == s.slots;
    }
  }

  predicate Sent(f: Field, slot: Slot) {
    match f.htype
    case Required => true
    case Optional => if f.sizeOffset != 0 then Has(slot) else !IsDefault(f, slot)
    case Repeated => false
    case OneOf => Which(slot) == f.tag
  }

  /** What the decoder holds where the record of a field about to be sent will go. */
  lemma SentReady(fields: seq<Field>, slots: seq<Slot>, k: nat, s: State)
    requires WellFormed(fields) && Valid(fields, slots) && k < |fields| && Between(fields, slots, k, s)
    requires Sent(fields[k], slots[SlotOf(fields, k)])
    ensures var slot := slots[SlotOf(fields, k)];
            ValidValue(fields[k], Content(slot)) && EncodeSlot(fields[k], slot) == Tagged(fields[k], Content(slot))
    ensures var into := s.slots[SlotOf(fields, k)];
            if fields[k].htype.OneOf? then Which(into) == 0 else Content(into) == DefaultValue(fields[k])
  {
    hide ValidValue, Tagged, DefaultValue, NormalSlot;
    var h := SlotOf(fields, k);
    UnionHead(fields, k);
    assert ValidSlot(fields, h, slots[h]);
    if fields[k].htype.OneOf? {
      MemberIsValid(fields, slots, k);
    }
  }

  /** What it holds once the record is stored. */
  lemma SentStored(fields: seq<Field>, slots: seq<Slot>, k: nat, s: State, s': State)
    requires WellFormed(fields) && Valid(fields, slots) && k < |fields| && Between(fields, slots, k, s)
    requires Sent(fields[k], slots[SlotOf(fields, k)])
    requires var x := NormalValue(fields[k], Content(slots[SlotOf(fields, k)]));
             s' == MarkSeen(fields, s, k).(slots := Put(s.slots, SlotOf(fields, k),
                     match fields[k].htype
                     case OneOf => Union(fields[k].tag, x)
                     case _ => if Singular(fields[k]) || fields[k].htype.Required? then Single(x) else Opt(true, x)))
    ensures Between(fields, slots, k + 1, s')
  {
    assert |slots| == |fields|;
    hide NormalValue, ValidValue, Progress, Valid, WellFormed, SlotOf;
    assert s'.slots == Progress(fields, slots, k + 1) by {
      hide MarkSeen;
      ProgressStep(fields, slots, k);
    }
    assert forall r :: 0 <= r < RequiredBefore(fields, k + 1) && r < PB_MAX_REQUIRED_FIELDS ==> r in s'.seen by {
      hide NormalSlot, Put;
      assert RequiredBefore(fields, k + 1) == RequiredBefore(fields, k) + if fields[k].htype.Required? then 1 else 0;
    }
  }

  lemma {:induction false} SentStep(fields: seq<Field>, slots: seq<Slot>, k: nat, s: State, tail: seq<Byte>)
    returns (s': State)
    requires WellFormed(fields) && Valid(fields, slots) && k < |fields| && Between(fields, slots, k, s)
    requires Sent(fields[k], slots[SlotOf(fields, k)])
    ensures EncodeSlot(fields[k], Get(slots, SlotOf(fields, k))).Some?
    ensures RunRecords(fields, s, EncodeSlot(fields[k], Get(slots, SlotOf(fields, k))).value + tail)
            == RunRecords(fields, s', tail)
    ensures Between(fields, slots, k + 1, s')
    decreases fields, 2, 0
  {
    hide RunRecords, EncodeSlot, Tagged, ValidValue, NormalValue, DefaultValue, MarkSeen;
    SentReady(fields, slots, k, s);
    s' := PresentRoundTrip(fields, k, Content(slots[SlotOf(fields, k)]), s, tail);
    SentStored(fields, slots, k, s, s');
  }

  /** From between two fields to between the next two. */
  lemma {:induction false} StepRoundTrip(fields: seq<Field>, slots: seq<Slot>, k: nat, s: State, tail: seq<Byte>)
    returns (s': State)
    requires WellFormed(fields) && Valid(fields, slots) && k < |fields| && Between(fields, slots, k, s)
    ensures EncodeSlot(fields[k], Get(slots, SlotOf(fields, k))).Some?
    ensures RunRecords(fields, s, EncodeSlot(fields[k], Get(slots, SlotOf(fields, k))).value + tail)
            == RunRecords(fields, s', tail)
    ensures Between(fields, slots, k + 1, s')
    decreases fields, 2, 1
  {
    hide RunRecords;
    if fields[k].htype.Repeated? {
      s' := ArrayStep(fields, slots, k, s, tail);
    } else if Sent(fields[k], slots[SlotOf(fields, k)]) {
      s' := SentStep(fields, slots, k, s, tail);
    } else {
      AbsentStep(fields, slots, k, s);
      s' := s;
      assert [] + tail == tail;
    }
  }

  /** The union member that is set carries a value of its own type, and no earlier member of the
      union was sent. */
  lemma MemberIsValid(fields: seq<Field>, slots: seq<Slot>, k: nat)
    requires WellFormed(fields) && Valid(fields, slots) && k < |fields| && fields[k].htype.OneOf?
    requires Which(slots[SlotOf(fields, k)]) == fields[k].tag
    ensures ValidValue(fields[k], Content(slots[SlotOf(fields, k)]))
    ensures Which(ProgressSlot(fields, slots, k, SlotOf(fields, k))) == 0
  {
    var h := SlotOf(fields, k);
    UnionHead(fields, k);
    LookupUnique(fields, k);
    assert ValidSlot(fields, h, slots[h]);
    var m :| 0 <= m < |fields| && SlotOf(fields, m) == h && fields[m].tag == slots[h].which
             && ValidValue(fields[m], slots[h].v);
    assert m == k;
  }

  /** The records of fields `k` onwards bring the decoder to the whole message. */
  lemma {:induction false} FromRoundTrip(fields: seq<Field>, slots: seq<Slot>, k: nat, s: State)
    requires WellFormed(fields) && Valid(fields, slots) && k <= |fields| && Between(fields, slots, k, s)
    ensures EncodeFrom(fields, slots, k).Some?
    ensures var r := RunRecords(fields, s, EncodeFrom(fields, slots, k).value);
            r.Done? && !r.ended && Between(fields, slots, |fields|, r.state)
    decreases fields, 3, |fields| - k
  {
    if k < |fields| {
      hide EncodeSlot, Between, RunRecords;
      var s0 := StepRoundTrip(fields, slots, k, s, []);
      FromRoundTrip(fields, slots, k + 1, s0);
      var s' := StepRoundTrip(fields, slots, k, s, EncodeFrom(fields, slots, k + 1).value);
      FromRoundTrip(fields, slots, k + 1, s');
    }
  }

  lemma {:induction false} MessageRoundTrip(fields: seq<Field>, slots: seq<Slot>)
    requires WellFormed(fields) && Valid(fields, slots)
    ensures EncodeMessage(fields, slots).Some?
    ensures Decode(fields, EncodeMessage(fields, slots).value) == Ok(Normal(fields, slots), [])
    ensures ReadsToEnd(fields, Defaults(fields), EncodeMessage(fields, slots).value)
    decreases fields, 4, 0
  {
    ProgressStarts(fields, slots);
    ProgressEnds(fields, slots);
    FromRoundTrip(fields, slots, 0, Start(Defaults(fields)));
  }

  /** With a length prefix, whatever follows the message is left unread. */
  lemma DelimitedRoundTrip(fields: seq<Field>, slots: seq<Slot>, tail: seq<Byte>)
    requires WellFormed(fields) && Valid(fields, slots) && ShortEnough(EncodeMessage(fields, slots))
    ensures EncodeMessage(fields, slots).Some?
    ensures DecodeDelimited(fields, Delimit(EncodeMessage(fields, slots).value) + tail)
            == Ok(Normal(fields, slots), tail)
  {
    hide Decode, Delimit, TakeDelimited;
    MessageRoundTrip(fields, slots);
    TakeDelimit(EncodeMessage(fields, slots).value, tail);
  }

  /** So it is behind the zero byte that terminates a message. */
  lemma NullTerminatedRoundTrip(fields: seq<Field>, slots: seq<Slot>, tail: seq<Byte>)
    requires WellFormed(fields) && Valid(fields, slots)
    ensures EncodeMessage(fields, slots).Some?
    ensures Decode(fields, EncodeMessage(fields, slots).value + ([0] + tail)) == Ok(Normal(fields, slots), tail)
  {
    MessageRoundTrip(fields, slots);
    var body := EncodeMessage(fields, slots).value;
    RunResumes(fields, Start(Defaults(fields)), body, [0] + tail);
    assert ([0] + tail)[1..] == tail && DecodeTag([0] + tail) == EndOfMessage(tail);
  }
}

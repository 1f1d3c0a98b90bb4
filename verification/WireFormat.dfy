/** What the encoder writes for each field, seen by a receiver that only knows the wire format, and
    by one whose descriptor lacks the field. */
module WireFormat {
  import opened Words
  import V = Varint
  import opened Descriptor
  import opened Decoding
  import opened Encoding
  import opened Concatenation
  import opened RoundTrip

  // ---------------------------------------------------------------- records

  /** Every element is a payload of the wire type in front of it. */
  lemma ElementIsPayload(f: Field, v: Value)
    requires WellFormedField(f) && ValidValue(f, v)
    ensures EncodeValue(f, v).Some? && Payload(WireOf(f.ltype), EncodeValue(f, v).value)
  {
    if f.ltype.SubMessage? {
      MessageRoundTrip(f.sub, v.slots);
      BodyIsPayload(EncodeMessage(f.sub, v.slots).value);
    } else {
      ScalarIsPayload(f, v);
    }
  }

  lemma BodyIsPayload(body: seq<Byte>)
    requires |body| < TWO32
    ensures Payload(2, Delimit(body))
  {
  }

  lemma ScalarIsPayload(f: Field, v: Value)
    requires WellFormedField(f) && ValidValue(f, v) && !f.ltype.SubMessage?
    ensures EncodeScalar(f, v).Some? && Payload(WireOf(f.ltype), EncodeScalar(f, v).value)
  {
    hide V.EncodeVarint, V.IsGroup, LittleEndianBytes, Delimit, CString, V.ZigZag, Signed64;
    match f.ltype
    case Bool => V.EncodeVarintSpells(if Number(v) != 0 then 1 else 0);
    case Varint => V.EncodeVarintSpells(Number(v) % TWO64);
    case UVarint => V.EncodeVarintSpells(Number(v) % TWO64);
    case SVarint => V.EncodeVarintSpells(V.ZigZag(Signed64(Number(v))));
    case Fixed32 =>
    case Fixed64 =>
    case Bytes => BodyIsPayload(v.bytes);
    case Text => BodyIsPayload(CString(v.bytes, f.dataSize));
    case FixedBytes => BodyIsPayload(Buffer(v.bytes, f.dataSize));
  }

  /** The wire type of each field type, by its number. */
  function WireNumber(t: LType): nat {
    if t.Fixed64? then 1
    else if t.Fixed32? then 5
    else if t.Bool? || t.Varint? || t.UVarint? || t.SVarint? then 0
    else 2
  }

  /** A record is one varint that spells eight times the field number plus the wire type, and then
      such a payload. */
  lemma RecordFormat(f: Field, v: Value)
    requires WellFormedField(f) && ValidValue(f, v)
    ensures EncodeValue(f, v).Some? && Tagged(f, v) == Some(EncodeTag(WireOf(f.ltype), f.tag) + EncodeValue(f, v).value)
    ensures V.IsGroup(EncodeTag(WireOf(f.ltype), f.tag))
    ensures V.Base128(EncodeTag(WireOf(f.ltype), f.tag)) == 8 * f.tag + WireNumber(f.ltype)
    ensures Payload(WireNumber(f.ltype), EncodeValue(f, v).value)
  {
    ElementIsPayload(f, v);
    V.EncodeVarintSpells(f.tag * 8 + WireOf(f.ltype));
    hide EncodeValue, V.EncodeVarint, ValidValue;
  }

  // ---------------------------------------------------------------- a receiver without the field

  /** Records of a field that a receiver does not know leave it where it is. */
  lemma ElementSkipped(other: seq<Field>, s: State, f: Field, v: Value, tail: seq<Byte>)
    requires WellFormedField(f) && ValidValue(f, v) && Lookup(other, f.tag).None?
    ensures Tagged(f, v).Some? && RunRecords(other, s, Tagged(f, v).value + tail) == RunRecords(other, s, tail)
  {
    hide RunRecords, EncodeValue, EncodeTag, ValidValue, Payload;
    ElementIsPayload(f, v);
    UnknownRecordSkipped(other, s, f.tag, WireOf(f.ltype), EncodeValue(f, v).value, tail);
  }

  lemma {:induction false} ElementsSkipped(other: seq<Field>, s: State, f: Field, items: seq<Value>, tail: seq<Byte>)
    requires WellFormedField(f) && Lookup(other, f.tag).None?
    requires forall k :: 0 <= k < |items| ==> ValidValue(f, items[k])
    ensures EncodeUnpacked(f, items).Some?
    ensures RunRecords(other, s, EncodeUnpacked(f, items).value + tail) == RunRecords(other, s, tail)
    decreases |items|
  {
    hide RunRecords, Tagged;
    if items == [] {
      assert [] + tail == tail;
    } else {
      ElementsSkipped(other, s, f, items[1..], tail);
      var first, rest := Tagged(f, items[0]), EncodeUnpacked(f, items[1..]).value;
      ElementSkipped(other, s, f, items[0], rest + tail);
      assert first.value + rest + tail == first.value + (rest + tail);
    }
  }

  lemma ArraySkipped(other: seq<Field>, s: State, f: Field, items: seq<Value>, tail: seq<Byte>)
    requires WellFormedField(f) && Lookup(other, f.tag).None? && |items| <= f.arraySize
    requires forall k :: 0 <= k < |items| ==> ValidValue(f, items[k])
    requires Packable(f.ltype) ==> ShortEnough(EncodePacked(f, items))
    ensures EncodeArray(f, items).Some?
    ensures RunRecords(other, s, EncodeArray(f, items).value + tail) == RunRecords(other, s, tail)
  {
    hide RunRecords, EncodeTag, EncodePacked, EncodeUnpacked, ValidValue, Delimit;
    if items == [] {
      assert [] + tail == tail;
    } else if Packable(f.ltype) {
      PackedBody(f, [], items);
      var body := EncodePacked(f, items).value;
      BodyIsPayload(body);
      UnknownRecordSkipped(other, s, f.tag, 2, Delimit(body), tail);
    } else {
      ElementsSkipped(other, s, f, items, tail);
    }
  }

  lemma FieldSkipped(other: seq<Field>, s: State, fields: seq<Field>, slots: seq<Slot>, i: nat, tail: seq<Byte>)
    requires WellFormed(fields) && Valid(fields, slots) && i < |fields| && Lookup(other, fields[i].tag).None?
    ensures EncodeSlot(fields[i], Get(slots, SlotOf(fields, i))).Some?
    ensures RunRecords(other, s, EncodeSlot(fields[i], Get(slots, SlotOf(fields, i))).value + tail)
            == RunRecords(other, s, tail)
  {
    hide RunRecords, Tagged, EncodeArray, IsDefault, ValidValue, Lookup;
    var f, h := fields[i], SlotOf(fields, i);
    assert WellFormedField(f) && ValidSlot(fields, h, slots[h]);
    UnionHead(fields, i);
    if f.htype.Repeated? {
      assert Elements(f, slots[h]) == Items(slots[h]);
      ArraySkipped(other, s, f, Items(slots[h]), tail);
    } else if Sent(f, slots[h]) {
      if f.htype.OneOf? {
        MemberIsValid(fields, slots, i);
      }
      ElementSkipped(other, s, f, Content(slots[h]), tail);
    } else {
      assert [] + tail == tail;
    }
  }

  // ---------------------------------------------------------------- reading up to a field

  /** The bytes of the fields before `k`. */
  function EncodeUpTo(fields: seq<Field>, slots: seq<Slot>, k: nat): Option<seq<Byte>>
    requires k <= |fields|
  {
    if k == 0 then Some([])
    else Join(EncodeUpTo(fields, slots, k - 1), EncodeSlot(fields[k - 1], Get(slots, SlotOf(fields, k - 1))))
  }

  lemma {:induction false} EncodeInParts(fields: seq<Field>, slots: seq<Slot>, k: nat)
    requires k <= |fields|
    ensures EncodeMessage(fields, slots) == Join(EncodeUpTo(fields, slots, k), EncodeFrom(fields, slots, k))
    decreases k
  {
    hide EncodeSlot;
    if k == 0 {
      var all := EncodeFrom(fields, slots, 0);
      assert all.Some? ==> [] + all.value == all.value;
    } else {
      EncodeInParts(fields, slots, k - 1);
      var a, c := EncodeUpTo(fields, slots, k - 1), EncodeFrom(fields, slots, k);
      var b := EncodeSlot(fields[k - 1], Get(slots, SlotOf(fields, k - 1)));
      if a.Some? && b.Some? && c.Some? {
        assert a.value + (b.value + c.value) == a.value + b.value + c.value;
      }
    }
  }

  lemma {:induction false} PrefixReads(fields: seq<Field>, slots: seq<Slot>, k: nat) returns (s: State)
    requires WellFormed(fields) && Valid(fields, slots) && k <= |fields|
    ensures EncodeUpTo(fields, slots, k).Some? && Between(fields, slots, k, s)
    ensures RunRecords(fields, Start(Defaults(fields)), EncodeUpTo(fields, slots, k).value) == Done(s, [], false)
    decreases k
  {
    hide EncodeSlot, Between, RunRecords, WellFormed, Valid, SlotOf, Defaults;
    var start := Start(Defaults(fields));
    if k == 0 {
      s := start;
      NothingSent(fields, slots);
      NothingToRead(fields, s);
    } else {
      var s0 := PrefixReads(fields, slots, k - 1);
      s := StepRoundTrip(fields, slots, k - 1, s0, []);
      var before := EncodeUpTo(fields, slots, k - 1).value;
      var piece := EncodeSlot(fields[k - 1], Get(slots, SlotOf(fields, k - 1))).value;
      RunResumes(fields, start, before, piece);
      assert piece + [] == piece;
      NothingToRead(fields, s);
    }
  }

  lemma NothingSent(fields: seq<Field>, slots: seq<Slot>)
    ensures Between(fields, slots, 0, Start(Defaults(fields)))
  {
    ProgressStarts(fields, slots);
    hide Defaults, Progress;
  }

  lemma NothingToRead(fields: seq<Field>, s: State)
    ensures RunRecords(fields, s, []) == Done(s, [], false)
  {
  }

  // ---------------------------------------------------------------- the receiver's descriptor

  function Without(fields: seq<Field>, i: nat): (r: seq<Field>)
    requires i < |fields|
    ensures |r| == |fields| - 1
    ensures forall k :: 0 <= k < |r| ==> r[k] == fields[Across(i, k)]
  {
    fields[..i] + fields[i + 1..]
  }

  /** Where field `k` of the receiver stands in the sender's descriptor. */
  function Across(i: nat, k: nat): nat {
    if k < i then k else k + 1
  }

  /** Taking field `i` away leaves the other unions as they are: it is not the first of several
      members, and does not stand between a union and what would then join it. */
  predicate Removable(fields: seq<Field>, i: nat) {
    i < |fields|
    && (!Joins(fields, i) && i + 1 < |fields| ==> !Joins(fields, i + 1) && !Joins(Without(fields, i), i))
  }

  /** The message without the field: a union that held it is unset. */
  function SlotsWithout(fields: seq<Field>, slots: seq<Slot>, i: nat): (r: seq<Slot>)
    requires i < |fields|
    ensures |r| == |fields| - 1
    ensures forall k :: 0 <= k < |r| ==> r[k] == Unless(Get(slots, Across(i, k)), fields[i].tag)
  {
    seq(|fields| - 1, k requires 0 <= k < |fields| - 1 => Unless(Get(slots, Across(i, k)), fields[i].tag))
  }

  function Unless(slot: Slot, tag: nat): Slot {
    if slot.Union? && slot.which == tag then Union(0, Num(0)) else slot
  }

  lemma JoinsAcross(fields: seq<Field>, i: nat, k: nat)
    requires Removable(fields, i) && k + 1 < |fields|
    ensures Joins(Without(fields, i), k) == Joins(fields, Across(i, k))
  {
  }

  lemma {:induction false} SlotAcross(fields: seq<Field>, i: nat, k: nat)
    requires Removable(fields, i) && k + 1 < |fields|
    ensures SlotOf(fields, Across(i, k)) == Across(i, SlotOf(Without(fields, i), k))
    decreases k
  {
    JoinsAcross(fields, i, k);
    hide Without;
    if Joins(Without(fields, i), k) {
      SlotAcross(fields, i, k - 1);
    }
  }

  lemma LookupAcross(fields: seq<Field>, i: nat, tag: nat)
    requires i < |fields| && DistinctTags(fields) && forall k :: 0 <= k < |fields| ==> !fields[k].ltype.Extension?
    ensures tag == fields[i].tag ==> Lookup(Without(fields, i), tag).None?
    ensures tag != fields[i].tag ==>
              match Lookup(Without(fields, i), tag)
              case None => Lookup(fields, tag).None?
              case Some(k) => Lookup(fields, tag) == Some(Across(i, k))
  {
    var other := Without(fields, i);
    if Lookup(fields, tag).Some? && tag != fields[i].tag {
      var j := Lookup(fields, tag).value;
      var k := if j < i then j else j - 1;
      assert other[k] == fields[j];
      LookupUnique(other, k);
    }
  }

  lemma WithoutWellFormed(fields: seq<Field>, i: nat)
    requires WellFormed(fields) && i < |fields|
    ensures WellFormed(Without(fields, i))
  {
  }

  /** Where another field of the sender stands in the receiver's descriptor. */
  lemma FieldAcross(fields: seq<Field>, i: nat, j: nat) returns (k: nat)
    requires Removable(fields, i) && j < |fields| && j != i
    ensures k + 1 < |fields| && Across(i, k) == j && Without(fields, i)[k] == fields[j]
    ensures SlotOf(fields, j) == Across(i, SlotOf(Without(fields, i), k))
  {
    k := if j < i then j else j - 1;
    SlotAcross(fields, i, k);
    hide SlotOf;
  }

  /** A union that is still set after the field is taken away holds one of its other members. */
  lemma MemberAcross(fields: seq<Field>, i: nat, k: nat, which: nat, v: Value)
    requires Removable(fields, i) && k + 1 < |fields| && which != fields[i].tag
    requires exists j :: 0 <= j < |fields| && SlotOf(fields, j) == Across(i, k) && fields[j].tag == which
                         && ValidValue(fields[j], v)
    ensures var other := Without(fields, i);
            exists j :: 0 <= j < |other| && SlotOf(other, j) == k && other[j].tag == which && ValidValue(other[j], v)
  {
    assert i < |fields|;
    hide ValidValue, SlotOf, Removable, Without;
    var j :| 0 <= j < |fields| && SlotOf(fields, j) == Across(i, k) && fields[j].tag == which
             && ValidValue(fields[j], v);
    var j' := FieldAcross(fields, i, j);
    assert SlotOf(Without(fields, i), j') == k;
  }

  lemma SlotValidAcross(fields: seq<Field>, slots: seq<Slot>, i: nat, k: nat)
    requires WellFormed(fields) && Valid(fields, slots) && Removable(fields, i) && k + 1 < |fields|
    ensures ValidSlot(Without(fields, i), k, SlotsWithout(fields, slots, i)[k])
  {
    var slot := slots[Across(i, k)];
    JoinsAcross(fields, i, k);
    assert ValidSlot(fields, Across(i, k), slot);
    hide ValidValue, EncodePacked, SlotOf, Joins, Without, SlotsWithout, WellFormed, Valid, Removable;
    if slot.Union? && slot.which != 0 && slot.which != fields[i].tag {
      MemberAcross(fields, i, k, slot.which, slot.v);
    }
  }

  /** The other fields are sent alike. */
  lemma SentAcross(fields: seq<Field>, slots: seq<Slot>, i: nat, k: nat)
    requires WellFormed(fields) && Valid(fields, slots) && Removable(fields, i) && k + 1 < |fields|
    ensures var other, j := Without(fields, i), Across(i, k);
            EncodeSlot(other[k], Get(SlotsWithout(fields, slots, i), SlotOf(other, k)))
            == EncodeSlot(fields[j], Get(slots, SlotOf(fields, j)))
  {
    hide Tagged, EncodeArray, IsDefault;
    var j := Across(i, k);
    SlotAcross(fields, i, k);
    UnionHead(fields, j);
    assert ValidSlot(fields, SlotOf(fields, j), slots[SlotOf(fields, j)]) && WellFormedField(fields[j]);
    hide ValidValue, SlotOf;
  }

  lemma {:induction false} UpToAcross(fields: seq<Field>, slots: seq<Slot>, i: nat, k: nat)
    requires WellFormed(fields) && Valid(fields, slots) && Removable(fields, i) && k <= i
    ensures EncodeUpTo(Without(fields, i), SlotsWithout(fields, slots, i), k) == EncodeUpTo(fields, slots, k)
    decreases k
  {
    if k > 0 {
      UpToAcross(fields, slots, i, k - 1);
      SentAcross(fields, slots, i, k - 1);
      hide EncodeSlot, SlotOf;
    }
  }

  lemma {:induction false} FromAcross(fields: seq<Field>, slots: seq<Slot>, i: nat, k: nat)
    requires WellFormed(fields) && Valid(fields, slots) && Removable(fields, i) && i <= k < |fields|
    ensures EncodeFrom(Without(fields, i), SlotsWithout(fields, slots, i), k) == EncodeFrom(fields, slots, k + 1)
    decreases |fields| - k
  {
    if k + 1 < |fields| {
      FromAcross(fields, slots, i, k + 1);
      SentAcross(fields, slots, i, k);
      hide EncodeSlot, SlotOf;
    }
  }

  lemma WithoutValid(fields: seq<Field>, slots: seq<Slot>, i: nat)
    requires WellFormed(fields) && Valid(fields, slots) && Removable(fields, i)
    ensures Valid(Without(fields, i), SlotsWithout(fields, slots, i))
  {
    hide ValidSlot;
    forall k | 0 <= k < |fields| - 1
      ensures ValidSlot(Without(fields, i), k, SlotsWithout(fields, slots, i)[k])
    {
      SlotValidAcross(fields, slots, i, k);
    }
  }

  /** The sender's bytes are the receiver's own, with the records of field `i` in between. */
  lemma SplitAcross(fields: seq<Field>, slots: seq<Slot>, i: nat)
    requires WellFormed(fields) && Valid(fields, slots) && Removable(fields, i)
    ensures var piece := EncodeSlot(fields[i], Get(slots, SlotOf(fields, i)));
            var before, after := EncodeUpTo(fields, slots, i), EncodeFrom(fields, slots, i + 1);
            && EncodeMessage(fields, slots) == Join(before, Join(piece, after))
            && EncodeMessage(Without(fields, i), SlotsWithout(fields, slots, i)) == Join(before, after)
            && before == EncodeUpTo(Without(fields, i), SlotsWithout(fields, slots, i), i)
  {
    hide EncodeSlot, Without, SlotsWithout, WellFormed, Valid, SlotOf;
    EncodeInParts(fields, slots, i);
    EncodeInParts(Without(fields, i), SlotsWithout(fields, slots, i), i);
    UpToAcross(fields, slots, i, i);
    AfterAcross(fields, slots, i);
  }

  lemma AfterAcross(fields: seq<Field>, slots: seq<Slot>, i: nat)
    requires WellFormed(fields) && Valid(fields, slots) && Removable(fields, i)
    ensures EncodeFrom(Without(fields, i), SlotsWithout(fields, slots, i), i) == EncodeFrom(fields, slots, i + 1)
  {
    FromAcross(fields, slots, i, i);
  }

  /** A receiver whose descriptor lacks field `i` decodes what the encoder wrote. */
  lemma ReceiverWithoutField(fields: seq<Field>, slots: seq<Slot>, i: nat)
    requires WellFormed(fields) && Valid(fields, slots) && Removable(fields, i)
    ensures EncodeMessage(fields, slots).Some?
    ensures var other := Without(fields, i);
            Decode(other, EncodeMessage(fields, slots).value)
            == Ok(Normal(other, SlotsWithout(fields, slots, i)), [])
  {
    var other, others := Without(fields, i), SlotsWithout(fields, slots, i);
    WithoutWellFormed(fields, i);
    WithoutValid(fields, slots, i);
    assert WellFormedField(fields[i]);
    LookupAcross(fields, i, fields[i].tag);
    hide EncodeSlot, EncodeFrom, EncodeUpTo, EncodeMessage, Valid, WellFormed, Normal, Without, SlotsWithout, Lookup,
         SlotOf, RunRecords, Between;
    MessageRoundTrip(fields, slots);
    MessageRoundTrip(other, others);
    SplitAcross(fields, slots, i);
    var before, after := EncodeUpTo(fields, slots, i).value, EncodeFrom(fields, slots, i + 1).value;
    var piece := EncodeSlot(fields[i], Get(slots, SlotOf(fields, i))).value;
    var s := PrefixReads(other, others, i);
    RunResumes(other, Start(Defaults(other)), before, after);
    RunResumes(other, Start(Defaults(other)), before, piece + after);
    FieldSkipped(other, s, fields, slots, i, after);
  }

  /** A union in normal form names the same member for both. */
  lemma UnionAcross(fields: seq<Field>, i: nat, k: nat, slot: Slot)
    requires WellFormed(fields) && Removable(fields, i) && k + 1 < |fields| && slot.Union?
    requires fields[Across(i, k)].htype.OneOf? && !Joins(fields, Across(i, k))
    ensures NormalSlot(Without(fields, i), k, Unless(slot, fields[i].tag))
            == if slot.which == fields[i].tag then Union(0, Num(0)) else NormalSlot(fields, Across(i, k), slot)
  {
    JoinsAcross(fields, i, k);
    assert forall j :: 0 <= j < |fields| ==> WellFormedField(fields[j]);
    LookupAcross(fields, i, slot.which);
    LookupAcross(fields, i, 0);
    hide NormalValue, Joins, Lookup, WellFormed, Removable;
  }

  /** And it gets every other field as a receiver of the whole message does. */
  lemma OtherFieldsUnchanged(fields: seq<Field>, slots: seq<Slot>, i: nat, k: nat)
    requires WellFormed(fields) && Valid(fields, slots) && Removable(fields, i) && k + 1 < |fields|
    ensures var got, sent := Normal(Without(fields, i), SlotsWithout(fields, slots, i))[k], slots[Across(i, k)];
            got == if sent.Union? && sent.which == fields[i].tag then Union(0, Num(0))
                   else Normal(fields, slots)[Across(i, k)]
  {
    var other, j := Without(fields, i), Across(i, k);
    var slot := slots[j];
    JoinsAcross(fields, i, k);
    assert ValidSlot(fields, j, slot);
    assert Normal(other, SlotsWithout(fields, slots, i))[k] == NormalSlot(other, k, Unless(slot, fields[i].tag));
    assert Normal(fields, slots)[j] == NormalSlot(fields, j, slot);
    hide NormalValue, ValidValue, Joins, WellFormed, Valid, Removable, Normal, SlotsWithout, Without;
    if slot.Union? {
      UnionAcross(fields, i, k, slot);
    } else {
      hide Lookup;
    }
  }
}

/** What the records of a field leave in its slot: the last one wins, and without any the slot keeps
    what it started with. */
module FieldRecords {
  import opened Words
  import V = Varint
  import opened Descriptor
  import opened Decoding
  import opened Encoding
  import opened Concatenation
  import opened RequiredFields

  // ---------------------------------------------------------------- last one wins

  predicate ScalarField(f: Field) {
    !f.ltype.SubMessage? && !f.htype.Repeated?
  }

  /** The slot that holds exactly this value of the field. */
  predicate HoldsExactly(f: Field, slot: Slot, v: Value) {
    match f.htype
    case OneOf => slot.Union? && slot.which == f.tag && slot.v == v
    case Optional => if f.sizeOffset == 0 then slot == Single(v) else slot.Opt? && slot.has && slot.v == v
    case _ => slot == Single(v)
  }

  lemma ScalarStored(f: Field, wire: nat, slot: Slot, n: nat, bs: seq<Byte>)
    requires ScalarField(f) && DecodeScalar(f, bs).Ok?
    ensures var p := DecodeScalar(f, bs); DecodeStatic(f, wire, slot, n, bs) == Ok((StoredAs(f, p.value), n), p.rest)
  {
    assert forall into :: DecodeValue(f, into, bs) == DecodeScalar(f, bs);
    hide DecodeScalar, DecodeValue;
  }

  /** Whatever the slot held before, after a scalar record it holds that record's value. */
  lemma ScalarRecordWins(fields: seq<Field>, s: State, i: nat, wire: nat, bs: seq<Byte>)
    requires i < |fields| && ScalarField(fields[i]) && SlotOf(fields, i) < |s.slots|
    requires DecodeScalar(fields[i], bs).Ok?
    ensures var r, p, k := DecodeField(fields, s, i, wire, bs), DecodeScalar(fields[i], bs), SlotOf(fields, i);
            && r.Ok? && r.rest == p.rest && |r.value.slots| == |s.slots|
            && HoldsExactly(fields[i], r.value.slots[k], p.value)
            && (forall j :: 0 <= j < |s.slots| && j != k ==> r.value.slots[j] == s.slots[j])
            && r.value.fixed == s.fixed && r.value.count == s.count
  {
    hide DecodeScalar, DecodeStatic, SlotOf, RequiredBefore;
    var f, slot := fields[i], Get(s.slots, SlotOf(fields, i));
    ScalarStored(f, wire, slot, |Items(slot)|, bs);
    var p := DecodeScalar(f, bs);
    assert DecodeField(fields, s, i, wire, bs) == Ok(WithField(fields, s, i, p.value), p.rest);
  }

  /** Fields that write one slot: the same field, or two members of a union. */
  predicate ShareSlot(fields: seq<Field>, i: nat, j: nat) {
    i < |fields| && j < |fields| && SlotOf(fields, i) == SlotOf(fields, j)
    && (i == j || (fields[i].htype.OneOf? && fields[j].htype.OneOf?))
  }

  /** A scalar record leaves the state that it would leave without a record of its slot before it. */
  lemma RecordReplaces(fields: seq<Field>, s: State, i: nat, j: nat, first: State, wire: nat, bs: seq<Byte>)
    requires ShareSlot(fields, i, j) && ScalarField(fields[j]) && !fields[i].htype.Repeated?
    requires first.seen == MarkSeen(fields, s, i).seen && first.fixed == s.fixed && first.count == s.count
    requires |first.slots| == |s.slots|
    requires forall k :: 0 <= k < |s.slots| && k != SlotOf(fields, i) ==> first.slots[k] == s.slots[k]
    requires DecodeScalar(fields[j], bs).Ok?
    ensures DecodeField(fields, first, j, wire, bs) == DecodeField(fields, s, j, wire, bs)
  {
    hide DecodeScalar, DecodeStatic, SlotOf, RequiredBefore;
    var f, k, v := fields[j], SlotOf(fields, j), DecodeScalar(fields[j], bs).value;
    ScalarStored(f, wire, Get(first.slots, k), |Items(Get(first.slots, k))|, bs);
    ScalarStored(f, wire, Get(s.slots, k), |Items(Get(s.slots, k))|, bs);
    assert Put(first.slots, k, StoredAs(f, v)) == Put(s.slots, k, StoredAs(f, v));
    assert MarkSeen(fields, first, j).seen == MarkSeen(fields, s, j).seen;
  }

  /** A record of a singular field touches its own slot only. */
  lemma RecordIsLocal(fields: seq<Field>, s: State, i: nat, wire: nat, bs: seq<Byte>)
    requires i < |fields| && DecodeField(fields, s, i, wire, bs).Ok?
    ensures var r := DecodeField(fields, s, i, wire, bs).value;
            && |r.slots| == |s.slots| && r.seen == MarkSeen(fields, s, i).seen
            && (forall k :: 0 <= k < |s.slots| && k != SlotOf(fields, i) ==> r.slots[k] == s.slots[k])
            && (!fields[i].htype.Repeated? ==> r.fixed == s.fixed && r.count == s.count)
  {
    hide DecodeStatic, SlotOf, RequiredBefore;
  }

  /** The record of field `i` with this payload. */
  function RecordOf(fields: seq<Field>, i: nat, wire: nat, payload: seq<Byte>): seq<Byte>
    requires i < |fields|
  {
    EncodeTag(wire, fields[i].tag) + payload
  }

  /** The payload is used up, whatever follows it and whatever the slot holds. */
  predicate ReadsPayload(f: Field, payload: seq<Byte>) {
    DecodeScalar(f, payload).Ok? && DecodeScalar(f, payload).rest == []
  }

  lemma PayloadReads(f: Field, payload: seq<Byte>, tail: seq<Byte>)
    requires ReadsPayload(f, payload)
    ensures DecodeScalar(f, payload + tail) == Ok(DecodeScalar(f, payload).value, tail)
  {
    DecodeScalarExtends(f, payload, tail);
    assert [] + tail == tail;
  }

  /** Of two records of one scalar field, or of two members of one union, only the second matters:
      the whole run is as if the first had not been there. */
  lemma LastRecordWins(fields: seq<Field>, s: State, i: nat, wireI: nat, p: seq<Byte>, j: nat, wireJ: nat,
                       q: seq<Byte>, tail: seq<Byte>)
    requires DistinctTags(fields) && ShareSlot(fields, i, j) && ScalarField(fields[i]) && ScalarField(fields[j])
    requires !fields[i].ltype.Extension? && !fields[j].ltype.Extension? && wireI < 8 && wireJ < 8
    requires 0 < fields[i].tag < TWO32 / 8 && 0 < fields[j].tag < TWO32 / 8 && SlotOf(fields, i) < |s.slots|
    requires ReadsPayload(fields[i], p) && ReadsPayload(fields[j], q)
    ensures RunRecords(fields, s, RecordOf(fields, i, wireI, p) + (RecordOf(fields, j, wireJ, q) + tail))
            == RunRecords(fields, s, RecordOf(fields, j, wireJ, q) + tail)
  {
    hide RunRecords, DecodeScalar, DecodeField, EncodeTag, SlotOf, MarkSeen;
    var next := RecordOf(fields, j, wireJ, q) + tail;
    PayloadReads(fields[i], p, next);
    PayloadReads(fields[j], q, tail);
    ScalarRecordWins(fields, s, i, wireI, p + next);
    RecordIsLocal(fields, s, i, wireI, p + next);
    var first := DecodeField(fields, s, i, wireI, p + next).value;
    OneRecord(fields, s, i, wireI, p, next);
    OneRecord(fields, first, j, wireJ, q, tail);
    OneRecord(fields, s, j, wireJ, q, tail);
    RecordReplaces(fields, s, i, j, first, wireJ, q + tail);
    ScalarRecordWins(fields, s, j, wireJ, q + tail);
  }

  // ---------------------------------------------------------------- messages that start afresh

  lemma FreshValue(f: Field, into: Value, bs: seq<Byte>)
    requires f.ltype.SubMessage? && (f.htype.Repeated? || into == Msg(Defaults(f.sub)))
    ensures var p := DecodeDelimited(f.sub, bs);
            DecodeValue(f, into, bs) == if p.Ok? then Ok(Msg(p.value), p.rest) else Fail
  {
    hide DecodeMessage;
  }

  /** A record that turns a union to another member, and one more element of an array, hold exactly
      the message that their bytes decode to alone: nothing of what was there before shows through. */
  lemma MessageStartsAfresh(fields: seq<Field>, s: State, i: nat, wire: nat, bs: seq<Byte>)
    requires i < |fields| && fields[i].ltype.SubMessage? && SlotOf(fields, i) < |s.slots|
    requires var slot := s.slots[SlotOf(fields, i)];
             || (fields[i].htype.OneOf? && Which(slot) != fields[i].tag)
             || (fields[i].htype.Repeated? && !FixedCount(fields[i]) && |Items(slot)| < fields[i].arraySize)
    ensures var r, p, k := DecodeField(fields, s, i, wire, bs), DecodeDelimited(fields[i].sub, bs), SlotOf(fields, i);
            && (r.Ok? <==> p.Ok?)
            && (r.Ok? ==>
                  && r.rest == p.rest && |r.value.slots| == |s.slots|
                  && r.value.slots[k] == (if fields[i].htype.OneOf? then Union(fields[i].tag, Msg(p.value))
                                          else Many(Items(s.slots[k]) + [Msg(p.value)])))
  {
    hide DecodeDelimited, DecodeValue, SlotOf, RequiredBefore;
    FreshValue(fields[i], if fields[i].htype.OneOf? then Msg(Defaults(fields[i].sub)) else Num(0), bs);
  }

  // ---------------------------------------------------------------- no record at all

  /** No record of a field that writes slot `k`. */
  predicate Untouched(fields: seq<Field>, k: nat, tags: set<nat>) {
    forall i :: 0 <= i < |fields| && SlotOf(fields, i) == k ==> fields[i].tag !in tags
  }

  /** A slot keeps what it held through a run without a record of its fields. */
  lemma {:induction false} UntouchedSlotStays(fields: seq<Field>, s: State, bs: seq<Byte>, k: nat)
    requires k < |s.slots| && RunRecords(fields, s, bs).Done? && Untouched(fields, k, RecordTags(fields, s, bs))
    ensures var slots := RunRecords(fields, s, bs).state.slots; k < |slots| && slots[k] == s.slots[k]
    decreases |bs|
  {
    hide DecodeRecord, DecodeTag, SlotOf;
    if bs != [] && DecodeTag(bs).Record? {
      var t := DecodeTag(bs);
      var p := DecodeRecord(fields, s, t.tag, t.wire, t.rest);
      assert t.tag in RecordTags(fields, s, bs);
      RecordStays(fields, s, t.tag, t.wire, t.rest, k);
      UntouchedSlotStays(fields, p.value, p.rest, k);
    }
  }

  lemma RecordStays(fields: seq<Field>, s: State, tag: nat, wire: nat, bs: seq<Byte>, k: nat)
    requires k < |s.slots| && DecodeRecord(fields, s, tag, wire, bs).Ok?
    requires forall i :: 0 <= i < |fields| && SlotOf(fields, i) == k ==> fields[i].tag != tag
    ensures var slots := DecodeRecord(fields, s, tag, wire, bs).value.slots; k < |slots| && slots[k] == s.slots[k]
  {
    hide DecodeField, SlotOf;
    match Lookup(fields, tag)
    case None =>
    case Some(i) => RecordIsLocal(fields, s, i, wire, bs);
  }

  /** What C gives a field that nothing initialises: numbers are zero, strings and bytes empty. */
  predicate IsCleared(f: Field, v: Value) {
    match f.ltype
    case Bytes => v == Blob([])
    case Text => v == Blob([])
    case FixedBytes => v.Blob? && |v.bytes| == f.dataSize && forall i :: 0 <= i < |v.bytes| ==> v.bytes[i] == 0
    case _ => v == Num(0)
  }

  /** The slot of a scalar field that was never sent: its has_ flag is false, and it holds the default
      of its descriptor or is cleared if it has none. */
  predicate HoldsInitial(f: Field, slot: Slot) {
    && (if f.htype.Optional? && f.sizeOffset != 0 then slot.Opt? && !slot.has else slot.Single?)
    && (if f.init.Some? then slot.v == f.init.value else IsCleared(f, slot.v))
  }

  lemma DefaultIsInitial(f: Field)
    requires ScalarField(f) && !f.htype.OneOf?
    ensures HoldsInitial(f, DefaultSlot(f))
  {
  }

  /** Only field `i` itself writes the slot of a field outside unions. */
  lemma OwnSlot(fields: seq<Field>, i: nat, tags: set<nat>)
    requires i < |fields| && !fields[i].htype.OneOf? && fields[i].tag !in tags
    ensures Untouched(fields, i, tags)
  {
    forall j | 0 <= j < |fields| && SlotOf(fields, j) == i
      ensures j == i
    {
      UnionHead(fields, j);
    }
  }

  /** Decoding leaves it so in every scalar field without a record. */
  lemma WithoutRecordDefault(fields: seq<Field>, bs: seq<Byte>, i: nat)
    requires i < |fields| && ScalarField(fields[i]) && !fields[i].htype.OneOf?
    requires Decode(fields, bs).Ok? && fields[i].tag !in RecordTags(fields, Start(Defaults(fields)), bs)
    ensures |Decode(fields, bs).value| == |fields| && HoldsInitial(fields[i], Decode(fields, bs).value[i])
  {
    hide RunRecords, RecordTags, DefaultSlot, HoldsInitial, Untouched;
    var start := Start(Defaults(fields));
    OwnSlot(fields, i, RecordTags(fields, start, bs));
    RunKeepsShape(fields, start, bs);
    UntouchedSlotStays(fields, start, bs, i);
    DefaultIsInitial(fields[i]);
  }

  lemma {:induction false} RunKeepsShape(fields: seq<Field>, s: State, bs: seq<Byte>)
    requires RunRecords(fields, s, bs).Done?
    ensures |RunRecords(fields, s, bs).state.slots| == |s.slots|
    decreases |bs|
  {
    hide DecodeField, DecodeTag;
    if bs != [] && DecodeTag(bs).Record? {
      var t := DecodeTag(bs);
      var p := DecodeRecord(fields, s, t.tag, t.wire, t.rest);
      if Lookup(fields, t.tag).Some? {
        RecordIsLocal(fields, s, Lookup(fields, t.tag).value, t.wire, t.rest);
      }
      RunKeepsShape(fields, p.value, p.rest);
    }
  }

  /** A union without a record of any member is unset. */
  lemma WithoutRecordUnset(fields: seq<Field>, bs: seq<Byte>, k: nat)
    requires k < |fields| && fields[k].htype.OneOf? && SlotOf(fields, k) == k && Decode(fields, bs).Ok?
    requires Untouched(fields, k, RecordTags(fields, Start(Defaults(fields)), bs))
    ensures |Decode(fields, bs).value| == |fields| && Decode(fields, bs).value[k] == Union(0, Num(0))
  {
    var start := Start(Defaults(fields));
    RunKeepsShape(fields, start, bs);
    UntouchedSlotStays(fields, start, bs, k);
    hide RunRecords, RecordTags, SlotOf;
  }
}

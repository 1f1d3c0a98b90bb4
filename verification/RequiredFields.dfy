/** Which messages the required-field check of pb_decode.c accepts, in terms of the records in the
    input rather than of the bitmap. */
module RequiredFields {
  import opened Words
  import V = Varint
  import opened Descriptor
  import opened Decoding
  import opened Encoding
  import opened Concatenation

  /** Tags of the records a run decodes or skips, up to a zero tag word. */
  function RecordTags(fields: seq<Field>, s: State, bs: seq<Byte>): set<nat>
    decreases |bs|
  {
    if bs == [] then {}
    else match DecodeTag(bs)
      case BadTag => {}
      case EndOfMessage(_) => {}
      case Record(tag, wire, rest) =>
        match DecodeRecord(fields, s, tag, wire, rest)
        case Fail => {}
        case Ok(s', rest') => {tag} + RecordTags(fields, s', rest')
  }

  /** A record marks its own field and no other. */
  lemma RecordMarks(fields: seq<Field>, s: State, tag: nat, wire: nat, bs: seq<Byte>, i: nat)
    requires DistinctTags(fields) && i < |fields| && fields[i].htype.Required? && !fields[i].ltype.Extension?
    requires RequiredBefore(fields, i) < PB_MAX_REQUIRED_FIELDS && DecodeRecord(fields, s, tag, wire, bs).Ok?
    ensures RequiredBefore(fields, i) in DecodeRecord(fields, s, tag, wire, bs).value.seen
            <==> RequiredBefore(fields, i) in s.seen || tag == fields[i].tag
  {
    hide DecodeStatic, SkipField, V.DecodeVarint32, SlotOf;
    match Lookup(fields, tag)
    case None =>
    case Some(j) =>
      assert DecodeRecord(fields, s, tag, wire, bs) == DecodeField(fields, s, j, wire, bs);
      if j < i && fields[j].htype.Required? {
        RequiredGrows(fields, j, i);
      } else if i < j {
        RequiredGrows(fields, i, j);
      }
  }

  lemma {:induction false} RunMarks(fields: seq<Field>, s: State, bs: seq<Byte>, i: nat)
    requires DistinctTags(fields) && i < |fields| && fields[i].htype.Required? && !fields[i].ltype.Extension?
    requires RequiredBefore(fields, i) < PB_MAX_REQUIRED_FIELDS && RunRecords(fields, s, bs).Done?
    ensures RequiredBefore(fields, i) in RunRecords(fields, s, bs).state.seen
            <==> RequiredBefore(fields, i) in s.seen || fields[i].tag in RecordTags(fields, s, bs)
    decreases |bs|
  {
    hide DecodeRecord, DecodeTag;
    if bs != [] && DecodeTag(bs).Record? {
      var t := DecodeTag(bs);
      var p := DecodeRecord(fields, s, t.tag, t.wire, t.rest);
      RecordMarks(fields, s, t.tag, t.wire, t.rest, i);
      RunMarks(fields, p.value, p.rest, i);
    }
  }

  /** Every index below the count belongs to some required field. */
  lemma {:induction false} RequiredAt(fields: seq<Field>, k: nat, n: nat) returns (i: nat)
    requires n <= |fields| && k < RequiredBefore(fields, n)
    ensures i < n && fields[i].htype.Required? && RequiredBefore(fields, i) == k
    decreases n
  {
    if k < RequiredBefore(fields, n - 1) {
      i := RequiredAt(fields, k, n - 1);
    } else {
      i := n - 1;
    }
  }

  /** Each of the first 64 required fields has at least one record. */
  predicate AllPresent(fields: seq<Field>, tags: set<nat>) {
    forall i :: 0 <= i < |fields| && CheckedField(fields, i) ==> fields[i].tag in tags
  }

  predicate CheckedField(fields: seq<Field>, i: nat)
    requires i < |fields|
  {
    fields[i].htype.Required? && RequiredBefore(fields, i) < PB_MAX_REQUIRED_FIELDS
  }

  lemma BitmapIsTags(fields: seq<Field>, seen: set<nat>, tags: set<nat>)
    requires forall i :: 0 <= i < |fields| && CheckedField(fields, i) ==>
                           (RequiredBefore(fields, i) in seen <==> fields[i].tag in tags)
    ensures RequiredSeen(fields, seen) <==> AllPresent(fields, tags)
  {
    if RequiredSeen(fields, seen) {
      forall i | 0 <= i < |fields| && CheckedField(fields, i)
        ensures fields[i].tag in tags
      {
        RequiredGrows(fields, i, |fields|);
      }
    }
    if AllPresent(fields, tags) {
      forall k | 0 <= k < RequiredBefore(fields, |fields|) && k < PB_MAX_REQUIRED_FIELDS
        ensures k in seen
      {
        var i := RequiredAt(fields, k, |fields|);
        assert CheckedField(fields, i);
      }
    }
  }

  /** Decoding succeeds exactly when every record does, the last fixed-count array is complete, and
      each of the first 64 required fields has at least one record. */
  lemma RequiredFieldsExact(fields: seq<Field>, slots: seq<Slot>, bs: seq<Byte>)
    requires DistinctTags(fields) && forall i :: 0 <= i < |fields| ==> !fields[i].ltype.Extension?
    ensures DecodeMessage(fields, slots, bs).Ok? <==>
              && RunRecords(fields, Start(slots), bs).Done?
              && FixedDone(fields, RunRecords(fields, Start(slots), bs).state)
              && AllPresent(fields, RecordTags(fields, Start(slots), bs))
  {
    hide RunRecords, RecordTags, RequiredSeen, AllPresent;
    var run := RunRecords(fields, Start(slots), bs);
    if run.Done? {
      var tags := RecordTags(fields, Start(slots), bs);
      forall i | 0 <= i < |fields| && CheckedField(fields, i)
        ensures RequiredBefore(fields, i) in run.state.seen <==> fields[i].tag in tags
      {
        RunMarks(fields, Start(slots), bs, i);
      }
      BitmapIsTags(fields, run.state.seen, tags);
    }
  }

  // ---------------------------------------------------------------- which fields are checked

  /** With at most 64 required fields, a message that decodes has a record of each. */
  lemma FewRequiredAllPresent(fields: seq<Field>, slots: seq<Slot>, bs: seq<Byte>, i: nat)
    requires DistinctTags(fields) && forall k :: 0 <= k < |fields| ==> !fields[k].ltype.Extension?
    requires RequiredBefore(fields, |fields|) <= PB_MAX_REQUIRED_FIELDS
    requires DecodeMessage(fields, slots, bs).Ok? && i < |fields| && fields[i].htype.Required?
    ensures fields[i].tag in RecordTags(fields, Start(slots), bs)
  {
    hide RunRecords, RecordTags;
    RequiredFieldsExact(fields, slots, bs);
    RequiredGrows(fields, i, |fields|);
    assert CheckedField(fields, i);
  }

  /** Field `i` made optional, without a has_ flag. */
  function Relaxed(fields: seq<Field>, i: nat): (r: seq<Field>)
    requires i < |fields|
    ensures |r| == |fields| && forall k :: 0 <= k < |fields| && k != i ==> r[k] == fields[k]
  {
    fields[i := fields[i].(htype := Optional, sizeOffset := 0)]
  }

  lemma {:induction false} RelaxedLookup(fields: seq<Field>, i: nat, tag: nat, k: nat)
    requires i < |fields| && k <= |fields|
    ensures LookupFrom(Relaxed(fields, i), tag, k) == LookupFrom(fields, tag, k)
    decreases |fields| - k
  {
    if k < |fields| {
      RelaxedLookup(fields, i, tag, k + 1);
    }
  }

  lemma {:induction false} RelaxedSlot(fields: seq<Field>, i: nat, k: nat)
    requires i < |fields| && fields[i].htype.Required? && k < |fields|
    ensures SlotOf(Relaxed(fields, i), k) == SlotOf(fields, k)
    decreases k
  {
    if Joins(fields, k) {
      RelaxedSlot(fields, i, k - 1);
    }
  }

  lemma {:induction false} RelaxedCount(fields: seq<Field>, i: nat, k: nat)
    requires i < |fields| && fields[i].htype.Required? && k <= |fields|
    ensures RequiredBefore(fields, k) == RequiredBefore(Relaxed(fields, i), k) + if i < k then 1 else 0
    decreases k
  {
    if k > 0 {
      RelaxedCount(fields, i, k - 1);
    }
  }

  /** Field `k` marks the same indices, since those behind field `i` are beyond the bitmap anyhow. */
  lemma RelaxedMark(fields: seq<Field>, i: nat, k: nat, s: State)
    requires i < |fields| && fields[i].htype.Required? && RequiredBefore(fields, i) >= PB_MAX_REQUIRED_FIELDS
    requires k < |fields|
    ensures MarkSeen(Relaxed(fields, i), s, k) == MarkSeen(fields, s, k)
  {
    RelaxedCount(fields, i, k);
    if i < k {
      RequiredGrows(fields, i, k);
    }
  }

  /** A required field is stored like an optional one without a flag. */
  lemma RelaxedStatic(f: Field, wire: nat, slot: Slot, n: nat, bs: seq<Byte>)
    requires f.htype.Required?
    ensures DecodeStatic(f.(htype := Optional, sizeOffset := 0), wire, slot, n, bs)
            == DecodeStatic(f, wire, slot, n, bs)
  {
    var g := f.(htype := Optional, sizeOffset := 0);
    assert DecodeValue(g, Content(slot), bs) == DecodeValue(f, Content(slot), bs) by {
      assert DecodeScalar(g, bs) == DecodeScalar(f, bs);
    }
    hide DecodeValue;
  }

  lemma RelaxedRecord(fields: seq<Field>, i: nat, s: State, tag: nat, wire: nat, bs: seq<Byte>)
    requires i < |fields| && fields[i].htype.Required? && RequiredBefore(fields, i) >= PB_MAX_REQUIRED_FIELDS
    ensures DecodeRecord(Relaxed(fields, i), s, tag, wire, bs) == DecodeRecord(fields, s, tag, wire, bs)
  {
    RelaxedLookup(fields, i, tag, 0);
    hide DecodeStatic, SkipField, MarkSeen, SlotOf, RequiredBefore;
    match Lookup(fields, tag)
    case None =>
    case Some(k) =>
      var selected := if FixedCount(fields[k]) then SelectFixed(fields, s, k) else Some(s);
      RelaxedSlot(fields, i, k);
      if selected.Some? {
        RelaxedMark(fields, i, k, selected.value);
        var slot := Get(MarkSeen(fields, selected.value, k).slots, SlotOf(fields, k));
        if k == i {
          RelaxedStatic(fields[i], wire, slot, |Items(slot)|, bs);
        }
      }
      RelaxedSelects(fields, i, s, k);
      assert DecodeRecord(Relaxed(fields, i), s, tag, wire, bs) == DecodeField(Relaxed(fields, i), s, k, wire, bs);
      assert DecodeRecord(fields, s, tag, wire, bs) == DecodeField(fields, s, k, wire, bs);
  }

  lemma RelaxedSelects(fields: seq<Field>, i: nat, s: State, k: nat)
    requires i < |fields| && fields[i].htype.Required? && k < |fields|
    ensures FixedDone(Relaxed(fields, i), s) == FixedDone(fields, s)
    ensures FixedCount(Relaxed(fields, i)[k]) == FixedCount(fields[k])
    ensures SelectFixed(Relaxed(fields, i), s, k) == SelectFixed(fields, s, k)
  {
  }

  lemma {:induction false} RelaxedRun(fields: seq<Field>, i: nat, s: State, bs: seq<Byte>)
    requires i < |fields| && fields[i].htype.Required? && RequiredBefore(fields, i) >= PB_MAX_REQUIRED_FIELDS
    ensures RunRecords(Relaxed(fields, i), s, bs) == RunRecords(fields, s, bs)
    decreases |bs|
  {
    hide DecodeRecord, Relaxed;
    if bs != [] && DecodeTag(bs).Record? {
      var t := DecodeTag(bs);
      RelaxedRecord(fields, i, s, t.tag, t.wire, t.rest);
      var p := DecodeRecord(fields, s, t.tag, t.wire, t.rest);
      if p.Ok? {
        RelaxedRun(fields, i, p.value, p.rest);
      }
    }
  }

  /** A required field behind 64 others is not required: decoding is the same, on every input, as if
      it were optional. */
  lemma BeyondLimitIsOptional(fields: seq<Field>, i: nat, slots: seq<Slot>, bs: seq<Byte>)
    requires i < |fields| && fields[i].htype.Required? && RequiredBefore(fields, i) >= PB_MAX_REQUIRED_FIELDS
    ensures DecodeMessage(fields, slots, bs) == DecodeMessage(Relaxed(fields, i), slots, bs)
  {
    RelaxedRun(fields, i, Start(slots), bs);
    RelaxedCount(fields, i, |fields|);
    RequiredGrows(fields, i, |fields|);
    hide RunRecords, RequiredBefore;
    var run := RunRecords(fields, Start(slots), bs);
    if run.Done? {
      RelaxedSelects(fields, i, run.state, i);
      assert RequiredSeen(Relaxed(fields, i), run.state.seen) == RequiredSeen(fields, run.state.seen);
    }
  }

  // ---------------------------------------------------------------- a message without its 65th field

  /** 65 required bools with the tags 1 to 65. */
  function ManyRequired(): (fields: seq<Field>)
    ensures |fields| == 65
    ensures forall i :: 0 <= i < 65 ==> fields[i] == Field(i + 1, Static, HType.Required, Bool, 0, 0, 1, 0, [], None)
  {
    seq(65, i requires 0 <= i < 65 => Field(i + 1, Static, HType.Required, Bool, 0, 0, 1, 0, [], None))
  }

  /** Records of the fields from `k` on, without the last. */
  function AllButLast(k: nat): seq<Byte>
    requires k <= 64
    decreases 64 - k
  {
    if k == 64 then [] else EncodeTag(WT_VARINT, k + 1) + [1] + AllButLast(k + 1)
  }

  lemma {:induction false} EveryFieldCounts(k: nat)
    requires k <= 65
    ensures RequiredBefore(ManyRequired(), k) == k
    decreases k
  {
    if k > 0 {
      EveryFieldCounts(k - 1);
    }
  }

  lemma BoolStored(s: State, k: nat, rest: seq<Byte>)
    requires k < 64
    ensures DecodeField(ManyRequired(), s, k, WT_VARINT, [1] + rest)
            == Ok(s.(seen := s.seen + {k}, slots := Put(s.slots, k, Single(Num(1)))), rest)
  {
    hide ManyRequired;
    EveryFieldCounts(k);
    var bs := [1] + rest;
    assert bs[0] == 1 && bs[1..] == rest;
    assert V.DecodeVarint32(bs) == Ok(1, rest);
    var f := ManyRequired()[k];
    assert SlotOf(ManyRequired(), k) == k;
    hide V.DecodeVarint32, RequiredBefore, SlotOf;
    assert DecodeValue(f, Content(Get(s.slots, k)), bs) == Ok(Num(1), rest);
    hide DecodeValue;
    assert MarkSeen(ManyRequired(), s, k) == s.(seen := s.seen + {k});
  }

  /** The first `n` required fields have been seen, and no fixed-count array. */
  predicate SeenFirst(s: State, n: nat) {
    s.fixed == None && forall r :: 0 <= r < n ==> r in s.seen
  }

  lemma NothingLeft(s: State)
    ensures RunRecords(ManyRequired(), s, []) == Done(s, [], false) && RecordTags(ManyRequired(), s, []) == {}
  {
  }

  lemma {:induction false} AllButLastRuns(s: State, k: nat)
    requires k <= 64 && SeenFirst(s, k)
    ensures var run := RunRecords(ManyRequired(), s, AllButLast(k)); run.Done? && SeenFirst(run.state, 64)
    ensures 65 !in RecordTags(ManyRequired(), s, AllButLast(k))
    decreases 64 - k
  {
    hide RunRecords, RecordTags, ManyRequired;
    if k == 64 {
      assert AllButLast(k) == [];
      NothingLeft(s);
    } else {
      hide AllButLast;
      var s' := s.(seen := s.seen + {k}, slots := Put(s.slots, k, Single(Num(1))));
      assert SeenFirst(s', k + 1);
      hide SeenFirst;
      AllButLastStep(s, k);
      AllButLastRuns(s', k + 1);
    }
  }

  lemma AllButLastStep(s: State, k: nat)
    requires k < 64
    ensures var s' := s.(seen := s.seen + {k}, slots := Put(s.slots, k, Single(Num(1))));
            && RunRecords(ManyRequired(), s, AllButLast(k)) == RunRecords(ManyRequired(), s', AllButLast(k + 1))
            && RecordTags(ManyRequired(), s, AllButLast(k))
               == {k + 1} + RecordTags(ManyRequired(), s', AllButLast(k + 1))
  {
    var fields, more := ManyRequired(), AllButLast(k + 1);
    assert EncodeTag(WT_VARINT, k + 1) + [1] + more == AllButLast(k);
    hide RunRecords, RecordTags, DecodeField, EncodeTag, AllButLast, ManyRequired;
    BoolStored(s, k, more);
    OneRecord(fields, s, k, WT_VARINT, [1], more);
    OneRecordTag(fields, s, k, WT_VARINT, [1], more);
  }

  /** The tag of a record that decodes is among the tags of the run. */
  lemma OneRecordTag(fields: seq<Field>, s: State, i: nat, wire: nat, payload: seq<Byte>, tail: seq<Byte>)
    requires DistinctTags(fields) && i < |fields| && !fields[i].ltype.Extension?
    requires 0 < fields[i].tag < TWO32 / 8 && wire < 8 && DecodeField(fields, s, i, wire, payload + tail).Ok?
    ensures var p := DecodeField(fields, s, i, wire, payload + tail);
            RecordTags(fields, s, EncodeTag(wire, fields[i].tag) + payload + tail)
            == {fields[i].tag} + RecordTags(fields, p.value, p.rest)
  {
    hide V.DecodeVarint32, V.EncodeVarint;
    var tag := fields[i].tag;
    var bs := EncodeTag(wire, tag) + payload + tail;
    assert bs == EncodeTag(wire, tag) + (payload + tail);
    V.Varint32RoundTrip(tag * 8 + wire, payload + tail);
    assert DecodeTag(bs) == Record(tag, wire, payload + tail);
    LookupUnique(fields, i);
    hide DecodeField, DecodeTag;
  }

  /** A message that decodes although its last required field has no record. */
  lemma LastRequiredUnchecked(slots: seq<Slot>)
    ensures DecodeMessage(ManyRequired(), slots, AllButLast(0)).Ok?
    ensures ManyRequired()[64].htype.Required?
    ensures ManyRequired()[64].tag !in RecordTags(ManyRequired(), Start(slots), AllButLast(0))
  {
    hide RunRecords, RecordTags, AllButLast;
    AllButLastRuns(Start(slots), 0);
    EveryFieldCounts(65);
  }
}

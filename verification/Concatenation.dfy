/** Decoding a concatenation is merging ("Last One Wins" in the Protocol Buffers encoding guide),
    and unknown records are transparent wherever they stand. */
module Concatenation {
  import opened Words
  import V = Varint
  import opened Descriptor
  import opened Decoding
  import opened Encoding

  // ---------------------------------------------------------------- readers stop where they stopped

  lemma ReadBytesExtends(n: nat, a: seq<Byte>, b: seq<Byte>)
    requires ReadBytes(n, a).Ok?
    ensures ReadBytes(n, a + b) == Ok(ReadBytes(n, a).value, ReadBytes(n, a).rest + b)
  {
    assert (a + b)[..n] == a[..n] && (a + b)[n..] == a[n..] + b;
  }

  lemma TakeDelimitedExtends(a: seq<Byte>, b: seq<Byte>)
    requires TakeDelimited(a).Ok?
    ensures TakeDelimited(a + b) == Ok(TakeDelimited(a).value, TakeDelimited(a).rest + b)
  {
    V.DecodeVarint32Extends(a, b);
    var p := V.DecodeVarint32(a);
    ReadBytesExtends(p.value, p.rest, b);
  }

  lemma DecodeTagExtends(a: seq<Byte>, b: seq<Byte>)
    requires a != [] && !DecodeTag(a).BadTag?
    ensures DecodeTag(a + b) == DecodeTag(a).(rest := DecodeTag(a).rest + b)
  {
    V.DecodeVarint32Extends(a, b);
  }

  lemma SkipFieldExtends(wire: nat, a: seq<Byte>, b: seq<Byte>)
    requires SkipField(wire, a).Ok?
    ensures SkipField(wire, a + b) == Ok(SkipField(wire, a).value, SkipField(wire, a).rest + b)
  {
    if wire == WT_VARINT {
      V.GroupLengthExtends(a, b);
      ReadBytesExtends(V.GroupLength(a).value, a, b);
    } else if wire == WT_STRING {
      TakeDelimitedExtends(a, b);
    } else {
      ReadBytesExtends(if wire == WT_64BIT then 8 else 4, a, b);
    }
  }

  lemma ReadPrefixedExtends(a: seq<Byte>, b: seq<Byte>)
    requires V.DecodeVarint32(a).Ok?
    ensures var p := V.DecodeVarint32(a);
            V.DecodeVarint32(a + b) == Ok(p.value, p.rest + b)
            && (ReadBytes(p.value, p.rest).Ok? ==>
                  ReadBytes(p.value, p.rest + b)
                  == Ok(ReadBytes(p.value, p.rest).value, ReadBytes(p.value, p.rest).rest + b))
  {
    V.DecodeVarint32Extends(a, b);
    var p := V.DecodeVarint32(a);
    if ReadBytes(p.value, p.rest).Ok? {
      ReadBytesExtends(p.value, p.rest, b);
    }
  }

  lemma DecodeScalarExtends(f: Field, a: seq<Byte>, b: seq<Byte>)
    requires DecodeScalar(f, a).Ok?
    ensures DecodeScalar(f, a + b) == Ok(DecodeScalar(f, a).value, DecodeScalar(f, a).rest + b)
  {
    match f.ltype
    case Varint => V.DecodeVarintExtends(a, b);
    case UVarint => V.DecodeVarintExtends(a, b);
    case SVarint => V.DecodeVarintExtends(a, b);
    case Fixed32 => ReadBytesExtends(4, a, b);
    case Fixed64 => ReadBytesExtends(8, a, b);
    case Bool => V.DecodeVarint32Extends(a, b);
    case Bytes => ReadPrefixedExtends(a, b);
    case Text => ReadPrefixedExtends(a, b);
    case FixedBytes => ReadPrefixedExtends(a, b);
  }

  lemma DecodeValueExtends(f: Field, into: Value, a: seq<Byte>, b: seq<Byte>)
    requires DecodeValue(f, into, a).Ok?
    ensures DecodeValue(f, into, a + b) == Ok(DecodeValue(f, into, a).value, DecodeValue(f, into, a).rest + b)
  {
    if f.ltype.SubMessage? {
      TakeDelimitedExtends(a, b);
    } else {
      DecodeScalarExtends(f, a, b);
    }
  }

  lemma DecodeStaticExtends(f: Field, wire: nat, slot: Slot, n: nat, a: seq<Byte>, b: seq<Byte>)
    requires DecodeStatic(f, wire, slot, n, a).Ok?
    ensures DecodeStatic(f, wire, slot, n, a + b)
            == Ok(DecodeStatic(f, wire, slot, n, a).value, DecodeStatic(f, wire, slot, n, a).rest + b)
  {
    if f.htype.Repeated? && wire == WT_STRING && Packable(f.ltype) {
      TakeDelimitedExtends(a, b);
    } else {
      var into := if f.htype.Repeated? then Num(0)
                  else if f.htype.OneOf? && f.ltype.SubMessage? && Which(slot) != f.tag then Msg(Defaults(f.sub))
                  else Content(slot);
      DecodeValueExtends(f, into, a, b);
    }
  }

  lemma DecodeRecordExtends(fields: seq<Field>, s: State, tag: nat, wire: nat, a: seq<Byte>, b: seq<Byte>)
    requires DecodeRecord(fields, s, tag, wire, a).Ok?
    ensures DecodeRecord(fields, s, tag, wire, a + b)
            == Ok(DecodeRecord(fields, s, tag, wire, a).value, DecodeRecord(fields, s, tag, wire, a).rest + b)
  {
    match Lookup(fields, tag)
    case None =>
      if fields == [] && tag == 0 {
        V.DecodeVarint32Extends(a, b);
      } else {
        SkipFieldExtends(wire, a, b);
      }
    case Some(i) =>
      var f := fields[i];
      var s1 := if FixedCount(f) then SelectFixed(fields, s, i).value else s;
      var s2 := MarkSeen(fields, s1, i);
      var slot := Get(s2.slots, SlotOf(fields, i));
      DecodeStaticExtends(f, wire, slot, if FixedCount(f) then s2.count else |Items(slot)|, a, b);
  }

  /** A run that used all its bytes can be resumed with more. */
  lemma {:induction false} RunResumes(fields: seq<Field>, s: State, a: seq<Byte>, b: seq<Byte>)
    requires RunRecords(fields, s, a).Done? && !RunRecords(fields, s, a).ended
    ensures RunRecords(fields, s, a + b) == RunRecords(fields, RunRecords(fields, s, a).state, b)
    decreases |a|
  {
    if a == [] {
      assert a + b == b;
    } else {
      DecodeTagExtends(a, b);
      var t := DecodeTag(a);
      DecodeRecordExtends(fields, s, t.tag, t.wire, t.rest, b);
      var p := DecodeRecord(fields, s, t.tag, t.wire, t.rest);
      RunResumes(fields, p.value, p.rest, b);
    }
  }

  /** A run that met a zero tag word ignores whatever follows it. */
  lemma {:induction false} RunEnds(fields: seq<Field>, s: State, a: seq<Byte>, b: seq<Byte>)
    requires RunRecords(fields, s, a).Done? && RunRecords(fields, s, a).ended
    ensures RunRecords(fields, s, a + b) == RunRecords(fields, s, a).(rest := RunRecords(fields, s, a).rest + b)
    decreases |a|
  {
    DecodeTagExtends(a, b);
    var t := DecodeTag(a);
    if t.Record? {
      DecodeRecordExtends(fields, s, t.tag, t.wire, t.rest, b);
      var p := DecodeRecord(fields, s, t.tag, t.wire, t.rest);
      RunEnds(fields, p.value, p.rest, b);
    }
  }

  // ---------------------------------------------------------------- what the struct depends on

  lemma RecordIgnoresSeen(fields: seq<Field>, s: State, extra: set<nat>, tag: nat, wire: nat, bs: seq<Byte>)
    ensures var r := DecodeRecord(fields, s, tag, wire, bs);
            DecodeRecord(fields, s.(seen := s.seen + extra), tag, wire, bs)
            == if r.Ok? then Ok(r.value.(seen := r.value.seen + extra), r.rest) else Fail
  {
    match Lookup(fields, tag)
    case None =>
    case Some(i) =>
      var k := {RequiredBefore(fields, i)};
      assert s.seen + extra + k == s.seen + k + extra;
      var f := fields[i];
      var selected := if FixedCount(f) then SelectFixed(fields, s, i) else Some(s);
      if selected.Some? {
        var s2 := MarkSeen(fields, selected.value, i);
        var slot := Get(s2.slots, SlotOf(fields, i));
        var p := DecodeStatic(f, wire, slot, if FixedCount(f) then s2.count else |Items(slot)|, bs);
      }
  }

  /** The fields seen so far never influence what is stored. */
  lemma {:induction false} SeenOnlyAccumulates(fields: seq<Field>, s: State, extra: set<nat>, bs: seq<Byte>)
    ensures var r := RunRecords(fields, s, bs);
            RunRecords(fields, s.(seen := s.seen + extra), bs)
            == if r.Done? then r.(state := r.state.(seen := r.state.seen + extra)) else r
    decreases |bs|
  {
    if bs != [] && DecodeTag(bs).Record? {
      var t := DecodeTag(bs);
      RecordIgnoresSeen(fields, s, extra, t.tag, t.wire, t.rest);
      var p := DecodeRecord(fields, s, t.tag, t.wire, t.rest);
      if p.Ok? {
        SeenOnlyAccumulates(fields, p.value, extra, p.rest);
      }
    }
  }

  /** The bytes are used up record by record, without a zero tag word. */
  predicate ReadsToEnd(fields: seq<Field>, slots: seq<Slot>, bs: seq<Byte>) {
    RunRecords(fields, Start(slots), bs).Done? && !RunRecords(fields, Start(slots), bs).ended
  }

  // ---------------------------------------------------------------- fixed-count arrays

  /** Is this the tag of a fixed-count array? */
  predicate ForFixed(fields: seq<Field>, tag: nat) {
    Lookup(fields, tag).Some? && FixedCount(fields[Lookup(fields, tag).value])
  }

  /** The first fixed-count array with a record in the input. */
  function FirstFixed(fields: seq<Field>, s: State, bs: seq<Byte>): Option<nat>
    decreases |bs|
  {
    if bs == [] then None
    else match DecodeTag(bs)
      case BadTag => None
      case EndOfMessage(_) => None
      case Record(tag, wire, rest) =>
        if ForFixed(fields, tag) then Lookup(fields, tag)
        else match DecodeRecord(fields, s, tag, wire, rest)
          case Fail => None
          case Ok(s', rest') => FirstFixed(fields, s', rest')
  }

  /** Does the input go on with the array that `s` has just completed? */
  predicate GoesOnWith(fields: seq<Field>, s: State, bs: seq<Byte>) {
    && s.fixed.Some? && s.fixed.value < |fields| && fields[s.fixed.value].arraySize > 0
    && FirstFixed(fields, Blank(s), bs) == s.fixed
  }

  /** The same struct with no array begun. */
  function Blank(s: State): State {
    s.(fixed := None, count := 0)
  }

  /** Records of other fields neither read nor write the state of the array being filled. */
  lemma RecordIgnoresFixed(fields: seq<Field>, s: State, fixed: Option<nat>, count: nat,
                           tag: nat, wire: nat, bs: seq<Byte>)
    requires !ForFixed(fields, tag)
    ensures var r := DecodeRecord(fields, s, tag, wire, bs);
            && (r.Ok? ==> r.value.fixed == s.fixed && r.value.count == s.count)
            && DecodeRecord(fields, s.(fixed := fixed, count := count), tag, wire, bs)
               == if r.Ok? then Ok(r.value.(fixed := fixed, count := count), r.rest) else Fail
  {
    hide DecodeStatic, SkipField, SlotOf;
    match Lookup(fields, tag)
    case None =>
    case Some(i) =>
      var other := s.(fixed := fixed, count := count);
      assert DecodeRecord(fields, s, tag, wire, bs) == DecodeField(fields, s, i, wire, bs);
      assert DecodeRecord(fields, other, tag, wire, bs) == DecodeField(fields, other, i, wire, bs);
      assert MarkSeen(fields, other, i) == MarkSeen(fields, s, i).(fixed := fixed, count := count);
  }

  /** Two runs end alike but for which complete array they last filled. */
  predicate EndAlike(fields: seq<Field>, r: Run, r': Run) {
    if r.Broken? then r'.Broken?
    else r'.Done? && r'.rest == r.rest && r'.ended == r.ended && Blank(r'.state) == Blank(r.state)
         && FixedDone(fields, r'.state) == FixedDone(fields, r.state)
  }

  /** A completed array is forgotten, unless the input goes on with it. */
  lemma {:induction false} CompletedIsForgotten(fields: seq<Field>, s: State, bs: seq<Byte>)
    requires FixedDone(fields, s) && (s.fixed.Some? ==> s.fixed.value < |fields|) && !GoesOnWith(fields, s, bs)
    ensures EndAlike(fields, RunRecords(fields, Blank(s), bs), RunRecords(fields, s, bs))
    decreases |bs|
  {
    hide DecodeRecord;
    if bs != [] && DecodeTag(bs).Record? {
      var t := DecodeTag(bs);
      if ForFixed(fields, t.tag) {
        FreshStart(fields, s, t.tag, t.wire, t.rest);
      } else {
        RecordIgnoresFixed(fields, Blank(s), s.fixed, s.count, t.tag, t.wire, t.rest);
        var p := DecodeRecord(fields, Blank(s), t.tag, t.wire, t.rest);
        if p.Ok? {
          var s' := p.value.(fixed := s.fixed, count := s.count);
          assert Blank(s') == p.value && Blank(s).(fixed := s.fixed, count := s.count) == s;
          CompletedIsForgotten(fields, s', p.rest);
        } else {
          assert Blank(s).(fixed := s.fixed, count := s.count) == s;
        }
      }
    }
  }

  /** A record of another array, or of one that holds nothing, starts afresh. */
  lemma FreshStart(fields: seq<Field>, s: State, tag: nat, wire: nat, bs: seq<Byte>)
    requires FixedDone(fields, s) && ForFixed(fields, tag)
    requires s.fixed == Lookup(fields, tag) ==> fields[s.fixed.value].arraySize == 0
    ensures DecodeRecord(fields, s, tag, wire, bs) == DecodeRecord(fields, Blank(s), tag, wire, bs)
  {
    hide DecodeStatic, SlotOf;
    var i := Lookup(fields, tag).value;
    assert SelectFixed(fields, s, i) == SelectFixed(fields, Blank(s), i);
    assert DecodeRecord(fields, s, tag, wire, bs) == DecodeField(fields, s, i, wire, bs);
    assert DecodeRecord(fields, Blank(s), tag, wire, bs) == DecodeField(fields, Blank(s), i, wire, bs);
  }

  /** The same state with array `i` counted as full. */
  function Filled(fields: seq<Field>, s: State, i: nat): State
    requires i < |fields|
  {
    s.(count := fields[i].arraySize)
  }

  /** A full array takes no more elements: a record of it fails, unless it is an empty run. */
  lemma FullArrayRefuses(fields: seq<Field>, s: State, i: nat, wire: nat, bs: seq<Byte>)
    requires i < |fields| && FixedCount(fields[i]) && s.fixed == Some(i)
    requires DecodeField(fields, s, i, wire, bs).Ok?
    ensures var r, full := DecodeField(fields, s, i, wire, bs), DecodeField(fields, Filled(fields, s, i), i, wire, bs);
            full == Fail || (r.value.fixed == Some(i) && r.value.count == s.count
                             && full == Ok(Filled(fields, r.value, i), r.rest))
  {
    hide DecodeValue, DecodeScalar, TakeDelimited, SlotOf;
    assert SelectFixed(fields, s, i) == Some(s);
    assert SelectFixed(fields, Filled(fields, s, i), i) == Some(Filled(fields, s, i));
  }

  /** A run that has to store more elements in array `i` breaks where the array counts as full. */
  lemma {:induction false} FullArrayBreaks(fields: seq<Field>, s: State, i: nat, bs: seq<Byte>)
    requires i < |fields| && FixedCount(fields[i]) && s.fixed == Some(i) && s.count < fields[i].arraySize
    requires RunRecords(fields, s, bs).Done? && FixedDone(fields, RunRecords(fields, s, bs).state)
    ensures RunRecords(fields, Filled(fields, s, i), bs).Broken?
    decreases |bs|
  {
    hide DecodeField;
    var t := DecodeTag(bs);
    var p := DecodeRecord(fields, s, t.tag, t.wire, t.rest);
    if !ForFixed(fields, t.tag) {
      RecordIgnoresFixed(fields, s, Some(i), fields[i].arraySize, t.tag, t.wire, t.rest);
      FullArrayBreaks(fields, p.value, i, p.rest);
    } else {
      var j := Lookup(fields, t.tag).value;
      assert j == i by { OtherArrayWaits(fields, s, j, t.wire, t.rest); }
      FullArrayRefuses(fields, s, i, t.wire, t.rest);
      if DecodeField(fields, Filled(fields, s, i), i, t.wire, t.rest).Ok? {
        FullArrayBreaks(fields, p.value, i, p.rest);
      }
    }
  }

  /** Another array cannot be begun while one is incomplete. */
  lemma OtherArrayWaits(fields: seq<Field>, s: State, j: nat, wire: nat, bs: seq<Byte>)
    requires j < |fields| && FixedCount(fields[j]) && !FixedDone(fields, s)
    ensures DecodeField(fields, s, j, wire, bs).Ok? ==> s.fixed == Some(j)
  {
  }

  /** Going on with a completed array breaks a run that is good from a blank state. */
  lemma {:induction false} GoingOnBreaks(fields: seq<Field>, s: State, bs: seq<Byte>)
    requires FixedDone(fields, s) && GoesOnWith(fields, s, bs) && FixedCount(fields[s.fixed.value])
    requires RunRecords(fields, Blank(s), bs).Done? && FixedDone(fields, RunRecords(fields, Blank(s), bs).state)
    ensures RunRecords(fields, s, bs).Broken?
    decreases |bs|
  {
    hide DecodeRecord;
    var t := DecodeTag(bs);
    if ForFixed(fields, t.tag) {
      var i := s.fixed.value;
      var empty := s.(count := 0);
      FirstRecordCounts(fields, s, t.tag, t.wire, t.rest);
      assert RunRecords(fields, empty, bs) == RunRecords(fields, Blank(s), bs);
      assert Filled(fields, empty, i) == s;
      FullArrayBreaks(fields, empty, i, bs);
    } else {
      RecordIgnoresFixed(fields, Blank(s), s.fixed, s.count, t.tag, t.wire, t.rest);
      var p := DecodeRecord(fields, Blank(s), t.tag, t.wire, t.rest);
      var s' := p.value.(fixed := s.fixed, count := s.count);
      assert Blank(s') == p.value && Blank(s).(fixed := s.fixed, count := s.count) == s;
      GoingOnBreaks(fields, s', p.rest);
    }
  }

  /** From a blank state, the first record of an array counts from zero. */
  lemma FirstRecordCounts(fields: seq<Field>, s: State, tag: nat, wire: nat, bs: seq<Byte>)
    requires ForFixed(fields, tag) && s.fixed == Lookup(fields, tag)
    ensures DecodeRecord(fields, s.(count := 0), tag, wire, bs) == DecodeRecord(fields, Blank(s), tag, wire, bs)
  {
    hide DecodeStatic, SlotOf;
    var i := Lookup(fields, tag).value;
    var empty := s.(count := 0);
    assert SelectFixed(fields, empty, i) == SelectFixed(fields, Blank(s), i) == Some(empty);
    assert DecodeRecord(fields, empty, tag, wire, bs) == DecodeField(fields, empty, i, wire, bs);
    assert DecodeRecord(fields, Blank(s), tag, wire, bs) == DecodeField(fields, Blank(s), i, wire, bs);
  }

  /** The array a run last filled is one with a fixed count. */
  lemma {:induction false} FilledIsFixed(fields: seq<Field>, s: State, bs: seq<Byte>)
    requires s.fixed.Some? ==> s.fixed.value < |fields| && FixedCount(fields[s.fixed.value])
    requires RunRecords(fields, s, bs).Done?
    ensures var fixed := RunRecords(fields, s, bs).state.fixed;
            fixed.Some? ==> fixed.value < |fields| && FixedCount(fields[fixed.value])
    decreases |bs|
  {
    hide DecodeStatic, SkipField, SlotOf;
    if bs != [] && DecodeTag(bs).Record? {
      var t := DecodeTag(bs);
      var p := DecodeRecord(fields, s, t.tag, t.wire, t.rest);
      if Lookup(fields, t.tag).Some? {
        assert p == DecodeField(fields, s, Lookup(fields, t.tag).value, t.wire, t.rest);
      }
      FilledIsFixed(fields, p.value, p.rest);
    }
  }

  // ---------------------------------------------------------------- the merge

  /** `b` decoded into what a message left behind, whatever required fields it repeats. */
  function Merged(fields: seq<Field>, first: seq<Slot>, b: seq<Byte>): Parse<seq<Slot>> {
    match RunRecords(fields, Start(first), b)
    case Broken => Fail
    case Done(s, rest, _) => if FixedDone(fields, s) then Ok(s.slots, rest) else Fail
  }

  /** Decoding `a ++ b` is decoding `b` into what `a` left behind, unless `b` goes on with the
      fixed-count array that `a` has just completed; if it does, and would decode by itself, `a ++ b`
      does not decode. Required fields missing from `b` were already seen in `a`. */
  lemma ConcatenationIsMerge(fields: seq<Field>, slots: seq<Slot>, a: seq<Byte>, b: seq<Byte>)
    requires DecodeMessage(fields, slots, a).Ok? && ReadsToEnd(fields, slots, a)
    ensures var left := RunRecords(fields, Start(slots), a).state;
            var both, merged := DecodeMessage(fields, slots, a + b), Merged(fields, left.slots, b);
            && DecodeMessage(fields, slots, a).value == left.slots
            && (!GoesOnWith(fields, left, b) ==> both == merged)
            && (merged.Ok? ==> (both == merged <==> !GoesOnWith(fields, left, b)))
            && (merged.Ok? && GoesOnWith(fields, left, b) ==> both == Fail)
            && (DecodeMessage(fields, left.slots, b).Ok? ==> DecodeMessage(fields, left.slots, b) == merged)
  {
    hide RunRecords;
    var s1 := RunRecords(fields, Start(slots), a).state;
    RunResumes(fields, Start(slots), a, b);
    FilledIsFixed(fields, Start(slots), a);
    BlankIsStart(fields, s1, b);
    if GoesOnWith(fields, s1, b) {
      if Merged(fields, s1.slots, b).Ok? {
        GoingOnBreaks(fields, s1, b);
      }
    } else {
      CompletedIsForgotten(fields, s1, b);
    }
  }

  /** A blank state differs from a fresh one only in the required fields seen. */
  lemma BlankIsStart(fields: seq<Field>, s: State, bs: seq<Byte>)
    ensures var r, clean := RunRecords(fields, Blank(s), bs), RunRecords(fields, Start(s.slots), bs);
            r == if clean.Done? then clean.(state := clean.state.(seen := clean.state.seen + s.seen)) else clean
  {
    var start := Start(s.slots);
    assert Blank(s) == start.(seen := start.seen + s.seen);
    SeenOnlyAccumulates(fields, start, s.seen, bs);
  }

  /** One record of a fixed-count array of one bool, its value true: the first fills the array and
      a second is too much. */
  lemma BoolRecord(fields: seq<Field>, s: State, rest: seq<Byte>)
    requires fields == [Field(1, Static, Repeated, Bool, 0, 0, 1, 1, [], None)]
    requires s.slots == [Many([])] || s.slots == [Many([Num(1)])]
    ensures s.fixed == None ==>
              RunRecords(fields, s, [8, 1] + rest)
              == RunRecords(fields, State([Many([Num(1)])], s.seen, Some(0), 1), rest)
    ensures s.fixed == Some(0) && s.count == 1 ==> RunRecords(fields, s, [8, 1] + rest) == Broken
  {
    var bs := [8, 1] + rest;
    var payload := [1] + rest;
    assert bs[1..] == payload && payload[1..] == rest;
    assert DecodeTag(bs) == Record(1, WT_VARINT, payload) && V.DecodeVarint32(payload) == Ok(1, rest);
    assert Lookup(fields, 1) == Some(0);
    hide V.DecodeVarint32, DecodeTag, Lookup;
    assert DecodeValue(fields[0], Num(0), payload) == Ok(Num(1), rest);
    assert PutItem([], 0, Num(1)) == [Num(1)] && PutItem([Num(1)], 0, Num(1)) == [Num(1)];
    assert Put(s.slots, 0, Many([Num(1)])) == [Many([Num(1)])];
    hide DecodeValue;
    var field := DecodeField(fields, s, 0, WT_VARINT, payload);
    if s.fixed == None {
      assert DecodeStatic(fields[0], WT_VARINT, s.slots[0], 0, payload) == Ok((Many([Num(1)]), 1), rest);
      assert field == Ok(State([Many([Num(1)])], s.seen, Some(0), 1), rest);
    } else if s.fixed == Some(0) && s.count == 1 {
      assert DecodeStatic(fields[0], WT_VARINT, s.slots[0], 1, payload) == Fail;
      assert SelectFixed(fields, s, 0) == Some(s) && field == Fail;
    }
    assert RunRecords(fields, s, bs)
           == match field case Fail => Broken case Ok(s', rest') => RunRecords(fields, s', rest');
  }

  /** Such an input: a fixed-count array is counted afresh by each decode, so an array sent in both
      halves is too long for the whole. */
  lemma FixedCountsDoNotMerge(fields: seq<Field>, a: seq<Byte>)
    requires fields == [Field(1, Static, Repeated, Bool, 0, 0, 1, 1, [], None)] && a == [8, 1]
    ensures ReadsToEnd(fields, [Many([])], a)
    ensures DecodeMessage(fields, [Many([])], a) == Ok([Many([Num(1)])], [])
    ensures DecodeMessage(fields, [Many([Num(1)])], a) == Ok([Many([Num(1)])], [])
    ensures DecodeMessage(fields, [Many([])], a + a) == Fail
  {
    hide DecodeRecord, DecodeTag;
    assert [8, 1] + [] == a && a + a == [8, 1] + a;
    BoolRecord(fields, Start([Many([])]), []);
    BoolRecord(fields, Start([Many([Num(1)])]), []);
    BoolRecord(fields, Start([Many([])]), a);
    BoolRecord(fields, State([Many([Num(1)])], {}, Some(0), 1), []);
  }

  // ---------------------------------------------------------------- one record

  /** Reading the record of field `i` is decoding its payload and going on. */
  lemma OneRecord(fields: seq<Field>, s: State, i: nat, wire: nat, payload: seq<Byte>, tail: seq<Byte>)
    requires DistinctTags(fields) && i < |fields| && !fields[i].ltype.Extension?
    requires 0 < fields[i].tag < TWO32 / 8 && wire < 8
    ensures RunRecords(fields, s, EncodeTag(wire, fields[i].tag) + payload + tail)
            == match DecodeField(fields, s, i, wire, payload + tail)
               case Fail => Broken
               case Ok(s', rest) => RunRecords(fields, s', rest)
  {
    hide V.DecodeVarint32, V.EncodeVarint;
    var tag := fields[i].tag;
    var bs := EncodeTag(wire, tag) + payload + tail;
    assert bs == EncodeTag(wire, tag) + (payload + tail);
    V.Varint32RoundTrip(tag * 8 + wire, payload + tail);
    assert DecodeTag(bs) == Record(tag, wire, payload + tail);
    LookupUnique(fields, i);
  }

  // ---------------------------------------------------------------- split submessages

  lemma TakeDelimit(body: seq<Byte>, tail: seq<Byte>)
    requires |body| < TWO32
    ensures TakeDelimited(Delimit(body) + tail) == Ok(body, tail)
  {
    Residue64(|body|, 0, |body|);
    assert Delimit(body) + tail == V.EncodeVarint(|body|) + (body + tail);
    V.Varint32RoundTrip(|body|, body + tail);
    assert (body + tail)[..|body|] == body && (body + tail)[|body|..] == tail;
  }

  /** A singular submessage sent in two pieces decodes like one sent whole, unless the second piece
      goes on with a fixed-count array that the first has just completed. */
  lemma SplitValueMerges(f: Field, into: Value, a: seq<Byte>, b: seq<Byte>, tail: seq<Byte>)
    requires f.ltype.SubMessage? && !f.htype.Repeated? && |a| + |b| < TWO32
    requires DecodeMessage(f.sub, Slots(into), a).Ok? && ReadsToEnd(f.sub, Slots(into), a)
    requires DecodeMessage(f.sub, DecodeMessage(f.sub, Slots(into), a).value, b).Ok?
    ensures var left := RunRecords(f.sub, Start(Slots(into)), a).state;
            && DecodeValue(f, into, Delimit(a) + tail) == Ok(Msg(left.slots), tail)
            && DecodeValue(f, into, Delimit(a + b) + tail)
               == if GoesOnWith(f.sub, left, b) then Fail else DecodeValue(f, Msg(left.slots), Delimit(b) + tail)
  {
    TakeDelimit(a, tail);
    TakeDelimit(b, tail);
    TakeDelimit(a + b, tail);
    ConcatenationIsMerge(f.sub, Slots(into), a, b);
    hide RunRecords, Delimit, TakeDelimited;
  }

  /** The record of a submessage field. */
  function SubmessageRecord(f: Field, body: seq<Byte>): seq<Byte> {
    EncodeTag(WT_STRING, f.tag) + Delimit(body)
  }

  /** What a record of a singular submessage is decoded into: a oneof starts from defaults unless it
      holds this member already. */
  function DecodedInto(f: Field, slot: Slot): seq<Slot> {
    if f.htype.OneOf? && Which(slot) != f.tag then Defaults(f.sub) else Slots(Content(slot))
  }

  function StoredAs(f: Field, v: Value): Slot {
    match f.htype
    case OneOf => Union(f.tag, v)
    case Optional => if f.sizeOffset == 0 then Single(v) else Opt(true, v)
    case _ => Single(v)
  }

  /** The state with a record of field `i` stored. */
  function WithField(fields: seq<Field>, s: State, i: nat, v: Value): State
    requires i < |fields|
  {
    MarkSeen(fields, s, i).(slots := Put(s.slots, SlotOf(fields, i), StoredAs(fields[i], v)))
  }

  /** Such a record stores its message and marks its field. */
  lemma SubmessageStored(fields: seq<Field>, s: State, i: nat, bs: seq<Byte>)
    requires i < |fields| && fields[i].ltype.SubMessage? && !fields[i].htype.Repeated?
    ensures var p := DecodeValue(fields[i], Msg(DecodedInto(fields[i], Get(s.slots, SlotOf(fields, i)))), bs);
            DecodeField(fields, s, i, WT_STRING, bs)
            == if p.Ok? then Ok(WithField(fields, s, i, p.value), p.rest) else Fail
  {
    var f, slot := fields[i], Get(s.slots, SlotOf(fields, i));
    assert DecodeValue(f, Content(slot), bs) == DecodeValue(f, Msg(Slots(Content(slot))), bs);
    hide DecodeValue, SlotOf;
  }

  /** Storing a field twice is storing it the second time. */
  lemma StoredTwice(fields: seq<Field>, s: State, i: nat, v: Value, again: Value)
    requires i < |fields| && |s.slots| == |fields|
    ensures WithField(fields, WithField(fields, s, i, v), i, again) == WithField(fields, s, i, again)
  {
    hide RequiredBefore, StoredAs;
    var k, x, y := SlotOf(fields, i), StoredAs(fields[i], v), StoredAs(fields[i], again);
    assert s.slots[k := x][k := y] == s.slots[k := y];
  }

  /** The second time it is decoded into what the first time left. */
  lemma StoredIsRead(fields: seq<Field>, s: State, i: nat, v: Value)
    requires i < |fields| && |s.slots| == |fields|
    ensures DecodedInto(fields[i], Get(WithField(fields, s, i, v).slots, SlotOf(fields, i))) == Slots(v)
  {
    hide RequiredBefore, SlotOf;
    var slot := StoredAs(fields[i], v);
    assert Get(WithField(fields, s, i, v).slots, SlotOf(fields, i)) == slot;
  }

  /** One record of a submessage field, its body known to decode. */
  lemma SubmessageRead(fields: seq<Field>, s: State, i: nat, body: seq<Byte>, tail: seq<Byte>)
    requires DistinctTags(fields) && i < |fields| && 0 < fields[i].tag < TWO32 / 8
    requires fields[i].ltype.SubMessage? && !fields[i].htype.Repeated?
    ensures var f := fields[i];
            var p := DecodeValue(f, Msg(DecodedInto(f, Get(s.slots, SlotOf(fields, i)))), Delimit(body) + tail);
            RunRecords(fields, s, SubmessageRecord(f, body) + tail)
            == if p.Ok? then RunRecords(fields, WithField(fields, s, i, p.value), p.rest) else Broken
  {
    hide RunRecords, DecodeField, DecodeValue, Delimit, EncodeTag, WithField, DecodedInto, SlotOf;
    OneRecord(fields, s, i, WT_STRING, Delimit(body), tail);
    SubmessageStored(fields, s, i, Delimit(body) + tail);
  }

  /** A singular submessage of any kind may come in two records: they decode like one record of the
      whole, unless the second goes on with a fixed-count array that the first has just completed,
      and then the whole does not decode. */
  lemma SplitSubmessageMerges(fields: seq<Field>, s: State, i: nat, a: seq<Byte>, b: seq<Byte>, tail: seq<Byte>)
    requires DistinctTags(fields) && i < |fields| && 0 < fields[i].tag < TWO32 / 8 && |s.slots| == |fields|
    requires fields[i].ltype.SubMessage? && !fields[i].htype.Repeated? && |a| + |b| < TWO32
    requires var into := DecodedInto(fields[i], Get(s.slots, SlotOf(fields, i)));
             && DecodeMessage(fields[i].sub, into, a).Ok? && ReadsToEnd(fields[i].sub, into, a)
             && DecodeMessage(fields[i].sub, DecodeMessage(fields[i].sub, into, a).value, b).Ok?
    ensures var f := fields[i];
            var left := RunRecords(f.sub, Start(DecodedInto(f, Get(s.slots, SlotOf(fields, i)))), a).state;
            RunRecords(fields, s, SubmessageRecord(f, a + b) + tail)
            == if GoesOnWith(f.sub, left, b) then Broken
               else RunRecords(fields, s, SubmessageRecord(f, a) + (SubmessageRecord(f, b) + tail))
  {
    var f, k := fields[i], SlotOf(fields, i);
    var into := Msg(DecodedInto(f, Get(s.slots, k)));
    var left := RunRecords(f.sub, Start(Slots(into)), a).state;
    var next := SubmessageRecord(f, b) + tail;
    SplitValueMerges(f, into, a, b, tail);
    SplitValueMerges(f, into, a, b, next);
    hide RunRecords, DecodeMessage, DecodeValue, Delimit, SubmessageRecord, GoesOnWith, SlotOf, WithField, DecodedInto;
    SubmessageRead(fields, s, i, a + b, tail);
    SubmessageRead(fields, s, i, a, next);
    SubmessageRead(fields, WithField(fields, s, i, Msg(left.slots)), i, b, tail);
    var second := DecodeValue(f, Msg(left.slots), Delimit(b) + tail);
    StoredIsRead(fields, s, i, Msg(left.slots));
    StoredTwice(fields, s, i, Msg(left.slots), if second.Ok? then second.value else into);
  }

  // ---------------------------------------------------------------- unknown fields

  /** A payload of the given wire type, with the numbers the encoding guide gives these types. */
  ghost predicate Payload(wire: nat, p: seq<Byte>) {
    (wire == 0 && V.IsGroup(p))
    || (wire == 1 && |p| == 8)
    || (wire == 2 && exists body :: |body| < TWO32 && p == Delimit(body))
    || (wire == 5 && |p| == 4)
  }

  lemma SkipsPayload(wire: nat, p: seq<Byte>, tail: seq<Byte>)
    requires Payload(wire, p)
    ensures SkipField(wire, p + tail).Ok? && SkipField(wire, p + tail).rest == tail
  {
    if wire == WT_VARINT {
      V.GroupLengthOf(p, tail);
      assert (p + tail)[..|p|] == p && (p + tail)[|p|..] == tail;
    } else if wire == WT_STRING {
      var body :| |body| < TWO32 && p == Delimit(body);
      TakeDelimit(body, tail);
    } else {
      assert (p + tail)[..|p|] == p && (p + tail)[|p|..] == tail;
    }
  }

  /** A record whose tag no field carries changes nothing, whatever the decoder is in the middle
      of; in particular a half-filled fixed-count array is untouched. */
  lemma UnknownRecordSkipped(fields: seq<Field>, s: State, tag: nat, wire: nat, payload: seq<Byte>, tail: seq<Byte>)
    requires 0 < tag < TWO32 / 8 && Lookup(fields, tag).None? && Payload(wire, payload)
    ensures RunRecords(fields, s, EncodeTag(wire, tag) + payload + tail) == RunRecords(fields, s, tail)
  {
    hide V.DecodeVarint32, V.EncodeVarint;
    var bs := EncodeTag(wire, tag) + payload + tail;
    assert bs == EncodeTag(wire, tag) + (payload + tail);
    V.Varint32RoundTrip(tag * 8 + wire, payload + tail);
    assert DecodeTag(bs) == Record(tag, wire, payload + tail);
    SkipsPayload(wire, payload, tail);
  }

  /** Inserting an unknown record at any record boundary leaves the whole decode unchanged. */
  lemma UnknownFieldsAreTransparent(fields: seq<Field>, slots: seq<Slot>, a: seq<Byte>, b: seq<Byte>,
                                    tag: nat, wire: nat, payload: seq<Byte>)
    requires 0 < tag < TWO32 / 8 && Lookup(fields, tag).None? && Payload(wire, payload)
    requires ReadsToEnd(fields, slots, a)
    ensures DecodeMessage(fields, slots, a + (EncodeTag(wire, tag) + payload + b))
            == DecodeMessage(fields, slots, a + b)
  {
    var s := RunRecords(fields, Start(slots), a).state;
    RunResumes(fields, Start(slots), a, b);
    RunResumes(fields, Start(slots), a, EncodeTag(wire, tag) + payload + b);
    UnknownRecordSkipped(fields, s, tag, wire, payload, b);
  }
}

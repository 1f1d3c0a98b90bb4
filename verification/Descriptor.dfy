/** pb_field_t descriptors and the message structs they describe. A descriptor is the array of
    fields before its zero-tag terminator; a struct is a sequence of slots, one per field. */
module Descriptor {
  import opened Words

  type SizeWidth = w: nat | w == 1 || w == 2 || w == 4 witness 4

  /** sizeof(pb_size_t), fixed by the build. */
  const PB_SIZE_WIDTH: SizeWidth
  const PB_SIZE_MAX: nat := Pow2(8 * PB_SIZE_WIDTH) - 1
  const POINTER_SIZE: nat := 8
  const PB_MAX_REQUIRED_FIELDS: nat := 64

  datatype AType = Static | Pointer | Callback
  datatype HType = Required | Optional | Repeated | OneOf
  datatype LType = Bool | Varint | UVarint | SVarint | Fixed32 | Fixed64
                 | Bytes | Text | SubMessage | Extension | FixedBytes

  /** `sub` is the descriptor behind `ptr` for a submessage, `init` the default behind it
      otherwise. */
  datatype Field = Field(
    tag: nat, atype: AType, htype: HType, ltype: LType,
    dataOffset: nat, sizeOffset: int, dataSize: nat, arraySize: nat,
    sub: seq<Field>, init: Option<Value>)

  /** Contents of one element. Numbers are the C value of the field's type. A Blob holds the first
      bytes of its buffer; if it is shorter than that, a NUL comes next (see ByteAt). */
  datatype Value = Num(n: int) | Blob(bytes: seq<Byte>) | Msg(slots: seq<Slot>)

  /** `Many` holds the defined prefix of an array, `Union` a oneof with its which_ word. A field
      that shares its predecessor's union has no storage of its own. */
  datatype Slot = Single(v: Value) | Opt(has: bool, v: Value) | Many(items: seq<Value>)
                | Union(which: nat, v: Value) | Joined

  predicate Packable(t: LType) {
    t.Bool? || t.Varint? || t.UVarint? || t.SVarint? || t.Fixed32? || t.Fixed64?
  }

  predicate NumericSize(size: nat) {
    size == 1 || size == 2 || size == 4 || size == 8
  }

  predicate FixedCount(f: Field) {
    f.htype.Repeated? && f.sizeOffset == 0
  }

  /** proto3 singular: optional without a has_ flag. */
  predicate Singular(f: Field) {
    f.htype.Optional? && f.sizeOffset == 0
  }

  /** Does field `i` share the union of field `i - 1`? */
  predicate Joins(fields: seq<Field>, i: nat)
    requires i < |fields|
  {
    i > 0 && fields[i - 1].htype.OneOf? && fields[i].htype.OneOf? && fields[i].dataOffset == PB_SIZE_MAX
  }

  /** The field whose slot holds the data of field `i`. */
  function SlotOf(fields: seq<Field>, i: nat): (s: nat)
    requires i < |fields|
    ensures s <= i && !Joins(fields, s)
    ensures forall k :: s < k <= i ==> Joins(fields, k)
  {
    if Joins(fields, i) then SlotOf(fields, i - 1) else i
  }

  /** A shared slot belongs to a oneof; other fields have their own. */
  lemma {:induction false} UnionHead(fields: seq<Field>, k: nat)
    requires k < |fields|
    ensures fields[SlotOf(fields, k)].htype.OneOf? == fields[k].htype.OneOf?
    ensures !fields[k].htype.OneOf? ==> SlotOf(fields, k) == k
    decreases k
  {
    if Joins(fields, k) {
      UnionHead(fields, k - 1);
    }
  }

  /** Number of required fields before position `i`. */
  function RequiredBefore(fields: seq<Field>, i: nat): (n: nat)
    requires i <= |fields|
    ensures n <= i
  {
    if i == 0 then 0
    else RequiredBefore(fields, i - 1) + if fields[i - 1].htype.Required? then 1 else 0
  }

  /** A required field adds to the count of every later position. */
  lemma {:induction false} RequiredGrows(fields: seq<Field>, i: nat, n: nat)
    requires i < n <= |fields| && fields[i].htype.Required?
    ensures RequiredBefore(fields, i) < RequiredBefore(fields, n)
    decreases n
  {
    if i + 1 < n {
      RequiredGrows(fields, i, n - 1);
    }
  }

  predicate Matches(f: Field, tag: nat) {
    f.tag == tag && !f.ltype.Extension?
  }

  /** Position of the first field with this tag. */
  function Lookup(fields: seq<Field>, tag: nat): (r: Option<nat>)
    ensures r.Some? ==> r.value < |fields| && Matches(fields[r.value], tag)
    ensures r.None? ==> forall i :: 0 <= i < |fields| ==> !Matches(fields[i], tag)
  {
    LookupFrom(fields, tag, 0)
  }

  function LookupFrom(fields: seq<Field>, tag: nat, k: nat): (r: Option<nat>)
    requires k <= |fields|
    ensures r.Some? ==> k <= r.value < |fields| && Matches(fields[r.value], tag)
    ensures r.None? ==> forall i :: k <= i < |fields| ==> !Matches(fields[i], tag)
    decreases |fields| - k
  {
    if k == |fields| then None
    else if Matches(fields[k], tag) then Some(k)
    else LookupFrom(fields, tag, k + 1)
  }

  predicate DistinctTags(fields: seq<Field>) {
    forall i, j :: 0 <= i < j < |fields| ==> fields[i].tag != fields[j].tag
  }

  /** Where tags are distinct, a field's tag finds that field. */
  lemma {:induction false} LookupFromUnique(fields: seq<Field>, i: nat, k: nat)
    requires DistinctTags(fields) && k <= i < |fields| && !fields[i].ltype.Extension?
    ensures LookupFrom(fields, fields[i].tag, k) == Some(i)
    decreases i - k
  {
    if k < i {
      LookupFromUnique(fields, i, k + 1);
    }
  }

  lemma LookupUnique(fields: seq<Field>, i: nat)
    requires DistinctTags(fields) && i < |fields| && !fields[i].ltype.Extension?
    ensures Lookup(fields, fields[i].tag) == Some(i)
  {
    LookupFromUnique(fields, i, 0);
  }

  // ---------------------------------------------------------------- reading and writing slots

  /** Every destination has its descriptor's shape; on anything else these read as unset. */
  function Get(slots: seq<Slot>, i: nat): Slot {
    if i < |slots| then slots[i] else Joined
  }

  function Put(slots: seq<Slot>, i: nat, s: Slot): (r: seq<Slot>)
    ensures |r| == |slots|
  {
    if i < |slots| then slots[i := s] else slots
  }

  function Items(s: Slot): seq<Value> {
    if s.Many? then s.items else []
  }

  function Content(s: Slot): Value {
    match s
    case Single(v) => v
    case Opt(_, v) => v
    case Union(_, v) => v
    case _ => Num(0)
  }

  function Which(s: Slot): nat {
    if s.Union? then s.which else 0
  }

  function Has(s: Slot): bool {
    s.Opt? && s.has
  }

  function Slots(v: Value): seq<Slot> {
    if v.Msg? then v.slots else []
  }

  function Number(v: Value): int {
    if v.Num? then v.n else 0
  }

  function Contents(v: Value): seq<Byte> {
    if v.Blob? then v.bytes else []
  }

  /** A byte of the buffer behind a Blob: what the Blob does not hold reads as zero. */
  function ByteAt(b: seq<Byte>, i: nat): Byte {
    if i < |b| then b[i] else 0
  }

  /** Write element `k` of an array whose first `|items|` elements are defined. */
  function PutItem(items: seq<Value>, k: nat, v: Value): seq<Value> {
    if k < |items| then items[k := v] else items + [v]
  }

  // ---------------------------------------------------------------- defaults

  /** pb_message_set_to_defaults: array contents stay undefined, everything else is fixed. */
  function Defaults(fields: seq<Field>): (slots: seq<Slot>)
    ensures |slots| == |fields|
    decreases fields, 1
  {
    seq(|fields|, i requires 0 <= i < |fields| =>
      if Joins(fields, i) then Joined else DefaultSlot(fields[i]))
  }

  function DefaultSlot(f: Field): Slot
    decreases f, 1
  {
    match f.htype
    case Required => Single(DefaultValue(f))
    case Optional => if f.sizeOffset == 0 then Single(DefaultValue(f)) else Opt(false, DefaultValue(f))
    case Repeated => Many([])
    case OneOf => Union(0, Num(0))
  }

  function DefaultValue(f: Field): Value
    decreases f, 0
  {
    if f.ltype.SubMessage? then Msg(Defaults(f.sub))
    else match f.init
      case Some(v) => v
      case None => ZeroValue(f)
  }

  function ZeroValue(f: Field): Value {
    match f.ltype
    case Bytes => Blob([])
    case Text => Blob([])
    case FixedBytes => Blob(Zeros(f.dataSize))
    case _ => Num(0)
  }

  function Zeros(n: nat): (bs: seq<Byte>)
    ensures |bs| == n && forall i :: 0 <= i < n ==> bs[i] == 0
  {
    seq(n, i => 0)
  }

  // ---------------------------------------------------------------- descriptors this model covers

  /** Distinct tags, static allocation throughout, no extensions. */
  ghost predicate Covered(fields: seq<Field>)
    decreases fields
  {
    DistinctTags(fields) && forall i :: 0 <= i < |fields| ==> CoveredField(fields[i])
  }

  ghost predicate CoveredField(f: Field)
    decreases f
  {
    && 0 < f.tag < TWO32
    && f.atype.Static? && !f.ltype.Extension?
    && (f.ltype.SubMessage? ==> Covered(f.sub))
  }
}

/** pb_common.c: the cyclic iterator over a descriptor, moved in place, and the struct layout it
    must agree with. */
module FieldIterator {
  import opened Words
  import opened Descriptor

  // ---------------------------------------------------------------- the layout

  /** Bytes a field occupies in the struct itself. */
  function Extent(f: Field): nat {
    if f.atype.Static? && f.htype.Repeated? then f.dataSize * f.arraySize
    else if f.atype.Pointer? then POINTER_SIZE
    else f.dataSize
  }

  /** Address of field `i` of a struct at `base`: offsets are relative to the end of the previous
      field, and members of a union share one address. */
  function DataAt(fields: seq<Field>, base: int, i: nat): int
    requires i < |fields|
  {
    if i == 0 then base + fields[0].dataOffset
    else if Joins(fields, i) then DataAt(fields, base, i - 1)
    else DataAt(fields, base, i - 1) + Extent(fields[i - 1]) + fields[i].dataOffset
  }

  /** Address of the count, has_ or which_ word of field `i`; one word for a whole union. */
  function SizeAt(fields: seq<Field>, base: int, i: nat): int
    requires i < |fields|
  {
    DataAt(fields, base, i) + fields[SlotOf(fields, i)].sizeOffset
  }

  /** Fields with one slot have one address for their data and one for their size word. */
  lemma {:induction false} SharedSlotSharedAddress(fields: seq<Field>, base: int, i: nat)
    requires i < |fields|
    ensures DataAt(fields, base, i) == DataAt(fields, base, SlotOf(fields, i))
    ensures SizeAt(fields, base, i) == SizeAt(fields, base, SlotOf(fields, i))
    decreases i
  {
    if Joins(fields, i) {
      SharedSlotSharedAddress(fields, base, i - 1);
    }
  }

  /** A field's bytes end before any later field begins, whatever unions lie between them, unless it
      is followed by a member of its own union. */
  lemma {:induction false} SlotsDoNotOverlap(fields: seq<Field>, base: int, i: nat, j: nat)
    requires i < j < |fields| && !Joins(fields, i + 1)
    ensures DataAt(fields, base, i) + Extent(fields[i]) <= DataAt(fields, base, j)
    decreases j
  {
    if j > i + 1 {
      SlotsDoNotOverlap(fields, base, i, j - 1);
    }
  }

  /** A member of the C struct: offsetof, sizeof, and the offset of its count, has_ or which_ word. */
  datatype Member = Member(offset: nat, size: nat, companion: Option<nat>)
  datatype Placement = First | Other | InUnion

  /** What the PB_FIELD macros make of member `i`. A union's members share their offset and their
      which_ word, and padding is less than the mark PB_SIZE_MAX of a shared union. */
  predicate Describes(fields: seq<Field>, members: seq<Member>, placements: seq<Placement>, i: nat)
    requires i < |fields| == |members| == |placements|
  {
    var f, m := fields[i], members[i];
    && Extent(f) == m.size
    && f.sizeOffset == (if m.companion.Some? then m.companion.value - m.offset else 0)
    && (placements[i] == First <==> i == 0)
    && match placements[i]
       case First => f.dataOffset == m.offset
       case Other => f.dataOffset == m.offset - members[i - 1].offset - members[i - 1].size < PB_SIZE_MAX
       case InUnion =>
         && f.dataOffset == PB_SIZE_MAX && f.htype.OneOf? && fields[i - 1].htype.OneOf?
         && m.offset == members[i - 1].offset && m.companion == members[i - 1].companion
  }

  /** On a descriptor built by the macros the iterator's pointers are the members' own addresses. */
  lemma {:induction false} PointersAreMembers(fields: seq<Field>, members: seq<Member>, placements: seq<Placement>,
                                              base: int, i: nat)
    requires i < |fields| == |members| == |placements|
    requires forall k :: 0 <= k < |fields| ==> Describes(fields, members, placements, k)
    ensures DataAt(fields, base, i) == base + members[i].offset
    ensures SizeAt(fields, base, i) == base + members[i].companion.GetOr(members[i].offset)
    decreases i
  {
    assert Describes(fields, members, placements, i);
    if i > 0 {
      PointersAreMembers(fields, members, placements, base, i - 1);
      assert Describes(fields, members, placements, i - 1);
    }
  }

  // ---------------------------------------------------------------- the iterator

  /** Where the size pointer points: into the struct, or at the decoder's own counter. */
  datatype SizePointer = InStruct(address: int) | LocalCounter

  class FieldIter {
    const fields: seq<Field>
    const base: int
    var pos: nat
    var requiredIndex: nat
    var pData: int
    var pSize: SizePointer
    /** The struct behind dest_struct. */
    var dest: seq<Slot>

    ghost predicate Valid()
      reads this
    {
      && (forall i :: 0 <= i < |fields| ==> fields[i].tag != 0)
      && (if |fields| == 0 then pos == 0 && requiredIndex == 0 && pData == base
          else pos < |fields| && requiredIndex == RequiredBefore(fields, pos) && pData == DataAt(fields, base, pos))
    }

    /** What the size pointer must be when nobody has redirected it. */
    ghost function OwnSize(): SizePointer
      reads this
    {
      InStruct(if pos < |fields| then SizeAt(fields, base, pos) else base)
    }

    /** Every pointer is a function of the position. */
    ghost predicate Canonical()
      reads this
    {
      Valid() && pSize == OwnSize()
    }

    /** The tag at a position; the array ends in a zero tag. */
    function TagAt(i: nat): nat {
      if i < |fields| then fields[i].tag else 0
    }

    constructor (fields: seq<Field>, base: int, dest: seq<Slot>)
      requires forall i :: 0 <= i < |fields| ==> fields[i].tag != 0
      ensures this.fields == fields && this.base == base && this.dest == dest
      ensures Canonical() && pos == 0
    {
      this.fields := fields;
      this.base := base;
      this.dest := dest;
      pos := 0;
      requiredIndex := 0;
      pData := base + if |fields| > 0 then fields[0].dataOffset else 0;
      pSize := InStruct(base + if |fields| > 0 then fields[0].dataOffset + fields[0].sizeOffset else 0);
    }

    method Begin() returns (more: bool)
      requires forall i :: 0 <= i < |fields| ==> fields[i].tag != 0
      modifies this`pos, this`requiredIndex, this`pData, this`pSize
      ensures Canonical() && pos == 0 && more == (|fields| > 0)
    {
      pos := 0;
      requiredIndex := 0;
      pData := base + if |fields| > 0 then fields[0].dataOffset else 0;
      pSize := InStruct(pData + if |fields| > 0 then fields[0].sizeOffset else 0);
      return TagAt(pos) != 0;
    }

    /** One step round the cycle; false on wrapping to the start. A redirected size pointer is
        restored by any step that moves. */
    method Next() returns (more: bool)
      requires Valid() && (pSize != OwnSize() ==> pos < |fields| && !fields[pos].htype.OneOf?)
      modifies this`pos, this`requiredIndex, this`pData, this`pSize
      ensures Valid() && (|fields| > 0 ==> Canonical())
      ensures |fields| == 0 ==> pSize == old(pSize)
      ensures more == (old(pos) + 1 < |fields|)
      ensures pos == if more then old(pos) + 1 else 0
    {
      var prev := pos;
      if TagAt(prev) == 0 {
        return false;
      }
      pos := pos + 1;
      if TagAt(pos) == 0 {
        var _ := Begin();
        return false;
      }
      var prevSize := fields[prev].dataSize;
      if fields[prev].htype.OneOf? && fields[pos].htype.OneOf? && fields[pos].dataOffset == PB_SIZE_MAX {
        return true;
      } else if fields[prev].atype.Static? && fields[prev].htype.Repeated? {
        prevSize := prevSize * fields[prev].arraySize;
      } else if fields[prev].atype.Pointer? {
        prevSize := POINTER_SIZE;
      }
      if fields[prev].htype.Required? {
        requiredIndex := requiredIndex + 1;
      }
      pData := pData + prevSize + fields[pos].dataOffset;
      pSize := InStruct(pData + fields[pos].sizeOffset);
      return true;
    }

    /** From any position, a tag is found exactly when some non-extension field carries it (the
        terminator of an empty descriptor carries tag 0); failure comes back to the start. */
    method Find(tag: nat) returns (found: bool)
      requires Valid() && (pSize != OwnSize() ==> pos < |fields| && !fields[pos].htype.OneOf?)
      modifies this`pos, this`requiredIndex, this`pData, this`pSize
      ensures Valid()
      ensures found <==> Lookup(fields, tag).Some? || (|fields| == 0 && tag == 0)
      ensures found && |fields| > 0 ==> Matches(fields[pos], tag)
      ensures !found || |fields| == 0 ==> pos == old(pos)
      ensures if (found && pos == old(pos)) || |fields| == 0 then pSize == old(pSize) else Canonical()
    {
      var start := pos;
      ghost var moved, wrapped := false, false;
      while true
        invariant Valid() && (wrapped ==> moved)
        invariant if moved then Canonical() && pos != start else pos == start && pSize == old(pSize)
        invariant wrapped <==> pos < start
        invariant |fields| == 0 ==> !moved
        invariant forall i :: start <= i < (if wrapped then |fields| else pos) ==> !Matches(fields[i], tag)
        invariant forall i :: wrapped && 0 <= i < pos ==> !Matches(fields[i], tag)
        decreases if wrapped then start - pos else start + |fields| - pos
      {
        if TagAt(pos) == tag && (pos < |fields| ==> !fields[pos].ltype.Extension?) {
          return true;
        }
        var more := Next();
        moved := |fields| > 0;
        wrapped := wrapped || (!more && pos < start);
        if pos == start {
          break;
        }
      }
      return false;
    }

    /** The walk that looks for an extension placeholder; on a descriptor without one it only
        resets the size pointer. */
    method FindExtension() returns (found: bool)
      requires Valid() && (pSize != OwnSize() ==> pos < |fields| && !fields[pos].htype.OneOf?)
      requires forall i :: 0 <= i < |fields| ==> !fields[i].ltype.Extension?
      modifies this`pos, this`requiredIndex, this`pData, this`pSize
      ensures !found && Valid() && pos == old(pos)
      ensures if |fields| > 0 then Canonical() else pSize == old(pSize)
    {
      var start := pos;
      ghost var moved, wrapped := false, false;
      while true
        invariant Valid() && (wrapped ==> moved)
        invariant if moved then Canonical() && pos != start else pos == start && pSize == old(pSize)
        invariant wrapped <==> pos < start
        invariant |fields| == 0 ==> !moved
        decreases if wrapped then start - pos else start + |fields| - pos
      {
        if pos < |fields| && fields[pos].ltype.Extension? {
          return true;
        }
        var more := Next();
        moved := |fields| > 0;
        wrapped := wrapped || (!more && pos < start);
        if pos == start {
          break;
        }
      }
      return false;
    }
  }
}

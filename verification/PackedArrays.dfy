/** Packed and unpacked forms of a repeated field are interchangeable ("Packed Repeated Fields" in
    the Protocol Buffers encoding guide), and string buffers survive exactly when terminated. */
module PackedArrays {
  import opened Words
  import V = Varint
  import opened Descriptor
  import opened Decoding
  import opened Encoding
  import opened Concatenation
  import opened RoundTrip

  /** A piece of a repeated field on the wire: one element under its own tag, or a packed run. */
  datatype Chunk = Element(v: Value) | PackedRun(items: seq<Value>)

  function ItemsOf(c: Chunk): seq<Value> {
    match c
    case Element(v) => [v]
    case PackedRun(items) => items
  }

  function Flatten(chunks: seq<Chunk>): seq<Value> {
    if chunks == [] then [] else ItemsOf(chunks[0]) + Flatten(chunks[1..])
  }

  ghost predicate ValidChunk(f: Field, c: Chunk) {
    && (forall k :: 0 <= k < |ItemsOf(c)| ==> ValidValue(f, ItemsOf(c)[k]))
    && (c.PackedRun? ==> ShortEnough(EncodePacked(f, c.items)))
  }

  function Payload(f: Field, c: Chunk): seq<Byte> {
    match c
    case Element(v) => EncodeScalar(f, v).GetOr([])
    case PackedRun(items) => Delimit(EncodePacked(f, items).GetOr([]))
  }

  function WireForm(f: Field, c: Chunk): nat {
    if c.Element? then WireOf(f.ltype) else WT_STRING
  }

  function Bytes(f: Field, chunks: seq<Chunk>): seq<Byte> {
    if chunks == [] then []
    else EncodeTag(WireForm(f, chunks[0]), f.tag) + Payload(f, chunks[0]) + Bytes(f, chunks[1..])
  }

  /** Decoding one chunk appends its elements, or fails when they do not fit. */
  lemma ChunkDecodes(fields: seq<Field>, i: nat, c: Chunk, before: seq<Value>, s: State, tail: seq<Byte>)
    requires WellFormed(fields) && Holds(fields, i, s, before) && |before| <= fields[i].arraySize
    requires Packable(fields[i].ltype) && ValidChunk(fields[i], c)
    ensures var f, items := fields[i], ItemsOf(c);
            RunRecords(fields, s, EncodeTag(WireForm(f, c), f.tag) + Payload(f, c) + tail)
            == if |before| + |items| <= f.arraySize
               then RunRecords(fields, WithItems(fields, i, s, before + NormalItems(f, items)), tail) else Broken
  {
    hide RunRecords, DecodeField, DecodeScalar, EncodeScalar, DecodePacked, EncodePacked, ValidValue, NormalValue;
    var f := fields[i];
    OneRecord(fields, s, i, WireForm(f, c), Payload(f, c), tail);
    match c
    case Element(v) =>
      assert ItemsOf(c)[0] == v;
      ScalarRoundTrip(f, v, tail);
      ElementStored(fields, i, before, s, WireOf(f.ltype), Payload(f, c) + tail);
      assert NormalItems(f, [v]) == [NormalValue(f, v)];
    case PackedRun(items) =>
      assert ItemsOf(c) == items;
      PackedBody(f, before, items);
      TakeDelimit(EncodePacked(f, items).value, tail);
      PackedStored(fields, i, before, s, Payload(f, c) + tail);
  }

  /** Any split of the elements into single records and packed runs, empty ones included, decodes
      to the elements in order, and succeeds exactly when they all fit. */
  lemma {:induction false} ChunksDecode(fields: seq<Field>, i: nat, chunks: seq<Chunk>, before: seq<Value>,
                                        s: State, tail: seq<Byte>)
    requires WellFormed(fields) && Holds(fields, i, s, before) && |before| <= fields[i].arraySize
    requires Packable(fields[i].ltype) && forall k :: 0 <= k < |chunks| ==> ValidChunk(fields[i], chunks[k])
    ensures var f, items := fields[i], Flatten(chunks);
            RunRecords(fields, s, Bytes(f, chunks) + tail)
            == if |before| + |items| > f.arraySize then Broken
               else if chunks == [] then RunRecords(fields, s, tail)
               else RunRecords(fields, WithItems(fields, i, s, before + NormalItems(f, items)), tail)
    decreases |chunks|
  {
    hide ValidChunk, NormalValue, Payload, WellFormed, EncodeTag, WireForm;
    var f := fields[i];
    if chunks == [] {
      assert Bytes(f, chunks) + tail == tail;
    } else {
      hide RunRecords;
      var c, rest := chunks[0], chunks[1..];
      var tail' := Bytes(f, rest) + tail;
      assert Bytes(f, chunks) + tail == EncodeTag(WireForm(f, c), f.tag) + Payload(f, c) + tail';
      ChunkDecodes(fields, i, c, before, s, tail');
      if |before| + |ItemsOf(c)| <= f.arraySize {
        var now := before + NormalItems(f, ItemsOf(c));
        var s' := WithItems(fields, i, s, now);
        ChunksDecode(fields, i, rest, now, s', tail);
        assert now + NormalItems(f, Flatten(rest)) == before + NormalItems(f, Flatten(chunks));
        if rest == [] {
          assert now == before + NormalItems(f, Flatten(chunks));
        }
        assert WithItems(fields, i, s', before + NormalItems(f, Flatten(chunks)))
            == WithItems(fields, i, s, before + NormalItems(f, Flatten(chunks)));
      }
    }
  }

  /** So two splits of the same elements are the same field. */
  lemma SplitsAgree(fields: seq<Field>, i: nat, a: seq<Chunk>, b: seq<Chunk>, before: seq<Value>,
                    s: State, tail: seq<Byte>)
    requires WellFormed(fields) && Holds(fields, i, s, before) && |before| <= fields[i].arraySize
    requires Packable(fields[i].ltype) && a != [] && b != [] && Flatten(a) == Flatten(b)
    requires forall k :: 0 <= k < |a| ==> ValidChunk(fields[i], a[k])
    requires forall k :: 0 <= k < |b| ==> ValidChunk(fields[i], b[k])
    ensures RunRecords(fields, s, Bytes(fields[i], a) + tail) == RunRecords(fields, s, Bytes(fields[i], b) + tail)
  {
    ChunksDecode(fields, i, a, before, s, tail);
    ChunksDecode(fields, i, b, before, s, tail);
  }

  lemma TextBuffer(f: Field, b: seq<Byte>)
    requires f.ltype.Text?
    ensures EncodeScalar(f, Blob(b)) == Some(Delimit(CString(b, f.dataSize)))
  {
    hide Delimit, CString, LittleEndianBytes, V.EncodeVarint, V.ZigZag, Signed64, Buffer;
  }

  lemma TextLength(f: Field, bs: seq<Byte>)
    requires f.ltype.Text? && V.DecodeVarint32(bs).Ok?
    ensures var size, rest := V.DecodeVarint32(bs).value, V.DecodeVarint32(bs).rest;
            DecodeScalar(f, bs) == if size < f.dataSize then ReadBlob(size, rest) else Fail
  {
    hide V.DecodeVarint32, ReadBlob;
  }

  /** The encoder accepts an unterminated string buffer that the decoder then refuses: a string
      comes back if and only if its buffer holds a NUL. */
  lemma TextRoundTripsIffTerminated(f: Field, b: seq<Byte>, tail: seq<Byte>)
    requires f.ltype.Text? && |b| < TWO32
    ensures EncodeScalar(f, Blob(b)).Some?
    ensures DecodeScalar(f, EncodeScalar(f, Blob(b)).value + tail)
            == if Terminated(b, f.dataSize) then Ok(Blob(CString(b, f.dataSize)), tail) else Fail
  {
    hide V.DecodeVarint32, Delimit, CString, ReadBytes, DecodeScalar, EncodeScalar;
    var s := CString(b, f.dataSize);
    PrefixedRoundTrip(s, tail);
    TextBuffer(f, b);
    TextLength(f, Delimit(s) + tail);
  }
}

/** What MultipartFormData promises: the streaming writer equals the in-memory encoder, and a
    receiver that follows section 5.1.1 of RFC 2046 gets the parts back. */
module MultipartEncoding {
  import opened Words
  import opened MultipartFormData

  // ---------------------------------------------------------------- one write

  /** Bytes a stream takes before it first refuses. */
  function Room(responses: seq<Response>): nat {
    if responses == [] || !responses[0].Take? then 0 else responses[0].n + Room(responses[1..])
  }

  /** Does the stream refuse with an error? */
  predicate Breaks(responses: seq<Response>) {
    responses != [] && (responses[0].WriteError? || (responses[0].Take? && Breaks(responses[1..])))
  }

  lemma TakeTwice(written: seq<Byte>, buffer: seq<Byte>, n: nat, m: nat)
    requires n + m <= |buffer|
    ensures written + buffer[..n] + buffer[n..][..m] == written + buffer[..n + m]
  {
    assert buffer[..n] + buffer[n..][..m] == buffer[..n + m];
  }

  /** The write loop writes as much as there is room for. It reports an error exactly when one ends
      the room; when only the space runs out, the rest of the buffer is dropped without one. */
  lemma {:induction false} WriteTakesRoom(o: Output, buffer: seq<Byte>)
    ensures Push(o, buffer).out.written == o.written + buffer[..Min(Room(o.responses), |buffer|)]
    ensures Push(o, buffer).error.Some? <==> Room(o.responses) < |buffer| && Breaks(o.responses)
    decreases |o.responses|
  {
    if buffer != [] && o.responses != [] && o.responses[0].Take? {
      var n := Min(o.responses[0].n, |buffer|);
      var o' := Output(o.written + buffer[..n], o.responses[1..]);
      WriteTakesRoom(o', buffer[n..]);
      TakeTwice(o.written, buffer, n, Min(Room(o.responses[1..]), |buffer[n..]|));
    } else {
      assert o.written + buffer[..0] == o.written;
    }
  }

  // ---------------------------------------------------------------- streaming and in-memory

  /** The stream takes something on each of its next `n` turns. */
  predicate Progressive(responses: seq<Response>, n: nat) {
    n <= |responses| && forall i :: 0 <= i < n ==> responses[i].Take? && responses[i].n > 0
  }

  /** `bytes` have been written, with no error and room for `n` more. */
  predicate Wrote(before: Outcome, after: Outcome, bytes: seq<Byte>, n: nat) {
    before.error.None? && after.error.None? && after.out.written == before.out.written + bytes
    && Progressive(after.out.responses, n)
  }

  lemma {:induction false} ProgressiveWrites(o: Output, buffer: seq<Byte>, n: nat)
    requires Progressive(o.responses, n + |buffer|)
    ensures Wrote(Outcome(o, None), Push(o, buffer), buffer, n)
    decreases |buffer|
  {
    if buffer != [] {
      var m := Min(o.responses[0].n, |buffer|);
      var o' := Output(o.written + buffer[..m], o.responses[1..]);
      assert buffer[..m] + buffer[m..] == buffer;
      assert o.written + buffer[..m] + buffer[m..] == o.written + (buffer[..m] + buffer[m..]);
      ProgressiveWrites(o', buffer[m..], n);
    } else {
      assert o.written + buffer == o.written;
    }
  }

  lemma WroteThen(before: Outcome, middle: Outcome, a: seq<Byte>, b: seq<Byte>, n: nat)
    requires Wrote(before, middle, a, n + |b|)
    ensures Wrote(before, Then(middle, b), a + b, n)
  {
    ProgressiveWrites(middle.out, b, n);
    assert before.out.written + a + b == before.out.written + (a + b);
  }

  lemma {:induction false} BodyStreams(before: Outcome, middle: Outcome, a: seq<Byte>, arrivals: seq<Read>, n: nat)
    requires Delivered(arrivals).Returns? && Wrote(before, middle, a, n + |Delivered(arrivals).value|)
    ensures Wrote(before, WriteBody(middle, arrivals), a + Delivered(arrivals).value, n)
    decreases |arrivals|
  {
    if arrivals == [] {
      assert a + [] == a;
    } else {
      var bytes, more := arrivals[0].bytes, Delivered(arrivals[1..]).value;
      WroteThen(before, middle, a, bytes, n + |more|);
      assert a + bytes + more == a + (bytes + more);
      BodyStreams(before, Then(middle, bytes), a + bytes, arrivals[1..], n);
    }
  }

  /** What a stream delivers grows by every chunk that arrives, whatever its size. */
  lemma {:induction false} DeliveredGrows(arrivals: seq<Read>, chunk: seq<Byte>)
    requires Delivered(arrivals).Returns?
    ensures Delivered([]) == Returns([])
    ensures Delivered(arrivals + [Data(chunk)]) == Returns(Delivered(arrivals).value + chunk)
    decreases |arrivals|
  {
    if arrivals == [] {
      assert ([] + [Data(chunk)])[1..] == [] && chunk + [] == chunk && [] + chunk == chunk;
    } else {
      assert (arrivals + [Data(chunk)])[1..] == arrivals[1..] + [Data(chunk)];
      DeliveredGrows(arrivals[1..], chunk);
      assert arrivals[0].bytes + (Delivered(arrivals[1..]).value + chunk) == Delivered(arrivals).value + chunk;
    }
  }

  /** The same parts, each with its body of the declared length, delivered in other chunks. */
  predicate SameBodies(a: seq<Part>, b: seq<Part>) {
    |a| == |b| && forall i :: 0 <= i < |a| ==> SameBody(a[i], b[i])
  }

  predicate SameBody(a: Part, b: Part) {
    a.headers == b.headers && Delivered(a.arrivals) == Delivered(b.arrivals)
    && Delivered(a.arrivals).Returns? && |Delivered(a.arrivals).value| == a.length
  }

  lemma PartStreams(before: Outcome, boundary: seq<Byte>, a: Part, b: Part, first: bool, last: bool, n: nat)
    requires SameBody(a, b) && before.error.None?
    requires Progressive(before.out.responses, n + |EncodePart(boundary, a, first, last).value|)
    ensures Wrote(before, WritePart(before, boundary, b, first, last), EncodePart(boundary, a, first, last).value, n)
  {
    hide Opening, EncodeHeaders, FinalBoundary, Push, Delivered, WriteBody;
    var opening, headers := Opening(boundary, first), EncodeHeaders(a.headers);
    var body, closing := Delivered(a.arrivals).value, Closing(boundary, last);
    assert before.out.written + [] == before.out.written && [] + opening == opening;
    WroteThen(before, before, [], opening, n + |headers| + |body| + |closing|);
    WroteThen(before, Then(before, opening), opening, headers, n + |body| + |closing|);
    var begun := Then(Then(before, opening), headers);
    BodyStreams(before, begun, opening + headers, b.arrivals, n + |closing|);
    if last {
      WroteThen(before, WriteBody(begun, b.arrivals), opening + headers + body, closing, n);
    } else {
      assert opening + headers + body + [] == opening + headers + body;
    }
  }

  lemma WroteTwice(before: Outcome, middle: Outcome, after: Outcome, a: seq<Byte>, b: seq<Byte>)
    requires Wrote(before, middle, a, |b|) && Wrote(middle, after, b, 0)
    ensures Wrote(before, after, a + b, 0)
  {
    assert before.out.written + a + b == before.out.written + (a + b);
  }

  lemma {:induction false} FormEncodes(boundary: seq<Byte>, parts: seq<Part>, k: nat)
    requires SameBodies(parts, parts) && k <= |parts|
    ensures EncodeFrom(boundary, parts, k).Returns?
    decreases |parts| - k
  {
    if k < |parts| {
      hide EncodePart;
      PartEncodes(boundary, parts[k], k == 0, k == |parts| - 1);
      FormEncodes(boundary, parts, k + 1);
    }
  }

  lemma {:induction false} FormStreams(before: Outcome, boundary: seq<Byte>, a: seq<Part>, b: seq<Part>, k: nat)
    requires SameBodies(a, b) && k <= |a| && before.error.None? && EncodeFrom(boundary, a, k).Returns?
    requires Progressive(before.out.responses, |EncodeFrom(boundary, a, k).value|)
    ensures Wrote(before, WriteFrom(before, boundary, b, k), EncodeFrom(boundary, a, k).value, 0)
    decreases |a| - k
  {
    if k == |a| {
      assert before.out.written + [] == before.out.written;
    } else {
      var bytes := EncodePart(boundary, a[k], k == 0, k == |a| - 1).value;
      var more := EncodeFrom(boundary, a, k + 1).value;
      var middle := WritePart(before, boundary, b[k], k == 0, k == |a| - 1);
      assert EncodeFrom(boundary, a, k).value == bytes + more;
      hide EncodePart, WritePart, Progressive;
      assert SameBody(a[k], b[k]);
      PartStreams(before, boundary, a[k], b[k], k == 0, k == |a| - 1, |more|);
      assert WriteFrom(before, boundary, b, k) == WriteFrom(middle, boundary, b, k + 1);
      assert middle.error.None? && Progressive(middle.out.responses, |more|);
      hide EncodeFrom, WriteFrom, Wrote, SameBody;
      FormStreams(middle, boundary, a, b, k + 1);
      WroteTwice(before, middle, WriteFrom(middle, boundary, b, k + 1), bytes, more);
    }
  }

  lemma PartEncodes(boundary: seq<Byte>, part: Part, first: bool, last: bool)
    requires SameBody(part, part)
    ensures EncodePart(boundary, part, first, last).Returns?
  {
  }

  /** Whatever chunks the bodies arrive in, and however the output stream splits its writes as long
      as it keeps taking something, writing streams out exactly the bytes encode returns. */
  lemma StreamingEqualsInMemory(o: Output, boundary: seq<Byte>, a: seq<Part>, b: seq<Part>)
    requires SameBodies(a, b)
    ensures EncodeFrom(boundary, a, 0).Returns?
    ensures Progressive(o.responses, |EncodeFrom(boundary, a, 0).value|) ==>
              var r := WriteFrom(Outcome(o, None), boundary, b, 0);
              r.error.None? && r.out.written == o.written + EncodeFrom(boundary, a, 0).value
  {
    FormEncodes(boundary, a, 0);
    if Progressive(o.responses, |EncodeFrom(boundary, a, 0).value|) {
      FormStreams(Outcome(o, None), boundary, a, b, 0);
    }
  }

  /** Only encode compares a body with its declared length: the writer streams out a body of any
      length where encode refuses it. */
  lemma OnlyEncodeChecksLength(before: Outcome, boundary: seq<Byte>, part: Part, first: bool, last: bool)
    requires Delivered(part.arrivals).Returns? && |Delivered(part.arrivals).value| != part.length
    requires before.error.None?
    ensures EncodePart(boundary, part, first, last) == Throws(UnexpectedInputStreamLength)
    ensures var bytes := Opening(boundary, first) + EncodeHeaders(part.headers) + Delivered(part.arrivals).value
                         + Closing(boundary, last);
            Progressive(before.out.responses, |bytes|) ==>
              Wrote(before, WritePart(before, boundary, part, first, last), bytes, 0)
  {
    var body := Delivered(part.arrivals).value;
    var honest := part.(length := |body|);
    var bytes := Opening(boundary, first) + EncodeHeaders(part.headers) + body + Closing(boundary, last);
    assert SameBody(honest, part) && EncodePart(boundary, honest, first, last).value == bytes;
    if Progressive(before.out.responses, |bytes|) {
      PartStreams(before, boundary, honest, part, first, last, 0);
    }
  }

  // ---------------------------------------------------------------- running out of space

  /** The buffers that the writer hands to the output, one write each. */
  function BodyBuffers(arrivals: seq<Read>): seq<seq<Byte>> {
    if arrivals == [] || arrivals[0].ReadError? then [] else [arrivals[0].bytes] + BodyBuffers(arrivals[1..])
  }

  function PartBuffers(boundary: seq<Byte>, part: Part, first: bool, last: bool): seq<seq<Byte>> {
    [Opening(boundary, first), EncodeHeaders(part.headers)] + BodyBuffers(part.arrivals)
    + if last then [FinalBoundary(boundary)] else []
  }

  function FormBuffers(boundary: seq<Byte>, parts: seq<Part>, k: nat): seq<seq<Byte>>
    requires k <= |parts|
    decreases |parts| - k
  {
    if k == |parts| then []
    else PartBuffers(boundary, parts[k], k == 0, k == |parts| - 1) + FormBuffers(boundary, parts, k + 1)
  }

  function Flat(buffers: seq<seq<Byte>>): seq<Byte> {
    if buffers == [] then [] else buffers[0] + Flat(buffers[1..])
  }

  function WriteAll(before: Outcome, buffers: seq<seq<Byte>>): Outcome
    decreases |buffers|
  {
    if buffers == [] then before else WriteAll(Then(before, buffers[0]), buffers[1..])
  }

  /** No write runs out of room. */
  predicate NeverShort(o: Output, buffers: seq<seq<Byte>>)
    decreases |buffers|
  {
    buffers == [] || (Room(o.responses) >= |buffers[0]| && NeverShort(Push(o, buffers[0]).out, buffers[1..]))
  }

  lemma {:induction false} AppendBuffers(before: Outcome, a: seq<seq<Byte>>, b: seq<seq<Byte>>)
    ensures WriteAll(before, a + b) == WriteAll(WriteAll(before, a), b) && Flat(a + b) == Flat(a) + Flat(b)
    decreases |a|
  {
    if a == [] {
      assert a + b == b;
    } else {
      assert (a + b)[1..] == a[1..] + b;
      AppendBuffers(Then(before, a[0]), a[1..], b);
      assert a[0] + (Flat(a[1..]) + Flat(b)) == a[0] + Flat(a[1..]) + Flat(b);
    }
  }

  lemma {:induction false} StoppedStays(before: Outcome, buffers: seq<seq<Byte>>)
    requires before.error.Some?
    ensures WriteAll(before, buffers) == before
    decreases |buffers|
  {
    if buffers != [] {
      StoppedStays(before, buffers[1..]);
    }
  }

  lemma {:induction false} BodyIsBuffers(before: Outcome, arrivals: seq<Read>)
    requires Delivered(arrivals).Returns?
    ensures WriteBody(before, arrivals) == WriteAll(before, BodyBuffers(arrivals))
    ensures Flat(BodyBuffers(arrivals)) == Delivered(arrivals).value
    decreases |arrivals|
  {
    if before.error.Some? {
      StoppedStays(before, BodyBuffers(arrivals));
    }
    if arrivals != [] {
      BodyIsBuffers(Then(before, arrivals[0].bytes), arrivals[1..]);
      assert BodyBuffers(arrivals)[1..] == BodyBuffers(arrivals[1..]);
    }
  }

  lemma PartIsBuffers(before: Outcome, boundary: seq<Byte>, a: Part, b: Part, first: bool, last: bool)
    requires SameBody(a, b)
    ensures WritePart(before, boundary, b, first, last) == WriteAll(before, PartBuffers(boundary, b, first, last))
    ensures EncodePart(boundary, a, first, last) == Returns(Flat(PartBuffers(boundary, b, first, last)))
  {
    hide Opening, EncodeHeaders, FinalBoundary, Push, Delivered, WriteBody, BodyBuffers;
    var opening, headers := Opening(boundary, first), EncodeHeaders(b.headers);
    var body, closing := BodyBuffers(b.arrivals), if last then [FinalBoundary(boundary)] else [];
    var begun := Then(Then(before, opening), headers);
    TwoBuffers(before, opening, headers);
    BodyIsBuffers(begun, b.arrivals);
    AppendBuffers(before, [opening, headers], body);
    AppendBuffers(before, [opening, headers] + body, closing);
    OneBuffer(WriteAll(begun, body), FinalBoundary(boundary));
  }

  lemma OneBuffer(before: Outcome, a: seq<Byte>)
    ensures WriteAll(before, [a]) == Then(before, a) && Flat([a]) == a
    ensures WriteAll(before, []) == before && Flat([]) == []
  {
    assert [a][1..] == [] && a + [] == a;
  }

  lemma TwoBuffers(before: Outcome, a: seq<Byte>, b: seq<Byte>)
    ensures WriteAll(before, [a, b]) == Then(Then(before, a), b) && Flat([a, b]) == a + b
  {
    assert [a, b][1..] == [b];
    OneBuffer(Then(before, a), b);
  }

  lemma {:induction false} FormIsBuffers(before: Outcome, boundary: seq<Byte>, a: seq<Part>, b: seq<Part>, k: nat)
    requires SameBodies(a, b) && k <= |a|
    ensures WriteFrom(before, boundary, b, k) == WriteAll(before, FormBuffers(boundary, b, k))
    ensures EncodeFrom(boundary, a, k) == Returns(Flat(FormBuffers(boundary, b, k)))
    decreases |a| - k
  {
    if before.error.Some? {
      StoppedStays(before, FormBuffers(boundary, b, k));
    }
    if k < |a| {
      assert SameBody(a[k], b[k]);
      hide WritePart, EncodePart, PartBuffers, SameBody;
      var buffers := PartBuffers(boundary, b[k], k == 0, k == |a| - 1);
      PartIsBuffers(before, boundary, a[k], b[k], k == 0, k == |a| - 1);
      FormIsBuffers(WriteAll(before, buffers), boundary, a, b, k + 1);
      AppendBuffers(before, buffers, FormBuffers(boundary, b, k + 1));
      hide WriteAll, Flat;
    }
  }

  /** Writes that return without an error have written everything or less than everything, and which
      is a matter of room alone. */
  lemma {:induction false} WriteAllTakesRoom(o: Output, buffers: seq<seq<Byte>>)
    ensures var r := WriteAll(Outcome(o, None), buffers);
            && |r.out.written| <= |o.written| + |Flat(buffers)|
            && (NeverShort(o, buffers) ==> r.error.None? && r.out.written == o.written + Flat(buffers))
            && (r.error.None? && |r.out.written| == |o.written| + |Flat(buffers)| ==> NeverShort(o, buffers))
    decreases |buffers|
  {
    if buffers == [] {
      assert o.written + [] == o.written;
    } else {
      hide Push, Room;
      WriteTakesRoom(o, buffers[0]);
      var next := Push(o, buffers[0]);
      if next.error.Some? {
        StoppedStays(next, buffers[1..]);
      } else {
        WriteAllTakesRoom(next.out, buffers[1..]);
        assert buffers[0][..|buffers[0]|] == buffers[0];
        assert o.written + buffers[0] + Flat(buffers[1..]) == o.written + (buffers[0] + Flat(buffers[1..]));
      }
    }
  }

  /** A form is written without loss if and only if no write of it runs out of room; if one does, the
      writer may still return without an error and go on writing behind the gap. */
  lemma FormIsWrittenIff(o: Output, boundary: seq<Byte>, a: seq<Part>, b: seq<Part>)
    requires SameBodies(a, b)
    ensures EncodeFrom(boundary, a, 0).Returns?
    ensures var r := WriteFrom(Outcome(o, None), boundary, b, 0);
            r.error.None? && r.out.written == o.written + EncodeFrom(boundary, a, 0).value
            <==> NeverShort(o, FormBuffers(boundary, b, 0))
  {
    hide FormBuffers, WriteAll, NeverShort;
    FormIsBuffers(Outcome(o, None), boundary, a, b, 0);
    WriteAllTakesRoom(o, FormBuffers(boundary, b, 0));
  }
  // ---------------------------------------------------------------- RFC 2046, section 5.1.1

  /** The delimiter: a line break, two hyphens and the boundary. */
  function Delimiter(boundary: seq<Byte>): (d: seq<Byte>)
    ensures |d| == |boundary| + 4
  {
    [13, 10] + [45, 45] + boundary
  }

  /** body-part *encapsulation close-delimiter, and an empty epilogue. */
  function Encapsulated(boundary: seq<Byte>, texts: seq<seq<Byte>>): seq<Byte>
    requires texts != []
  {
    texts[0] + if |texts| == 1 then Delimiter(boundary) + [45, 45] + [13, 10]
               else Delimiter(boundary) + [13, 10] + Encapsulated(boundary, texts[1..])
  }

  /** dash-boundary CRLF, and the rest. */
  function MultipartBody(boundary: seq<Byte>, texts: seq<seq<Byte>>): seq<Byte>
    requires texts != []
  {
    [45, 45] + boundary + [13, 10] + Encapsulated(boundary, texts)
  }

  /** The text of a body part: its header lines, an empty line, its body. */
  function Text(part: Part): seq<Byte> {
    EncodeHeaders(part.headers) + match Delivered(part.arrivals) case Returns(body) => body case Throws(_) => []
  }

  function Texts(parts: seq<Part>): (texts: seq<seq<Byte>>)
    ensures |texts| == |parts| && forall i :: 0 <= i < |parts| ==> texts[i] == Text(parts[i])
  {
    seq(|parts|, i requires 0 <= i < |parts| => Text(parts[i]))
  }

  lemma Regroup(a: seq<Byte>, b: seq<Byte>, c: seq<Byte>, d: seq<Byte>)
    ensures a + b + c + d == a + (b + c + d) && a + (b + c + d) == a + (b + (c + d))
  {
  }

  /** A part in the middle, and the last one. */
  lemma PartText(boundary: seq<Byte>, part: Part, first: bool, last: bool)
    requires EncodePart(boundary, part, first, last).Returns?
    ensures EncodePart(boundary, part, first, last).value
            == Opening(boundary, first) + Text(part) + Closing(boundary, last)
  {
    hide EncodeHeaders, Delivered, Opening, Closing;
    var body := Delivered(part.arrivals).value;
    assert Opening(boundary, first) + EncodeHeaders(part.headers) + body
           == Opening(boundary, first) + (EncodeHeaders(part.headers) + body);
  }

  lemma Boundaries(boundary: seq<Byte>)
    ensures FinalBoundary(boundary) == Delimiter(boundary) + [45, 45] + [13, 10]
    ensures EncapsulatedBoundary(boundary) == Delimiter(boundary) + [13, 10]
  {
  }

  lemma {:induction false} EncodesEncapsulated(boundary: seq<Byte>, parts: seq<Part>, k: nat)
    requires k < |parts| && EncodeFrom(boundary, parts, k).Returns?
    ensures EncodeFrom(boundary, parts, k).value
            == Opening(boundary, k == 0) + Encapsulated(boundary, Texts(parts)[k..])
    decreases |parts| - k
  {
    hide EncodePart, InitialBoundary, EncapsulatedBoundary, FinalBoundary, Delimiter, Text;
    var texts := Texts(parts);
    var opening := Opening(boundary, k == 0);
    var last := k == |parts| - 1;
    PartText(boundary, parts[k], k == 0, last);
    Boundaries(boundary);
    assert EncodePart(boundary, parts[k], k == 0, last).value == opening + texts[k] + Closing(boundary, last);
    if last {
      assert texts[k..] == [texts[k]];
      var value := EncodePart(boundary, parts[k], k == 0, last).value;
      assert EncodeFrom(boundary, parts, k).value == value + [] == value;
      Regroup([], opening, texts[k], Delimiter(boundary) + [45, 45] + [13, 10]);
      assert value == opening + (texts[k] + (Delimiter(boundary) + [45, 45] + [13, 10]));
    } else {
      EncodesEncapsulated(boundary, parts, k + 1);
      assert texts[k..][1..] == texts[k + 1..];
      var more := Encapsulated(boundary, texts[k + 1..]);
      var delimiter := Delimiter(boundary) + [13, 10];
      assert EncodeFrom(boundary, parts, k).value == opening + texts[k] + [] + (delimiter + more);
      assert Encapsulated(boundary, texts[k..]) == texts[k] + (delimiter + more);
      assert opening + texts[k] + [] == opening + texts[k];
      assert opening + texts[k] + (delimiter + more) == opening + (texts[k] + (delimiter + more));
    }
  }

  /** What encode returns for a form with parts is a multipart body. */
  lemma EncodesMultipartBody(boundary: seq<Byte>, parts: seq<Part>)
    requires parts != [] && EncodeFrom(boundary, parts, 0).Returns?
    ensures EncodeFrom(boundary, parts, 0).value == MultipartBody(boundary, Texts(parts))
  {
    EncodesEncapsulated(boundary, parts, 0);
    assert Texts(parts)[0..] == Texts(parts);
  }

  // ---------------------------------------------------------------- the receiver

  predicate StartsWith(bs: seq<Byte>, prefix: seq<Byte>) {
    |prefix| <= |bs| && bs[..|prefix|] == prefix
  }

  /** The first place where `d` occurs. */
  function Find(bs: seq<Byte>, d: seq<Byte>): (r: Option<nat>)
    ensures r.Some? ==> r.value + |d| <= |bs| && StartsWith(bs[r.value..], d)
    ensures r.Some? ==> forall i :: 0 <= i < r.value ==> !StartsWith(bs[i..], d)
    ensures r.None? ==> forall i :: 0 <= i <= |bs| ==> !StartsWith(bs[i..], d)
  {
    if StartsWith(bs, d) then Some(0)
    else if bs == [] then None
    else match Find(bs[1..], d)
      case None =>
        assert forall i :: 0 < i <= |bs| ==> bs[i..] == bs[1..][i - 1..];
        None
      case Some(n) =>
        assert forall i :: 0 < i <= |bs| ==> bs[i..] == bs[1..][i - 1..];
        Some(n + 1)
  }

  /** A receiver: everything up to a delimiter is a part, and two hyphens behind it end the body. */
  function Split(bs: seq<Byte>, boundary: seq<Byte>): Option<seq<seq<Byte>>>
    decreases |bs|
  {
    match Find(bs, Delimiter(boundary))
    case None => None
    case Some(n) =>
      var after := bs[n + |Delimiter(boundary)|..];
      if StartsWith(after, [45, 45]) then Some([bs[..n]])
      else if !StartsWith(after, [13, 10]) then None
      else match Split(after[2..], boundary)
        case None => None
        case Some(texts) => Some([bs[..n]] + texts)
  }

  function Receive(bs: seq<Byte>, boundary: seq<Byte>): Option<seq<seq<Byte>>> {
    var opening := [45, 45] + boundary + [13, 10];
    if StartsWith(bs, opening) then Split(bs[|opening|..], boundary) else None
  }

  predicate Contains(bs: seq<Byte>, d: seq<Byte>) {
    Find(bs, d).Some?
  }

  /** A delimiter cannot overlap itself, so behind a text without one the first is the next. */
  lemma FindBehind(text: seq<Byte>, d: seq<Byte>, rest: seq<Byte>)
    requires d != [] && forall i :: 0 < i < |d| ==> d[i] != d[0]
    ensures Contains(text, d) ==> Find(text + d + rest, d).Some? && Find(text + d + rest, d).value < |text|
    ensures !Contains(text, d) ==> Find(text + d + rest, d) == Some(|text|)
  {
    var bs := text + d + rest;
    assert bs[|text|..][..|d|] == d;
    if Contains(text, d) {
      var n := Find(text, d).value;
      assert bs[n..][..|d|] == text[n..][..|d|];
    } else {
      forall i | 0 <= i < |text|
        ensures !StartsWith(bs[i..], d)
      {
        if i + |d| <= |text| {
          assert bs[i..][..|d|] == text[i..][..|d|];
        } else {
          assert |bs[i..]| >= |d| && bs[i..][..|d|][|text| - i] == d[0];
        }
      }
    }
  }

  /** The first part the receiver finds in a text, a delimiter and what follows. */
  lemma SplitFirst(boundary: seq<Byte>, text: seq<Byte>, rest: seq<Byte>)
    requires 13 !in boundary
    ensures var found := Split(text + Delimiter(boundary) + rest, boundary);
            if Contains(text, Delimiter(boundary)) then found.Some? ==> found.value != [] && found.value[0] != text
            else found == if StartsWith(rest, [45, 45]) then Some([text])
                          else if !StartsWith(rest, [13, 10]) then None
                          else match Split(rest[2..], boundary)
                               case None => None
                               case Some(texts) => Some([text] + texts)
  {
    var d := Delimiter(boundary);
    var bs := text + d + rest;
    FindBehind(text, d, rest);
    hide Contains, Find;
    if Contains(text, d) {
      assert |bs[..Find(bs, d).value]| < |text|;
    } else {
      assert bs[..|text|] == text && bs[|text| + |d|..] == rest;
    }
  }

  lemma {:induction false} SplitIff(boundary: seq<Byte>, texts: seq<seq<Byte>>)
    requires texts != [] && 13 !in boundary
    ensures Split(Encapsulated(boundary, texts), boundary) == Some(texts) <==>
              forall i :: 0 <= i < |texts| ==> !Contains(texts[i], Delimiter(boundary))
    decreases |texts|
  {
    hide Contains, Split, Delimiter;
    var d := Delimiter(boundary);
    var bs := Encapsulated(boundary, texts);
    if |texts| == 1 {
      var rest := [45, 45] + [13, 10];
      assert bs == texts[0] + d + rest && rest[..2] == [45, 45] && texts == [texts[0]];
      SplitFirst(boundary, texts[0], rest);
    } else {
      var more := Encapsulated(boundary, texts[1..]);
      var rest := [13, 10] + more;
      assert bs == texts[0] + d + rest;
      assert rest[0] == 13 && rest[..2] == [13, 10] && rest[2..] == more;
      hide Encapsulated;
      SplitFirst(boundary, texts[0], rest);
      SplitIff(boundary, texts[1..]);
      SplitRest(boundary, texts, more);
    }
  }

  /** The head has been found; the tail decides. */
  lemma SplitRest(boundary: seq<Byte>, texts: seq<seq<Byte>>, more: seq<Byte>)
    requires texts != []
    ensures Split(more, boundary) == Some(texts[1..]) <==>
              Some(texts) == match Split(more, boundary) case None => None case Some(tail) => Some([texts[0]] + tail)
  {
    hide Split;
    assert texts == [texts[0]] + texts[1..];
    if Split(more, boundary).Some? {
      assert ([texts[0]] + Split(more, boundary).value)[1..] == Split(more, boundary).value;
    }
  }

  /** A receiver gets back exactly the parts that were encoded if and only if none of them contains
      the delimiter, which the encoder does not check. */
  lemma ReceivesPartsIff(boundary: seq<Byte>, parts: seq<Part>)
    requires parts != [] && EncodeFrom(boundary, parts, 0).Returns? && 13 !in boundary
    ensures Receive(EncodeFrom(boundary, parts, 0).value, boundary) == Some(Texts(parts)) <==>
              forall i :: 0 <= i < |parts| ==> !Contains(Text(parts[i]), Delimiter(boundary))
  {
    hide Encapsulated, EncodeFrom;
    EncodesMultipartBody(boundary, parts);
    var opening := [45, 45] + boundary + [13, 10];
    var body := MultipartBody(boundary, Texts(parts));
    assert body[..|opening|] == opening && body[|opening|..] == Encapsulated(boundary, Texts(parts));
    SplitIff(boundary, Texts(parts));
  }

  // ---------------------------------------------------------------- header fields

  /** The first place of a byte. */
  function IndexOf(bs: seq<Byte>, b: Byte): (r: Option<nat>)
    ensures r.Some? ==> r.value < |bs| && bs[r.value] == b
  {
    if bs == [] then None
    else if bs[0] == b then Some(0)
    else match IndexOf(bs[1..], b)
      case None => None
      case Some(n) => Some(n + 1)
  }

  /** A receiver of one part: header fields, each a name, a colon, a space and a value up to a line
      break, then an empty line, then the body. */
  function ReadHeaders(bs: seq<Byte>): Option<(seq<Header>, seq<Byte>)>
    decreases |bs|
  {
    if StartsWith(bs, [13, 10]) then Some(([], bs[2..]))
    else match IndexOf(bs, 58)
      case None => None
      case Some(n) =>
        var value := bs[n + 1..];
        if !StartsWith(value, [32]) then None
        else match IndexOf(value[1..], 13)
          case None => None
          case Some(m) =>
            var next := value[1..][m..];
            if !StartsWith(next, [13, 10]) then None
            else match ReadHeaders(next[2..])
              case None => None
              case Some((headers, body)) => Some(([Header(bs[..n], value[1..][..m])] + headers, body))
  }

  /** Names without colon or carriage return, values without carriage return. */
  predicate PlainHeaders(headers: seq<Header>) {
    forall i :: 0 <= i < |headers| ==>
      58 !in headers[i].name && 13 !in headers[i].name && 13 !in headers[i].value
  }

  lemma {:induction false} IndexBehind(text: seq<Byte>, b: Byte, rest: seq<Byte>)
    requires b !in text
    ensures IndexOf(text + [b] + rest, b) == Some(|text|)
    decreases |text|
  {
    var bs := text + [b] + rest;
    if text != [] {
      assert bs[0] == text[0] && bs[1..] == text[1..] + [b] + rest;
      IndexBehind(text[1..], b, rest);
    }
  }

  /** A name up to its colon, and a value up to its line break. */
  lemma NameIsRead(name: seq<Byte>, value: seq<Byte>)
    requires 58 !in name && 13 !in name
    ensures var bs := name + [58] + value;
            && !StartsWith(bs, [13, 10]) && IndexOf(bs, 58) == Some(|name|)
            && bs[..|name|] == name && bs[|name| + 1..] == value
  {
    var bs := name + [58] + value;
    IndexBehind(name, 58, value);
    hide IndexOf;
    assert bs[0] != 13;
    assert [13, 10][0] == 13;
  }

  lemma ValueIsRead(value: seq<Byte>, more: seq<Byte>)
    requires 13 !in value
    ensures var bs := [32] + value + ([13, 10] + more);
            && StartsWith(bs, [32]) && IndexOf(bs[1..], 13) == Some(|value|)
            && bs[1..][..|value|] == value && bs[1..][|value|..] == [13, 10] + more
  {
    var bs := [32] + value + ([13, 10] + more);
    IndexBehind(value, 13, [10] + more);
    hide IndexOf;
    assert bs[1..] == value + [13] + ([10] + more);
    assert bs[1..][|value|..] == [13, 10] + more;
  }

  /** One header line in front of more. */
  lemma LineIsRead(h: Header, more: seq<Byte>)
    requires 58 !in h.name && 13 !in h.name && 13 !in h.value
    ensures ReadHeaders(HeaderLine(h) + more)
            == match ReadHeaders(more)
               case None => None
               case Some((headers, body)) => Some(([h] + headers, body))
  {
    var value := [32] + h.value + ([13, 10] + more);
    assert HeaderLine(h) + more == h.name + [58] + value;
    NameIsRead(h.name, value);
    ValueIsRead(h.value, more);
    var next := [13, 10] + more;
    assert StartsWith(next, [13, 10]) && next[2..] == more;
    hide IndexOf, StartsWith, HeaderLine;
  }

  lemma {:induction false} HeadersRoundTrip(headers: seq<Header>, body: seq<Byte>)
    requires PlainHeaders(headers)
    ensures ReadHeaders(EncodeHeaders(headers) + body) == Some((headers, body))
    decreases |headers|
  {
    var text := EncodeHeaders(headers) + body;
    if headers == [] {
      assert text[..2] == [13, 10] && text[2..] == body;
    } else {
      var more := EncodeHeaders(headers[1..]) + body;
      assert text == HeaderLine(headers[0]) + more;
      hide EncodeHeaders, HeaderLine, ReadHeaders;
      HeadersRoundTrip(headers[1..], body);
      LineIsRead(headers[0], more);
      assert [headers[0]] + headers[1..] == headers;
    }
  }

  lemma {:induction false} EncodedIsDelivered(boundary: seq<Byte>, parts: seq<Part>, k: nat, i: nat)
    requires k <= i < |parts| && EncodeFrom(boundary, parts, k).Returns?
    ensures Delivered(parts[i].arrivals).Returns?
    decreases i - k
  {
    if k < i {
      EncodedIsDelivered(boundary, parts, k + 1, i);
    }
  }

  /** So a receiver that splits the encoded form and reads the headers of each part gets the fields
      and the bodies that were appended. */
  lemma ReceivesFieldsAndBodies(boundary: seq<Byte>, parts: seq<Part>, k: nat)
    requires EncodeFrom(boundary, parts, 0).Returns? && 13 !in boundary && k < |parts|
    requires forall i :: 0 <= i < |parts| ==> !Contains(Text(parts[i]), Delimiter(boundary))
    requires PlainHeaders(parts[k].headers)
    ensures Delivered(parts[k].arrivals).Returns?
    ensures var received := Receive(EncodeFrom(boundary, parts, 0).value, boundary);
            && received.Some? && |received.value| == |parts|
            && ReadHeaders(received.value[k]) == Some((parts[k].headers, Delivered(parts[k].arrivals).value))
  {
    EncodedIsDelivered(boundary, parts, 0, k);
    hide Receive, EncodeFrom, Contains, ReadHeaders, EncodeHeaders, Delivered;
    ReceivesPartsIff(boundary, parts);
    HeadersRoundTrip(parts[k].headers, Delivered(parts[k].arrivals).value);
  }
}

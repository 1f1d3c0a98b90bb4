/** MultipartFormData.swift: encoding in memory, and the streaming writer that should produce the
    same bytes. Text is modelled by its UTF-8 bytes. */
module MultipartFormData {
  import opened Words

  const CRLF: seq<Byte> := [13, 10]
  const DASHES: seq<Byte> := [45, 45]
  const STREAM_BUFFER_SIZE: nat := 1024

  datatype Header = Header(name: seq<Byte>, value: seq<Byte>)
  datatype Error = BodyPartError | ReadFailed | UnexpectedInputStreamLength | WriteFailed
  datatype Result<+T> = Returns(value: T) | Throws(error: Error)

  // ---------------------------------------------------------------- streams

  /** One read of an input stream: between 1 and 1024 bytes, or a stream error. */
  datatype Read = Data(bytes: seq<Byte>) | ReadError

  /** One turn of the write loop: the stream takes up to `n` bytes, has no space, or fails. */
  datatype Response = Take(n: nat) | NoSpace | WriteError

  /** An output stream: the bytes it has taken and how it will answer. */
  datatype Output = Output(written: seq<Byte>, responses: seq<Response>)

  datatype Outcome = Outcome(out: Output, error: Option<Error>)

  function Min(a: nat, b: nat): nat {
    if a < b then a else b
  }

  /** The write loop. It stops without an error when there is no space left. */
  function Push(o: Output, buffer: seq<Byte>): Outcome
    decreases |o.responses|
  {
    if buffer == [] || o.responses == [] then Outcome(o, None)
    else
      var rest := o.responses[1..];
      match o.responses[0]
      case NoSpace => Outcome(o.(responses := rest), None)
      case WriteError => Outcome(o.(responses := rest), Some(WriteFailed))
      case Take(n) =>
        var n := Min(n, |buffer|);
        Push(Output(o.written + buffer[..n], rest), buffer[n..])
  }

  class InputStream {
    var arrivals: seq<Read>
    /** What hasBytesAvailable says of a stream that has nothing left. */
    const mayTryAgain: bool

    ghost predicate Valid()
      reads this
    {
      forall i :: 0 <= i < |arrivals| && arrivals[i].Data? ==> 0 < |arrivals[i].bytes| <= STREAM_BUFFER_SIZE
    }

    constructor (arrivals: seq<Read>, mayTryAgain: bool)
      requires forall i :: 0 <= i < |arrivals| && arrivals[i].Data? ==> 0 < |arrivals[i].bytes| <= STREAM_BUFFER_SIZE
      ensures Valid() && this.arrivals == arrivals
    {
      this.arrivals := arrivals;
      this.mayTryAgain := mayTryAgain;
    }

    predicate HasBytesAvailable()
      reads this
    {
      arrivals != [] || mayTryAgain
    }

    /** The bytes read, none at the end, or an error. */
    method ReadChunk() returns (bytes: seq<Byte>, failed: bool)
      requires Valid()
      modifies this
      ensures Valid() && |bytes| <= STREAM_BUFFER_SIZE
      ensures old(arrivals) == [] ==> arrivals == [] && bytes == [] && !failed
      ensures old(arrivals) != [] ==>
                arrivals == old(arrivals)[1..] && old(arrivals)[0] == if failed then ReadError else Data(bytes)
      ensures old(arrivals) != [] && !failed ==> bytes != []
    {
      if arrivals == [] {
        return [], false;
      }
      var next := arrivals[0];
      arrivals := arrivals[1..];
      match next
      case Data(data) => return data, false;
      case ReadError => return [], true;
    }
  }

  class OutputStream {
    var written: seq<Byte>
    var responses: seq<Response>

    ghost function View(): Output
      reads this
    {
      Output(written, responses)
    }

    constructor (responses: seq<Response>)
      ensures View() == Output([], responses)
    {
      this.written := [];
      this.responses := responses;
    }

    method HasSpaceAvailable() returns (space: bool)
      modifies this`responses
      ensures space == (old(responses) != [] && !old(responses)[0].NoSpace?)
      ensures responses == if old(responses) != [] && !space then old(responses)[1..] else old(responses)
    {
      if responses == [] {
        return false;
      }
      if responses[0].NoSpace? {
        responses := responses[1..];
        return false;
      }
      return true;
    }

    method WriteChunk(buffer: seq<Byte>, maxLength: nat) returns (bytesWritten: nat, failed: bool)
      requires responses != [] && !responses[0].NoSpace? && maxLength <= |buffer|
      modifies this
      ensures responses == old(responses)[1..] && bytesWritten <= maxLength
      ensures failed == old(responses)[0].WriteError?
      ensures failed ==> bytesWritten == 0
      ensures !failed ==> bytesWritten == Min(old(responses)[0].n, maxLength)
      ensures written == old(written) + buffer[..bytesWritten]
    {
      var response := responses[0];
      responses := responses[1..];
      match response
      case WriteError =>
        bytesWritten, failed := 0, true;
        assert written == written + buffer[..0];
      case Take(n) =>
        bytesWritten, failed := Min(n, maxLength), false;
        written := written + buffer[..bytesWritten];
    }

    /** The partial-write loop. */
    method WriteBuffer(data: seq<Byte>) returns (error: Option<Error>)
      modifies this
      ensures Outcome(View(), error) == Push(old(View()), data)
    {
      var buffer := data;
      var bytesToWrite := |buffer|;
      while bytesToWrite > 0
        invariant bytesToWrite <= |buffer| && (bytesToWrite > 0 ==> bytesToWrite == |buffer|)
        invariant Push(old(View()), data) == Push(View(), if bytesToWrite > 0 then buffer else [])
        decreases |responses|, bytesToWrite
      {
        var space := HasSpaceAvailable();
        if !space {
          return None;
        }
        var bytesWritten, failed := WriteChunk(buffer, bytesToWrite);
        if failed {
          assert written + buffer[..0] == written;
          return Some(WriteFailed);
        }
        bytesToWrite := bytesToWrite - bytesWritten;
        if bytesToWrite > 0 {
          buffer := buffer[bytesWritten..];
        } else {
          assert buffer[bytesWritten..] == [];
        }
      }
      return None;
    }
  }

  // ---------------------------------------------------------------- boundaries and headers

  function InitialBoundary(boundary: seq<Byte>): seq<Byte> {
    DASHES + boundary + CRLF
  }

  function EncapsulatedBoundary(boundary: seq<Byte>): seq<Byte> {
    CRLF + DASHES + boundary + CRLF
  }

  function FinalBoundary(boundary: seq<Byte>): seq<Byte> {
    CRLF + DASHES + boundary + DASHES + CRLF
  }

  function HeaderLine(h: Header): seq<Byte> {
    h.name + [58, 32] + h.value + CRLF
  }

  function HeaderLines(headers: seq<Header>): seq<Byte> {
    if headers == [] then [] else HeaderLine(headers[0]) + HeaderLines(headers[1..])
  }

  function EncodeHeaders(headers: seq<Header>): seq<Byte> {
    HeaderLines(headers) + CRLF
  }

  // ---------------------------------------------------------------- what the two encoders compute

  /** A body part before its first encoding: its headers, how its stream will deliver its body, and
      the length it was declared with. */
  datatype Part = Part(headers: seq<Header>, arrivals: seq<Read>, length: nat)

  function Prepend(bytes: seq<Byte>, result: Result<seq<Byte>>): Result<seq<Byte>> {
    match result
    case Throws(e) => Throws(e)
    case Returns(more) => Returns(bytes + more)
  }

  lemma PrependNothing(result: Result<seq<Byte>>)
    ensures Prepend([], result) == result
  {
    if result.Returns? {
      assert [] + result.value == result.value;
    }
  }

  lemma PrependTwice(a: seq<Byte>, b: seq<Byte>, result: Result<seq<Byte>>)
    ensures Prepend(a, Prepend(b, result)) == Prepend(a + b, result)
  {
    if result.Returns? {
      assert a + (b + result.value) == a + b + result.value;
    }
  }

  /** Everything a stream delivers. */
  function Delivered(arrivals: seq<Read>): Result<seq<Byte>> {
    if arrivals == [] then Returns([])
    else match arrivals[0]
      case ReadError => Throws(ReadFailed)
      case Data(bytes) => Prepend(bytes, Delivered(arrivals[1..]))
  }

  /** encodeBodyStream, which checks the declared length. */
  function EncodeBody(arrivals: seq<Read>, length: nat): Result<seq<Byte>> {
    match Delivered(arrivals)
    case Throws(e) => Throws(e)
    case Returns(body) => if |body| == length then Returns(body) else Throws(UnexpectedInputStreamLength)
  }

  function Opening(boundary: seq<Byte>, first: bool): seq<Byte> {
    if first then InitialBoundary(boundary) else EncapsulatedBoundary(boundary)
  }

  function Closing(boundary: seq<Byte>, last: bool): seq<Byte> {
    if last then FinalBoundary(boundary) else []
  }

  function EncodePart(boundary: seq<Byte>, part: Part, first: bool, last: bool): Result<seq<Byte>> {
    match EncodeBody(part.arrivals, part.length)
    case Throws(e) => Throws(e)
    case Returns(body) =>
      Returns(Opening(boundary, first) + EncodeHeaders(part.headers) + body + Closing(boundary, last))
  }

  /** encode, from part `k` on. */
  function EncodeFrom(boundary: seq<Byte>, parts: seq<Part>, k: nat): Result<seq<Byte>>
    requires k <= |parts|
    decreases |parts| - k
  {
    if k == |parts| then Returns([])
    else match EncodePart(boundary, parts[k], k == 0, k == |parts| - 1)
      case Throws(e) => Throws(e)
      case Returns(bytes) => Prepend(bytes, EncodeFrom(boundary, parts, k + 1))
  }

  /** One write after another, up to the first error. */
  function Then(first: Outcome, buffer: seq<Byte>): Outcome {
    if first.error.Some? then first else Push(first.out, buffer)
  }

  /** writeBodyStream, which does not check the declared length. */
  function WriteBody(before: Outcome, arrivals: seq<Read>): Outcome
    decreases |arrivals|
  {
    if before.error.Some? || arrivals == [] then before
    else match arrivals[0]
      case ReadError => before.(error := Some(ReadFailed))
      case Data(bytes) => WriteBody(Push(before.out, bytes), arrivals[1..])
  }

  function WritePart(before: Outcome, boundary: seq<Byte>, part: Part, first: bool, last: bool): Outcome {
    var begun := Then(Then(before, Opening(boundary, first)), EncodeHeaders(part.headers));
    var body := WriteBody(begun, part.arrivals);
    if last then Then(body, FinalBoundary(boundary)) else body
  }

  /** writeEncodedData, from part `k` on. */
  function WriteFrom(before: Outcome, boundary: seq<Byte>, parts: seq<Part>, k: nat): Outcome
    requires k <= |parts|
    decreases |parts| - k
  {
    if k == |parts| || before.error.Some? then before
    else WriteFrom(WritePart(before, boundary, parts[k], k == 0, k == |parts| - 1), boundary, parts, k + 1)
  }

  // ---------------------------------------------------------------- the form

  class BodyPart {
    const headers: seq<Header>
    const bodyStream: InputStream
    const bodyContentLength: nat
    var hasInitialBoundary: bool
    var hasFinalBoundary: bool

    constructor (headers: seq<Header>, bodyStream: InputStream, bodyContentLength: nat)
      ensures this.headers == headers && this.bodyStream == bodyStream && this.bodyContentLength == bodyContentLength
      ensures !hasInitialBoundary && !hasFinalBoundary
    {
      this.headers, this.bodyStream, this.bodyContentLength := headers, bodyStream, bodyContentLength;
      hasInitialBoundary, hasFinalBoundary := false, false;
    }

    ghost function AsPart(): Part
      reads this, bodyStream
    {
      Part(headers, bodyStream.arrivals, bodyContentLength)
    }
  }

  /** The loop of encodeBodyStream and its length check. */
  method EncodeBodyStream(stream: InputStream, length: nat) returns (result: Result<seq<Byte>>)
    requires stream.Valid()
    modifies stream
    ensures result == EncodeBody(old(stream.arrivals), length)
  {
    var encoded: seq<Byte> := [];
    ghost var start := stream.arrivals;
    PrependNothing(Delivered(start));
    var done := false;
    while !done && stream.HasBytesAvailable()
      invariant stream.Valid()
      invariant done ==> stream.arrivals == []
      invariant Delivered(start) == Prepend(encoded, Delivered(stream.arrivals))
      decreases |stream.arrivals|, !done
    {
      ghost var before := stream.arrivals;
      var bytes, failed := stream.ReadChunk();
      if failed {
        return Throws(ReadFailed);
      }
      if bytes != [] {
        PrependTwice(encoded, bytes, Delivered(stream.arrivals));
        encoded := encoded + bytes;
      } else {
        done := true;
      }
    }
    assert encoded + [] == encoded;
    if |encoded| != length {
      return Throws(UnexpectedInputStreamLength);
    }
    return Returns(encoded);
  }

  /** The loop of writeBodyStream. */
  method WriteBodyStream(stream: InputStream, out: OutputStream) returns (error: Option<Error>)
    requires stream.Valid()
    modifies stream, out
    ensures Outcome(out.View(), error) == WriteBody(Outcome(old(out.View()), None), old(stream.arrivals))
  {
    ghost var start, before := stream.arrivals, out.View();
    var done := false;
    while !done && stream.HasBytesAvailable()
      invariant stream.Valid()
      invariant done ==> stream.arrivals == []
      invariant WriteBody(Outcome(before, None), start) == WriteBody(Outcome(out.View(), None), stream.arrivals)
      decreases |stream.arrivals|, !done
    {
      var buffer, failed := stream.ReadChunk();
      if failed {
        return Some(ReadFailed);
      }
      if buffer != [] {
        error := out.WriteBuffer(buffer);
        if error.Some? {
          return;
        }
      } else {
        done := true;
      }
    }
    return None;
  }

  class FormData {
    const boundary: seq<Byte>
    var bodyParts: seq<BodyPart>
    var bodyPartError: Option<Error>

    ghost function Streams(): set<object>
      reads this, bodyParts
    {
      set p | p in bodyParts :: p.bodyStream
    }

    /** Distinct parts with a stream each. */
    ghost predicate Separate()
      reads this, bodyParts
    {
      forall i, j :: 0 <= i < j < |bodyParts| ==>
        bodyParts[i] != bodyParts[j] && bodyParts[i].bodyStream != bodyParts[j].bodyStream
    }

    /** Not encoded before. */
    ghost predicate Fresh()
      reads this, bodyParts, Streams()
    {
      && Separate()
      && (forall i :: 0 <= i < |bodyParts| ==>
            bodyParts[i].bodyStream.Valid() && !bodyParts[i].hasInitialBoundary && !bodyParts[i].hasFinalBoundary)
    }

    ghost function Parts(): (parts: seq<Part>)
      reads this, bodyParts, Streams()
      ensures |parts| == |bodyParts|
    {
      seq(|bodyParts|, i requires 0 <= i < |bodyParts| reads this, bodyParts, Streams() => bodyParts[i].AsPart())
    }

    constructor (boundary: seq<Byte>)
      ensures this.boundary == boundary && bodyParts == [] && bodyPartError == None
    {
      this.boundary := boundary;
      bodyParts := [];
      bodyPartError := None;
    }

    method Append(part: BodyPart)
      modifies this`bodyParts
      ensures bodyParts == old(bodyParts) + [part]
    {
      bodyParts := bodyParts + [part];
    }

    /** The first part opens the form and the last one closes it. */
    method MarkEnds()
      requires Fresh()
      modifies bodyParts
      ensures Unread(0, old(Parts()))
    {
      if |bodyParts| > 0 {
        bodyParts[0].hasInitialBoundary := true;
        bodyParts[|bodyParts| - 1].hasFinalBoundary := true;
      }
    }

    /** encode(_:) of one part. */
    method EncodeBodyPart(part: BodyPart) returns (result: Result<seq<Byte>>)
      requires part.bodyStream.Valid()
      modifies part.bodyStream
      ensures result == EncodePart(boundary, old(part.AsPart()), part.hasInitialBoundary, part.hasFinalBoundary)
    {
      var encoded := Opening(boundary, part.hasInitialBoundary);
      encoded := encoded + EncodeHeaders(part.headers);
      var body := EncodeBodyStream(part.bodyStream, part.bodyContentLength);
      if body.Throws? {
        return body;
      }
      encoded := encoded + body.value;
      if part.hasFinalBoundary {
        encoded := encoded + FinalBoundary(boundary);
      } else {
        assert encoded + [] == encoded;
      }
      return Returns(encoded);
    }

    /** The parts from `k` on are marked but not yet read. */
    ghost predicate Unread(k: nat, parts: seq<Part>)
      reads this, bodyParts, Streams()
    {
      && |parts| == |bodyParts|
      && forall i :: k <= i < |bodyParts| ==>
           && bodyParts[i].bodyStream.Valid() && bodyParts[i].AsPart() == parts[i]
           && bodyParts[i].hasInitialBoundary == (i == 0)
           && bodyParts[i].hasFinalBoundary == (i == |bodyParts| - 1)
    }

    method EncodeNext(k: nat, ghost parts: seq<Part>) returns (result: Result<seq<Byte>>)
      requires Unread(k, parts) && Separate() && k < |bodyParts|
      modifies bodyParts[k].bodyStream
      ensures Unread(k + 1, parts)
      ensures result == EncodePart(boundary, parts[k], k == 0, k == |parts| - 1)
    {
      hide EncodePart;
      result := EncodeBodyPart(bodyParts[k]);
    }

    /** The loop over the parts. */
    method EncodeParts(ghost parts: seq<Part>) returns (result: Result<seq<Byte>>)
      requires Unread(0, parts) && Separate() && |parts| == |bodyParts|
      modifies Streams()
      ensures result == EncodeFrom(boundary, parts, 0)
    {
      hide EncodePart, Unread;
      var encoded: seq<Byte> := [];
      PrependNothing(EncodeFrom(boundary, parts, 0));
      for k := 0 to |bodyParts|
        invariant Unread(k, parts) && |parts| == |bodyParts|
        invariant EncodeFrom(boundary, parts, 0) == Prepend(encoded, EncodeFrom(boundary, parts, k))
      {
        assert bodyParts[k].bodyStream in Streams();
        var part := EncodeNext(k, parts);
        if part.Throws? {
          return part;
        }
        PrependTwice(encoded, part.value, EncodeFrom(boundary, parts, k + 1));
        encoded := encoded + part.value;
      }
      assert encoded + [] == encoded;
      return Returns(encoded);
    }

    method Encode() returns (result: Result<seq<Byte>>)
      requires Fresh()
      modifies bodyParts, Streams()
      ensures result == if bodyPartError.Some? then Throws(bodyPartError.value)
                        else EncodeFrom(boundary, old(Parts()), 0)
    {
      hide EncodeFrom, Unread;
      if bodyPartError.Some? {
        return Throws(bodyPartError.value);
      }
      ghost var parts := Parts();
      MarkEnds();
      result := EncodeParts(parts);
    }

    /** write(_:to:) of one part. */
    method WriteBodyPart(part: BodyPart, out: OutputStream) returns (error: Option<Error>)
      requires part.bodyStream.Valid()
      modifies part.bodyStream, out
      ensures Outcome(out.View(), error) == WritePart(Outcome(old(out.View()), None), boundary, old(part.AsPart()),
                                                      part.hasInitialBoundary, part.hasFinalBoundary)
    {
      error := out.WriteBuffer(Opening(boundary, part.hasInitialBoundary));
      if error.Some? {
        return;
      }
      error := out.WriteBuffer(EncodeHeaders(part.headers));
      if error.Some? {
        return;
      }
      error := WriteBodyStream(part.bodyStream, out);
      if error.Some? {
        return;
      }
      if part.hasFinalBoundary {
        error := out.WriteBuffer(FinalBoundary(boundary));
      }
    }

    method WriteNext(k: nat, ghost parts: seq<Part>, out: OutputStream) returns (error: Option<Error>)
      requires Unread(k, parts) && Separate() && k < |bodyParts|
      modifies bodyParts[k].bodyStream, out
      ensures Unread(k + 1, parts)
      ensures Outcome(out.View(), error)
              == WritePart(Outcome(old(out.View()), None), boundary, parts[k], k == 0, k == |parts| - 1)
    {
      hide WritePart;
      error := WriteBodyPart(bodyParts[k], out);
    }

    /** The loop over the parts. */
    method WriteParts(ghost parts: seq<Part>, out: OutputStream) returns (error: Option<Error>)
      requires Unread(0, parts) && Separate() && |parts| == |bodyParts|
      modifies Streams(), out
      ensures Outcome(out.View(), error) == WriteFrom(Outcome(old(out.View()), None), boundary, parts, 0)
    {
      hide WritePart, Unread;
      ghost var start := Outcome(out.View(), None);
      for k := 0 to |bodyParts|
        invariant Unread(k, parts) && |parts| == |bodyParts|
        invariant WriteFrom(start, boundary, parts, 0) == WriteFrom(Outcome(out.View(), None), boundary, parts, k)
      {
        assert bodyParts[k].bodyStream in Streams();
        error := WriteNext(k, parts, out);
        if error.Some? {
          return;
        }
      }
      return None;
    }

    method WriteEncodedData(out: OutputStream) returns (error: Option<Error>)
      requires Fresh()
      modifies bodyParts, Streams(), out
      ensures Outcome(out.View(), error)
              == if bodyPartError.Some? then Outcome(old(out.View()), bodyPartError)
                 else WriteFrom(Outcome(old(out.View()), None), boundary, old(Parts()), 0)
    {
      hide WriteFrom, Unread;
      if bodyPartError.Some? {
        return bodyPartError;
      }
      ghost var parts := Parts();
      MarkEnds();
      error := WriteParts(parts, out);
    }
  }
}

/** pb_encode into a buffer and pb_decode out of it, as the two programs run. */
module EndToEnd {
  import opened Words
  import opened Descriptor
  import opened Decoding
  import opened Encoding
  import opened RoundTrip
  import opened InputStream
  import opened OutputStream
  import Encoder
  import Decoder

  lemma {:induction false} WellFormedIsCovered(fields: seq<Field>)
    requires WellFormed(fields)
    ensures Covered(fields)
    decreases fields
  {
    forall i | 0 <= i < |fields|
      ensures CoveredField(fields[i])
    {
      assert WellFormedField(fields[i]);
      if fields[i].ltype.SubMessage? {
        WellFormedIsCovered(fields[i].sub);
      }
    }
  }

  /** The encoder fails only for want of space; otherwise the decoder, given exactly the bytes that
      were written, succeeds and returns the message in normal form. */
  method EncodeAndDecode(buf: array<Byte>, fields: seq<Field>, slots: seq<Slot>) returns (ok: bool, decoded: seq<Slot>)
    requires WellFormed(fields) && Valid(fields, slots)
    modifies buf
    ensures EncodeMessage(fields, slots).Some?
    ensures ok <==> |EncodeMessage(fields, slots).value| <= buf.Length
    ensures ok ==> decoded == Normal(fields, slots)
  {
    hide EncodeMessage, Decode, Normal, Valid, WellFormed;
    MessageRoundTrip(fields, slots);
    WellFormedIsCovered(fields);
    decoded := [];
    var output := new OStream.Over(buf, 0, buf.Length);
    ok := Encoder.PbEncode(output, fields, slots);
    if ok {
      var input := new IStream.FromBuffer(buf, 0, output.bytesWritten);
      assert input.Rest() == EncodeMessage(fields, slots).value;
      ok, decoded := Decoder.PbDecode(input, fields, 0, []);
    }
  }
}

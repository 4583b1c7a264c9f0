/** The frame both packet kinds share: a body, then its CRC with the low byte first. */
module Framing {
  import opened Words
  import opened LittleEndian
  import opened Crc16
  import opened ErrorDetection

  function Sealed(body: seq<u8>): seq<u8> {
    body + Encode(Crc(body), 2)
  }

  /** The CRC field, read back as the decoders read it. */
  lemma {:induction false} FieldValue(bytes: seq<u8>)
    requires |bytes| >= 2
    ensures CrcField(bytes) == Value(bytes[|bytes| - 2..])
  {
    ValueOfTwo(bytes[|bytes| - 2..]);
  }

  lemma {:induction false} SealedIsValid(body: seq<u8>)
    ensures CrcValid(Sealed(body))
  {
    var bytes := Sealed(body);
    assert bytes[..|bytes| - 2] == body && bytes[|bytes| - 2..] == Encode(Crc(body), 2);
    FieldValue(bytes);
    Spans();
    ValueOfEncode(Crc(body), 2);
  }

  /** The CRC of the body follows it, low byte first. */
  lemma {:induction false} SealedTail(body: seq<u8>, n: nat)
    requires |body| == n
    ensures var b := Sealed(body);
            |b| == n + 2 && b[..n] == body && b[n] == Crc(body) % 256 && b[n + 1] == Crc(body) / 256
  {
    TwoBytes(Crc(body));
  }

  lemma {:induction false} ValidIsSealed(bytes: seq<u8>)
    requires CrcValid(bytes)
    ensures bytes == Sealed(bytes[..|bytes| - 2])
  {
    FieldValue(bytes);
    EncodeOfValue(bytes[|bytes| - 2..]);
  }

  lemma Spans()
    ensures Span(1) == U8_SPAN && Span(2) == U16_SPAN && Span(4) == U32_SPAN && Span(8) == U64_SPAN
  {
    assert Span(6) == 0x1_0000_0000_0000;
  }
}

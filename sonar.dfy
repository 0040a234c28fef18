/**
 * The mock SONAR payload supplier: a 129-byte frame made of three reserved
 * zero bytes, the supplier's 32-bit identifier in network byte order
 * (big-endian, two's complement), and zeros up to the end.
 */
module SonarPayload {
  import opened Datatypes

  /** The frame length, in bytes. */
  const LENGTH: int := 129

  /** Bytes reserved at the head of the frame. */
  const RESERVED: int := 3

  /** The time argument of `payload`, in milliseconds; the frame does not depend on it. */
  datatype PayloadTimestamp = PayloadTimestamp(millis: int)

  /** The bit pattern of a Java `int`, read as an unsigned number. */
  function Unsigned32(x: Int32): (u: int)
    ensures 0 <= u < 0x1_0000_0000
    ensures u % 0x1_0000_0000 == x % 0x1_0000_0000
  {
    if x < 0 then x + 0x1_0000_0000 else x
  }

  /** `ByteBuffer.putInt`: the four bytes of `x`, most significant first. */
  function BigEndian(x: Int32): (b: seq<byte>)
    ensures |b| == 4
  {
    var u := Unsigned32(x);
    [(u / 256 / 256 / 256) as byte, (u / 256 / 256 % 256) as byte, (u / 256 % 256) as byte, (u % 256) as byte]
  }

  /** `ByteBuffer.getInt`: four bytes, most significant first, as a two's-complement `int`. */
  function DecodeInt32(b: seq<byte>): Int32
    requires |b| == 4
  {
    var u := ((b[0] as int * 256 + b[1] as int) * 256 + b[2] as int) * 256 + b[3] as int;
    if u < 0x8000_0000 then u else u - 0x1_0000_0000
  }

  /** Decoding the encoding of an identifier gives it back. */
  lemma BigEndianRoundTrip(x: Int32)
    ensures DecodeInt32(BigEndian(x)) == x
  {
    var u := Unsigned32(x);
    var q1 := u / 256;
    var q2 := q1 / 256;
    assert u == q1 * 256 + u % 256;
    assert q1 == q2 * 256 + q1 % 256;
    assert q2 == (q2 / 256) * 256 + q2 % 256;
    assert q2 / 256 < 256;
    var b := BigEndian(x);
    assert (b[0] as int * 256 + b[1] as int) == q2;
    assert (b[0] as int * 256 + b[1] as int) * 256 + b[2] as int == q1;
  }

  /** Every four bytes are the encoding of exactly one identifier: the one they decode to. */
  lemma BigEndianOnto(b: seq<byte>)
    requires |b| == 4
    ensures BigEndian(DecodeInt32(b)) == b
  {
    var hi := b[0] as int * 256 + b[1] as int;
    var mid := hi * 256 + b[2] as int;
    var u := mid * 256 + b[3] as int;
    assert Unsigned32(DecodeInt32(b)) == u;
    assert u / 256 == mid && u % 256 == b[3] as int;
    assert mid / 256 == hi && mid % 256 == b[2] as int;
    assert hi / 256 == b[0] as int && hi % 256 == b[1] as int;
  }

  /** Distinct identifiers have distinct encodings. */
  lemma BigEndianInjective(x: Int32, y: Int32)
    requires BigEndian(x) == BigEndian(y)
    ensures x == y
  {
    BigEndianRoundTrip(x);
    BigEndianRoundTrip(y);
  }

  /** The frame `payload` returns for an identifier. */
  function SonarFrame(x: Int32): (f: seq<byte>)
    ensures |f| == LENGTH
  {
    seq(RESERVED, _ => 0 as byte) + BigEndian(x) + seq(LENGTH - RESERVED - 4, _ => 0 as byte)
  }

  /** The frame layout, byte by byte. */
  lemma SonarFrameLayout(x: Int32)
    ensures |SonarFrame(x)| == LENGTH
    ensures forall k :: 0 <= k < RESERVED ==> SonarFrame(x)[k] == 0
    ensures SonarFrame(x)[RESERVED..RESERVED + 4] == BigEndian(x)
    ensures forall k :: RESERVED + 4 <= k < LENGTH ==> SonarFrame(x)[k] == 0
  {
    var f := SonarFrame(x);
    assert f[RESERVED..RESERVED + 4] == BigEndian(x) by {
      forall k | 0 <= k < 4
        ensures f[RESERVED + k] == BigEndian(x)[k]
      {
      }
    }
  }

  /** The identifier can be read back from any frame. */
  lemma SonarFrameRoundTrip(x: Int32)
    ensures DecodeInt32(SonarFrame(x)[RESERVED..RESERVED + 4]) == x
  {
    SonarFrameLayout(x);
    BigEndianRoundTrip(x);
  }

  /** Frames of distinct identifiers differ. */
  lemma SonarFrameInjective(x: Int32, y: Int32)
    requires SonarFrame(x) == SonarFrame(y)
    ensures x == y
  {
    SonarFrameRoundTrip(x);
    SonarFrameRoundTrip(y);
  }

  /** Identifiers 1, 256, -1 and `Integer.MIN_VALUE` in network byte order. */
  lemma BigEndianExamples()
    ensures BigEndian(1) == [0, 0, 0, 1]
    ensures BigEndian(256) == [0, 0, 1, 0]
    ensures BigEndian(-1) == [255, 255, 255, 255]
    ensures BigEndian(-0x8000_0000) == [128, 0, 0, 0]
  {
  }

  class SonarPayloadDataSupplier {
    const identifier: Int32

    constructor (identifier: Int32)
      ensures this.identifier == identifier
    {
      this.identifier := identifier;
    }

    /** `networkByteOrderData`: a four-byte buffer filled by `putInt(0, identifier)`. */
    method NetworkByteOrderData(identifier: Int32) returns (r: Data)
      ensures r.value == BigEndian(identifier)
      ensures DecodeInt32(r.value) == identifier
    {
      var u := Unsigned32(identifier);
      var buffer := new byte[4];
      buffer[0] := (u / 256 / 256 / 256) as byte;
      buffer[1] := (u / 256 / 256 % 256) as byte;
      buffer[2] := (u / 256 % 256) as byte;
      buffer[3] := (u % 256) as byte;
      r := Data(buffer[..]);
      BigEndianRoundTrip(identifier);
    }

    /**
     * `payload`: a zeroed buffer of `LENGTH` bytes, positioned after the
     * reserved bytes, into which the identifier's four bytes are put. The
     * timestamp plays no part.
     */
    method Payload(timestamp: PayloadTimestamp) returns (r: PayloadData)
      ensures r.value == SonarFrame(identifier)
      ensures |r.value| == LENGTH
      ensures forall k :: 0 <= k < RESERVED ==> r.value[k] == 0
      ensures DecodeInt32(r.value[RESERVED..RESERVED + 4]) == identifier
      ensures forall k :: RESERVED + 4 <= k < LENGTH ==> r.value[k] == 0
    {
      var buffer := new byte[LENGTH](_ => 0);
      var position := RESERVED;
      var data := NetworkByteOrderData(identifier);
      var k := 0;
      while k < |data.value|
        invariant 0 <= k <= |data.value|
        invariant position == RESERVED + k
        invariant forall j :: 0 <= j < LENGTH ==>
                    buffer[j] == if RESERVED <= j < position then data.value[j - RESERVED] else 0
      {
        buffer[position] := data.value[k];
        position := position + 1;
        k := k + 1;
      }
      r := PayloadData(buffer[..]);
      assert r.value == SonarFrame(identifier) by {
        SonarFrameLayout(identifier);
        forall j | 0 <= j < LENGTH
          ensures r.value[j] == SonarFrame(identifier)[j]
        {
          if RESERVED <= j < RESERVED + 4 {
            assert SonarFrame(identifier)[j] == SonarFrame(identifier)[RESERVED..RESERVED + 4][j - RESERVED];
          }
        }
      }
      SonarFrameRoundTrip(identifier);
    }
  }
}

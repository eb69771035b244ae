/** The data formats of src/gy87.rs: the big-endian i16 words of the sensor bursts,
    the readings they decode to, and the 48-byte little-endian payload that
    `MovementData::serialize` produces. An i16 is kept as its 16-bit two's-complement
    pattern, as the hardware sends it. */
module Samples {
  import opened Base

  // ---------------------------------------------------------------------------
  // Big-endian i16 words

  /** `i16::from_be_bytes([hi, lo])`, as a bit pattern. */
  function Word(hi: byte, lo: byte): bv16 {
    (hi as bv16 << 8) | lo as bv16
  }

  /** The high and the low byte of a word. */
  function Hi(w: bv16): byte { (w >> 8) as bv8 }
  function Lo(w: bv16): byte { (w & 0xFF) as bv8 }

  /** `w.to_be_bytes()`. */
  function WordBytes(w: bv16): (bytes: seq<byte>)
    ensures |bytes| == 2
  {
    [Hi(w), Lo(w)]
  }

  /** Decoding two bytes and encoding the word again gives the same two bytes, and
      the other way round. */
  lemma WordRoundTrip(hi: byte, lo: byte, w: bv16)
    ensures Hi(Word(hi, lo)) == hi && Lo(Word(hi, lo)) == lo
    ensures WordBytes(Word(hi, lo)) == [hi, lo]
    ensures Word(Hi(w), Lo(w)) == w
  {
  }

  /** The words of a byte string of even length, each big-endian. */
  function BeWords(bytes: seq<byte>): (ws: seq<bv16>)
    requires |bytes| % 2 == 0
    ensures |ws| == |bytes| / 2
  {
    if bytes == [] then [] else [Word(bytes[0], bytes[1])] + BeWords(bytes[2..])
  }

  /** Words laid out one after another, each big-endian. */
  function BeBytes(ws: seq<bv16>): (bytes: seq<byte>)
    ensures |bytes| == 2 * |ws|
  {
    if ws == [] then [] else WordBytes(ws[0]) + BeBytes(ws[1..])
  }

  /** Word i of a byte string is built from bytes 2i and 2i+1. */
  lemma {:induction false} BeWordsLayout(bytes: seq<byte>, i: nat)
    requires |bytes| % 2 == 0 && i < |bytes| / 2
    ensures BeWords(bytes)[i] == Word(bytes[2 * i], bytes[2 * i + 1])
  {
    if i > 0 {
      BeWordsLayout(bytes[2..], i - 1);
    }
  }

  lemma {:induction false} BeWordsOfBeBytes(ws: seq<bv16>)
    ensures BeWords(BeBytes(ws)) == ws
  {
    if ws != [] {
      var bytes := BeBytes(ws);
      assert bytes[0] == Hi(ws[0]) && bytes[1] == Lo(ws[0]) && bytes[2..] == BeBytes(ws[1..]);
      WordRoundTrip(0, 0, ws[0]);
      BeWordsOfBeBytes(ws[1..]);
    }
  }

  lemma {:induction false} BeBytesOfBeWords(bytes: seq<byte>)
    requires |bytes| % 2 == 0
    ensures BeBytes(BeWords(bytes)) == bytes
  {
    if bytes != [] {
      var ws := BeWords(bytes);
      assert ws[0] == Word(bytes[0], bytes[1]) && ws[1..] == BeWords(bytes[2..]);
      WordRoundTrip(bytes[0], bytes[1], 0);
      BeBytesOfBeWords(bytes[2..]);
      assert bytes == [bytes[0], bytes[1]] + bytes[2..];
    }
  }

  // ---------------------------------------------------------------------------
  // Sensor samples

  /** A raw three-axis sample, before the float scaling of the source. */
  datatype Vec3 = Vec3(x: bv16, y: bv16, z: bv16)

  datatype AccelGyro = AccelGyro(accel: Vec3, gyro: Vec3)

  /** The 14-byte burst from ACCEL_GYRO_READ as seven big-endian words: accelerometer
      X, Y, Z, the temperature (unused), gyroscope X, Y, Z. Each axis is decoded from
      its own two bytes, high byte first: accelerometer at 0..6, gyroscope at 8..14. */
  function DecodeAccelGyro(w: seq<byte>): (s: AccelGyro)
    requires |w| == 14
    ensures s.accel == Vec3(Word(w[0], w[1]), Word(w[2], w[3]), Word(w[4], w[5]))
    ensures s.gyro == Vec3(Word(w[8], w[9]), Word(w[10], w[11]), Word(w[12], w[13]))
  {
    BeWordsLayout(w, 0); BeWordsLayout(w, 1); BeWordsLayout(w, 2);
    BeWordsLayout(w, 4); BeWordsLayout(w, 5); BeWordsLayout(w, 6);
    var ws := BeWords(w);
    AccelGyro(Vec3(ws[0], ws[1], ws[2]), Vec3(ws[4], ws[5], ws[6]))
  }

  /** The burst the sensor sends for a sample and a temperature reading. */
  function EncodeAccelGyro(s: AccelGyro, temperature: bv16): (w: seq<byte>)
    ensures |w| == 14
  {
    BeBytes([s.accel.x, s.accel.y, s.accel.z, temperature, s.gyro.x, s.gyro.y, s.gyro.z])
  }

  /** Decoding recovers the sample from the burst whatever the temperature is, and
      every burst is the encoding of its decoded sample and its temperature word. */
  lemma AccelGyroRoundTrip(s: AccelGyro, temperature: bv16, w: seq<byte>)
    requires |w| == 14
    ensures DecodeAccelGyro(EncodeAccelGyro(s, temperature)) == s
    ensures EncodeAccelGyro(DecodeAccelGyro(w), Word(w[6], w[7])) == w
  {
    BeWordsOfBeBytes([s.accel.x, s.accel.y, s.accel.z, temperature, s.gyro.x, s.gyro.y, s.gyro.z]);
    var ws := BeWords(w);
    BeWordsLayout(w, 3);
    assert [ws[0], ws[1], ws[2], Word(w[6], w[7]), ws[4], ws[5], ws[6]] == ws;
    BeBytesOfBeWords(w);
  }

  /** The 6-byte burst from MAG_READ, which the magnetometer sends in wire order
      X, Z, Y; the result is in X, Y, Z order: X from bytes 0..2, Z from 2..4 and Y
      from 4..6, high byte first. */
  function DecodeMag(w: seq<byte>): (v: Vec3)
    requires |w| == 6
    ensures v == Vec3(Word(w[0], w[1]), Word(w[4], w[5]), Word(w[2], w[3]))
  {
    BeWordsLayout(w, 0); BeWordsLayout(w, 1); BeWordsLayout(w, 2);
    var ws := BeWords(w);
    Vec3(ws[0], ws[2], ws[1])
  }

  /** The burst the magnetometer sends for a field reading, in wire order X, Z, Y. */
  function EncodeMag(v: Vec3): (w: seq<byte>)
    ensures |w| == 6
  {
    BeBytes([v.x, v.z, v.y])
  }

  /** Decoding the wire order recovers the field reading, and every burst is the
      encoding of what it decodes to. */
  lemma MagRoundTrip(v: Vec3, w: seq<byte>)
    requires |w| == 6
    ensures DecodeMag(EncodeMag(v)) == v
    ensures EncodeMag(DecodeMag(w)) == w
  {
    BeWordsOfBeBytes([v.x, v.z, v.y]);
    var ws := BeWords(w);
    assert [ws[0], ws[1], ws[2]] == ws;
    BeBytesOfBeWords(w);
  }

  // ---------------------------------------------------------------------------
  // Filter input and output

  /** One input to the fusion filter: the samples of a cycle and the clock reading
      taken after them minus the previous timestamp, in clock ticks. */
  datatype FusionInput = FusionInput(gyro: Vec3, accel: Vec3, mag: Vec3, elapsed: int)

  /** The filter's orientation, each angle an f64 bit pattern. */
  datatype Euler = Euler(yaw: bv64, pitch: bv64, roll: bv64)

  /** The six f64 fields of a reading, as bit patterns; 0.0 is the pattern 0. */
  datatype MovementData = MovementData(x: bv64, y: bv64, z: bv64, yaw: bv64, pitch: bv64, roll: bv64)

  // ---------------------------------------------------------------------------
  // serialize

  /** `w.to_le_bytes()`: least significant byte first. */
  function Le(w: bv64): (bytes: seq<byte>)
    ensures |bytes| == 8
  {
    [(w & 0xFF) as bv8, ((w >> 8) & 0xFF) as bv8, ((w >> 16) & 0xFF) as bv8, ((w >> 24) & 0xFF) as bv8,
     ((w >> 32) & 0xFF) as bv8, ((w >> 40) & 0xFF) as bv8, ((w >> 48) & 0xFF) as bv8, ((w >> 56) & 0xFF) as bv8]
  }

  /** `u64::from_le_bytes`. */
  function FromLe(bytes: seq<byte>): bv64
    requires |bytes| == 8
  {
    Pack(bytes[0], bytes[1], bytes[2], bytes[3], bytes[4], bytes[5], bytes[6], bytes[7])
  }

  /** The word whose bytes, least significant first, are b0 .. b7. */
  function Pack(b0: byte, b1: byte, b2: byte, b3: byte, b4: byte, b5: byte, b6: byte, b7: byte): bv64 {
    (b0 as bv64) | (b1 as bv64 << 8) | (b2 as bv64 << 16) | (b3 as bv64 << 24) |
    (b4 as bv64 << 32) | (b5 as bv64 << 40) | (b6 as bv64 << 48) | (b7 as bv64 << 56)
  }

  lemma PackBytes(b0: byte, b1: byte, b2: byte, b3: byte, b4: byte, b5: byte, b6: byte, b7: byte)
    ensures var w := Pack(b0, b1, b2, b3, b4, b5, b6, b7);
      (w & 0xFF) as bv8 == b0 && ((w >> 8) & 0xFF) as bv8 == b1 && ((w >> 16) & 0xFF) as bv8 == b2 &&
      ((w >> 24) & 0xFF) as bv8 == b3 && ((w >> 32) & 0xFF) as bv8 == b4 && ((w >> 40) & 0xFF) as bv8 == b5 &&
      ((w >> 48) & 0xFF) as bv8 == b6 && ((w >> 56) & 0xFF) as bv8 == b7
  {
  }

  lemma FromLeOfLe(w: bv64)
    ensures FromLe(Le(w)) == w
  {
    var b := Le(w);
    assert b[0] == (w & 0xFF) as bv8;
    assert b[1] == ((w >> 8) & 0xFF) as bv8;
    assert b[2] == ((w >> 16) & 0xFF) as bv8;
    assert b[3] == ((w >> 24) & 0xFF) as bv8;
    assert b[4] == ((w >> 32) & 0xFF) as bv8;
    assert b[5] == ((w >> 40) & 0xFF) as bv8;
    assert b[6] == ((w >> 48) & 0xFF) as bv8;
    assert b[7] == ((w >> 56) & 0xFF) as bv8;
  }

  lemma LeOfFromLe(bytes: seq<byte>)
    requires |bytes| == 8
    ensures Le(FromLe(bytes)) == bytes
  {
    PackBytes(bytes[0], bytes[1], bytes[2], bytes[3], bytes[4], bytes[5], bytes[6], bytes[7]);
    assert bytes == [bytes[0], bytes[1], bytes[2], bytes[3], bytes[4], bytes[5], bytes[6], bytes[7]];
  }

  /** The fields of a reading in serialisation order. */
  function Fields(m: MovementData): (ws: seq<bv64>)
    ensures |ws| == 6
  {
    [m.x, m.y, m.z, m.yaw, m.pitch, m.roll]
  }

  /** Words laid out one after another, each little-endian. */
  function Words(ws: seq<bv64>): (bytes: seq<byte>)
    ensures |bytes| == 8 * |ws|
  {
    if ws == [] then [] else Le(ws[0]) + Words(ws[1..])
  }

  /** The words of a byte string whose length is a multiple of 8. */
  function Unwords(bytes: seq<byte>): (ws: seq<bv64>)
    requires |bytes| % 8 == 0
    ensures |ws| == |bytes| / 8
  {
    if bytes == [] then [] else [FromLe(bytes[..8])] + Unwords(bytes[8..])
  }

  /** Bytes 8i..8i+8 hold word i. */
  lemma {:induction false} WordsLayout(ws: seq<bv64>, i: nat)
    requires i < |ws|
    ensures Words(ws)[8 * i..8 * i + 8] == Le(ws[i])
  {
    if i > 0 {
      WordsLayout(ws[1..], i - 1);
      assert Words(ws)[8 * i..8 * i + 8] == Words(ws[1..])[8 * (i - 1)..8 * (i - 1) + 8];
    }
  }

  lemma {:induction false} UnwordsOfWords(ws: seq<bv64>)
    ensures Unwords(Words(ws)) == ws
  {
    if ws != [] {
      var bytes := Words(ws);
      assert bytes[..8] == Le(ws[0]) && bytes[8..] == Words(ws[1..]);
      FromLeOfLe(ws[0]);
      UnwordsOfWords(ws[1..]);
    }
  }

  lemma {:induction false} WordsOfUnwords(bytes: seq<byte>)
    requires |bytes| % 8 == 0
    ensures Words(Unwords(bytes)) == bytes
  {
    if bytes != [] {
      var ws := Unwords(bytes);
      assert ws[0] == FromLe(bytes[..8]) && ws[1..] == Unwords(bytes[8..]);
      LeOfFromLe(bytes[..8]);
      WordsOfUnwords(bytes[8..]);
      assert bytes == bytes[..8] + bytes[8..];
    }
  }

  /** `MovementData::serialize`: x, y, z, yaw, pitch, roll, each little-endian. */
  function Serialization(m: MovementData): (bytes: seq<byte>)
    ensures |bytes| == 48
  {
    Words(Fields(m))
  }

  /** The reading that a 48-byte payload encodes: every payload is the serialisation
      of the reading it decodes to. */
  function Deserialize(bytes: seq<byte>): (m: MovementData)
    requires |bytes| == 48
    ensures Serialization(m) == bytes
  {
    WordsOfUnwords(bytes);
    var ws := Unwords(bytes);
    assert Fields(MovementData(ws[0], ws[1], ws[2], ws[3], ws[4], ws[5])) == ws;
    MovementData(ws[0], ws[1], ws[2], ws[3], ws[4], ws[5])
  }

  /** Bytes 8i..8i+8 of the payload are the little-endian encoding of field i. */
  lemma SerializationLayout(m: MovementData, i: nat)
    requires i < 6
    ensures Serialization(m)[8 * i..8 * i + 8] == Le(Fields(m)[i])
  {
    WordsLayout(Fields(m), i);
  }

  /** The payload up to the end of field k is the payload up to its start followed by
      field k's little-endian bytes. */
  lemma SerializationPrefix(m: MovementData, k: nat)
    requires k < 6
    ensures Serialization(m)[..8 * k + 8] == Serialization(m)[..8 * k] + Le(Fields(m)[k])
  {
    var s := Serialization(m);
    SerializationLayout(m, k);
    assert s[..8 * k + 8] == s[..8 * k] + s[8 * k..8 * k + 8];
  }

  /** Decoding the six words recovers the reading bit for bit; with the contract of
      Deserialize, serialisation and deserialisation are inverse bijections. */
  lemma SerializationRoundTrip(m: MovementData)
    ensures Deserialize(Serialization(m)) == m
  {
    UnwordsOfWords(Fields(m));
  }
}

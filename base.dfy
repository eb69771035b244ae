/** Types shared by every component: bytes, results, and the byte/char conversions
    that the AT protocol and command strings need. */
module Base {

  /** A byte on the sensor bus or the serial line (Rust's `u8`). */
  type byte = bv8

  datatype Option<+T> = None | Some(value: T)

  /** Rust's `Result<T, E>`; `Result<(), E>` is written with the unit type. */
  datatype Result<+T, +E> = Ok(value: T) | Err(error: E)

  /** Rust's `b as char` for `b: u8`: byte b becomes the scalar value U+00bb. */
  function ByteChar(b: byte): (c: char)
    ensures c as int == b as int
  {
    b as char
  }

  /** The bytes of a command string, which the source writes with `as_bytes()`.
      For the ASCII command strings used here this is exactly their UTF-8 encoding. */
  function AsciiBytes(s: string): (b: seq<byte>)
    ensures |b| == |s|
    ensures forall i :: 0 <= i < |s| ==> b[i] == CharByte(s[i])
  {
    seq(|s|, i requires 0 <= i < |s| => CharByte(s[i]))
  }

  /** The byte of a char below U+0100, which is its one UTF-8 byte when it is ASCII.
      Every command string is ASCII, so the 0 for wider chars never reaches the line. */
  function CharByte(c: char): (b: byte)
    ensures c < 256 as char ==> b as int == c as int
  {
    if c < 256 as char then ByteOf(c as int) else 0
  }

  /** The byte holding the number n, counted up from zero. */
  function ByteOf(n: nat): (b: byte)
    requires n < 256
    ensures b as int == n
  {
    if n == 0 then 0 else ByteOf(n - 1) + 1
  }

  predicate IsAscii(s: string) {
    forall i :: 0 <= i < |s| ==> s[i] < 128 as char
  }

  predicate AllAscii(bs: seq<byte>) {
    forall i :: 0 <= i < |bs| ==> bs[i] < 0x80
  }

  /** Every byte mapped to a char, in order. */
  function Chars(bs: seq<byte>): (s: string)
    ensures |s| == |bs|
    ensures forall i :: 0 <= i < |bs| ==> s[i] == ByteChar(bs[i])
  {
    seq(|bs|, i requires 0 <= i < |bs| => ByteChar(bs[i]))
  }

  /** Decoding bytes to chars and encoding an ASCII text back agree: a received window
      reads as an ASCII token exactly when it holds that token's bytes. */
  lemma CharsIsToken(bs: seq<byte>, token: string)
    requires IsAscii(token)
    ensures Chars(bs) == token <==> bs == AsciiBytes(token)
  {
    if |bs| == |token| {
      forall i | 0 <= i < |bs| ensures Chars(bs)[i] == token[i] <==> bs[i] == AsciiBytes(token)[i] {
        CharRoundTrip(bs[i], token[i]);
      }
    }
  }

  /** A byte decodes to an ASCII char exactly when it is that char's byte. */
  lemma CharRoundTrip(b: byte, c: char)
    requires c < 128 as char
    ensures ByteChar(b) == c <==> b == CharByte(c)
  {
    assert ByteChar(b) as int == b as int;
    assert CharByte(c) as int == c as int;
  }
}

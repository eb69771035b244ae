/** The capacity-bounded byte-to-string decoder of src/util.rs. A heapless `String<N>`
    stores UTF-8: a byte below 0x80 becomes a one-byte char, any other byte a two-byte
    char, and a push that does not fit the capacity N fails without writing anything. */
module Util {
  import opened Base

  datatype StringFromBufError = StringFromBufError

  /** Bytes of UTF-8 storage that `b as char` takes. */
  function Utf8Width(b: byte): nat {
    if b < 0x80 then 1 else 2
  }

  /** Bytes of UTF-8 storage that the chars of `bs` take together. */
  function Utf8Len(bs: seq<byte>): nat {
    if bs == [] then 0 else Utf8Len(bs[..|bs| - 1]) + Utf8Width(bs[|bs| - 1])
  }

  /** The bytes that `buf.iter().skip(skip)` yields: none once `skip` reaches the end. */
  function Tail(buf: seq<byte>, skip: nat): seq<byte> {
    if skip < |buf| then buf[skip..] else []
  }

  /** What `string_from_buf_with_skip::<capacity>(buf, skip)` returns. */
  function StringFromBuf(buf: seq<byte>, skip: nat, capacity: nat): Result<string, StringFromBufError> {
    var tail := Tail(buf, skip);
    if Utf8Len(tail) <= capacity then Ok(Chars(tail)) else Err(StringFromBufError)
  }

  /** Each char takes one or two bytes, and exactly one each iff all bytes are ASCII. */
  lemma {:induction false} Utf8LenBounds(bs: seq<byte>)
    ensures |bs| <= Utf8Len(bs) <= 2 * |bs|
    ensures Utf8Len(bs) == |bs| <==> AllAscii(bs)
  {
    if bs != [] {
      var front := bs[..|bs| - 1];
      Utf8LenBounds(front);
      if AllAscii(bs) {
        assert AllAscii(front) by {
          forall i | 0 <= i < |front| ensures front[i] < 0x80 { assert front[i] == bs[i]; }
        }
      }
      if AllAscii(front) && bs[|bs| - 1] < 0x80 {
        assert AllAscii(bs) by {
          forall i | 0 <= i < |bs| ensures bs[i] < 0x80 {
            if i < |bs| - 1 { assert bs[i] == front[i]; }
          }
        }
      }
    }
  }

  /** The storage of a prefix never exceeds that of the whole. */
  lemma {:induction false} Utf8LenPrefix(bs: seq<byte>, k: nat)
    requires k <= |bs|
    ensures Utf8Len(bs[..k]) <= Utf8Len(bs)
    decreases |bs|
  {
    if k < |bs| {
      var front := bs[..|bs| - 1];
      assert Utf8Len(bs) == Utf8Len(front) + Utf8Width(bs[|bs| - 1]);
      assert bs[..k] == front[..k];
      Utf8LenPrefix(front, k);
      assert Utf8Len(bs[..k]) == Utf8Len(front[..k]);
    } else {
      assert bs[..k] == bs;
    }
  }

  /** The loop of the source: push every byte after `skip` as a char, failing on the
      first push that does not fit `capacity` bytes of storage. */
  method StringFromBufWithSkip(buf: seq<byte>, skip: nat, capacity: nat)
    returns (r: Result<string, StringFromBufError>)
    ensures r == StringFromBuf(buf, skip, capacity)
  {
    var tail := Tail(buf, skip);
    var s: string := [];
    var used: nat := 0;
    for k := 0 to |tail|
      invariant s == Chars(tail[..k])
      invariant used == Utf8Len(tail[..k]) <= capacity
    {
      var width := Utf8Width(tail[k]);
      assert tail[..k + 1][..k] == tail[..k];
      if used + width > capacity {
        Utf8LenPrefix(tail, k + 1);
        return Err(StringFromBufError);
      }
      s := s + [ByteChar(tail[k])];
      used := used + width;
    }
    assert tail[..|tail|] == tail;
    return Ok(s);
  }

  /** Decoding yields the bytes after `skip`, in order, one char each, and nothing
      else, so a string never has more chars than `capacity`; an error means those
      bytes need more than `capacity` bytes of storage even at two bytes a char. */
  lemma DecodedIsTail(buf: seq<byte>, skip: nat, capacity: nat)
    ensures var r := StringFromBuf(buf, skip, capacity);
      r.Ok? ==> |r.value| == |Tail(buf, skip)| <= capacity &&
                forall i :: 0 <= i < |r.value| ==> r.value[i] as int == buf[skip + i] as int
    ensures StringFromBuf(buf, skip, capacity).Err? ==> capacity < 2 * |Tail(buf, skip)|
  {
    Utf8LenBounds(Tail(buf, skip));
  }

  /** Skipping to or past the end gives the empty string, never an error. */
  lemma SkipPastEnd(buf: seq<byte>, skip: nat, capacity: nat)
    requires |buf| <= skip
    ensures StringFromBuf(buf, skip, capacity) == Ok("")
  {
  }

  /** For an all-ASCII tail the capacity error happens iff more than `capacity` bytes
      follow `skip`; any byte at or above 0x80 takes two bytes of storage. */
  lemma AsciiCapacity(buf: seq<byte>, skip: nat, capacity: nat)
    requires AllAscii(Tail(buf, skip))
    ensures StringFromBuf(buf, skip, capacity).Err? <==> |buf| - skip > capacity
  {
    Utf8LenBounds(Tail(buf, skip));
  }

  /** With exactly `capacity` bytes after `skip`, decoding fails iff one of them is not ASCII. */
  lemma ExactWindow(buf: seq<byte>, skip: nat, capacity: nat)
    requires skip + capacity == |buf|
    ensures StringFromBuf(buf, skip, capacity).Err? <==> !AllAscii(buf[skip..])
  {
    Utf8LenBounds(Tail(buf, skip));
    if capacity == 0 {
      assert Tail(buf, skip) == [] == buf[skip..];
    }
  }

  /** The bytes before `skip` never influence the result or the error. */
  lemma SkippedBytesIgnored(buf1: seq<byte>, buf2: seq<byte>, skip: nat, capacity: nat)
    requires |buf1| == |buf2| && skip <= |buf1|
    requires buf1[skip..] == buf2[skip..]
    ensures StringFromBuf(buf1, skip, capacity) == StringFromBuf(buf2, skip, capacity)
  {
  }
}

/** The serial line to the ESP8266 modem as the driver sees it: the bytes the modem
    will send, in order (its replies, window after window), the output log of every
    write and read the driver starts, and the indices of the operations at which the
    UART reports an error. */
module Uart {
  import opened Base

  datatype Event = Wrote(bytes: seq<byte>) | ReadWindow(count: nat)

  datatype Channel = Channel(rx: seq<byte>, faults: set<nat>, log: seq<Event>)

  /** The next operation on `c` completes without a fault. */
  predicate Ready(c: Channel) {
    |c.log| !in c.faults
  }

  datatype WriteOutcome = WriteOutcome(ok: bool, channel: Channel)
  datatype ReadOutcome = ReadOutcome(data: Option<seq<byte>>, channel: Channel)

  /** `serial.write(bytes)`: logged whether or not it completes; it never consumes
      received bytes. */
  function Write(c: Channel, bytes: seq<byte>): (r: WriteOutcome)
    ensures r.ok <==> Ready(c)
    ensures r.channel == c.(log := c.log + [Wrote(bytes)])
  {
    WriteOutcome(Ready(c), c.(log := c.log + [Wrote(bytes)]))
  }

  /** `serial.read(buf)` for a buffer of `count` bytes: it completes with the next
      `count` received bytes and consumes them, or fails and consumes nothing. */
  function Read(c: Channel, count: nat): (r: ReadOutcome)
    ensures r.data.Some? <==> Ready(c) && count <= |c.rx|
    ensures r.data.Some? ==> r.data.value == c.rx[..count] && r.channel.rx == c.rx[count..]
    ensures r.data.None? ==> r.channel.rx == c.rx
    ensures r.channel.log == c.log + [ReadWindow(count)] && r.channel.faults == c.faults
  {
    var logged := c.log + [ReadWindow(count)];
    if Ready(c) && count <= |c.rx| then ReadOutcome(Some(c.rx[..count]), Channel(c.rx[count..], c.faults, logged))
    else ReadOutcome(None, c.(log := logged))
  }
}

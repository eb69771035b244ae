/** The AT command/response engine of src/wifi.rs as functions of the serial channel.
    Every command writes its text once and reads one fixed-size window; the reply is
    the window after the echoed command (and any extra bytes the command skips),
    decoded byte by byte into a string of bounded capacity. */
module WifiModel {
  import opened Base
  import opened Uart
  import opened Util

  datatype WifiError =
    | Rx
    | Tx
    | BufWrite
    | CouldNotConnectToChip
    | CouldNotWriteAsPassthrough
    | CouldNotConnectUDP
    | CommandFailed

  /** The frame marker written before every position payload. */
  const MSG_START: seq<byte> := [0xAC, 0xFF, 0xAC]
  /** The frame end marker; it is declared but never written. */
  const MSG_END: seq<byte> := [0xFF, 0xAC, 0xFF]
  /** The bytes of "\r\n". */
  const CRLF: seq<byte> := [0x0D, 0x0A]

  const TEST_COMMAND: string := "AT\r\n"
  const STATION_MODE_COMMAND: string := "AT+CWMODE=1\r\n"
  const STATE_COMMAND: string := "AT+CWSTATE?\r\n"
  const JOIN_COMMAND: string := "AT+CWJAP=\"Jose\",\"reetha11\"\r\n"
  const PASSTHROUGH_MODE_COMMAND: string := "AT+CIPMODE=1\r\n"
  const NORMAL_MODE_COMMAND: string := "AT+CIPMODE=0\r\n"
  const CLOSE_COMMAND: string := "AT+CIPCLOSE\r\n"
  const START_UDP_COMMAND: string := "AT+CIPSTART=\"UDP\",\"192.168.0.10\",4242\r\n"
  const SEND_COMMAND: string := "AT+CIPSEND\r\n"
  /** The escape sequence that leaves passthrough mode. */
  const ESCAPE: string := "+++"
  /** The only state reply that check_connected accepts. */
  const STATION_CONNECTED: string := "+CWSTATE:2,\"Jose\""

  /** The arguments of one `send_recv::<returnSize, bufSize>(command, skipExtra)` call. */
  datatype Window = Window(command: string, skipExtra: nat, returnSize: nat, bufSize: nat)

  /** The arguments of one `send_recv_with_error::<returnSize, bufSize>(command)` call. */
  datatype EchoWindow = EchoWindow(command: string, returnSize: nat, bufSize: nat)

  const TEST_WINDOW: Window := Window(TEST_COMMAND, 2, 2, 8)
  const STATION_MODE_WINDOW: Window := Window(STATION_MODE_COMMAND, 2, 2, 17)
  const STATE_WINDOW: Window := Window(STATE_COMMAND, 0, 17, 30)
  const JOIN_WINDOW: Window := Window(JOIN_COMMAND, 0, 50, 78)
  const PASSTHROUGH_MODE_WINDOW: Window := Window(PASSTHROUGH_MODE_COMMAND, 2, 2, 18)
  const NORMAL_MODE_WINDOW: Window := Window(NORMAL_MODE_COMMAND, 2, 2, 18)
  const SEND_WINDOW: Window := Window(SEND_COMMAND, 8, 1, 21)
  const CLOSE_WINDOW: EchoWindow := EchoWindow(CLOSE_COMMAND, 5, 18)
  const START_UDP_WINDOW: EchoWindow := EchoWindow(START_UDP_COMMAND, 7, 46)

  /** The window holds exactly the echoed command, the skipped bytes and the reply's
      capacity. */
  predicate Fills(w: Window) {
    |w.command| + w.skipExtra + w.returnSize == w.bufSize
  }

  /** The window holds exactly the echoed command and the reply's capacity, and has
      room for the two bytes looked at after the echo. */
  predicate FillsEcho(w: EchoWindow) {
    |w.command| + w.returnSize == w.bufSize && |w.command| + 2 <= w.bufSize
  }

  /** The result of a command together with the channel it leaves behind. */
  datatype Reply<T> = Reply(result: Result<T, WifiError>, channel: Channel)

  // ---------------------------------------------------------------------------
  // The exchange

  /** The modem link completes a command on `c`: the write and the following read of
      `size` bytes both go through, and the modem has sent at least `size` bytes. */
  predicate Answers(c: Channel, size: nat) {
    Ready(c) && |c.log| + 1 !in c.faults && size <= |c.rx|
  }

  /** `send_recv_raw` with a buffer of `size` bytes: the command is written once, then
      one window is read only if the write completed. */
  function SendRecvRaw(c: Channel, command: string, size: nat): (s: Reply<seq<byte>>)
    ensures !Ready(c) ==> s == Reply(Err(Tx), c.(log := c.log + [Wrote(AsciiBytes(command))]))
    ensures Ready(c) ==>
      s.channel.log == c.log + [Wrote(AsciiBytes(command)), ReadWindow(size)] && s.channel.faults == c.faults
    ensures s.result.Ok? <==> Answers(c, size)
    ensures Ready(c) && s.result.Err? ==> s.result.error == Rx && s.channel.rx == c.rx
    ensures s.result.Ok? ==> s.result.value == c.rx[..size] && s.channel.rx == c.rx[size..]
  {
    var w := Write(c, AsciiBytes(command));
    if !w.ok then Reply(Err(Tx), w.channel)
    else
      var r := Read(w.channel, size);
      if r.data.None? then Reply(Err(Rx), r.channel) else Reply(Ok(r.data.value), r.channel)
  }

  /** The `From<StringFromBufError>` conversion: a decoding error is BufWrite. */
  function Decoded(r: Result<string, StringFromBufError>): Result<string, WifiError> {
    if r.Ok? then Ok(r.value) else Err(BufWrite)
  }

  /** `send_recv::<returnSize, bufSize>(command, skipExtra)`: the window after the echoed
      command and `skipExtra` further bytes, decoded into `returnSize` bytes of storage. */
  function SendRecv(c: Channel, w: Window): (s: Reply<string>)
    ensures s.channel == SendRecvRaw(c, w.command, w.bufSize).channel
    ensures !Answers(c, w.bufSize) ==> s.result == Err(if Ready(c) then Rx else Tx)
    ensures Answers(c, w.bufSize) ==>
      s.result == Decoded(StringFromBuf(c.rx[..w.bufSize], |w.command| + w.skipExtra, w.returnSize))
  {
    var raw := SendRecvRaw(c, w.command, w.bufSize);
    if raw.result.Err? then Reply(Err(raw.result.error), raw.channel)
    else Reply(Decoded(StringFromBuf(raw.result.value, |w.command| + w.skipExtra, w.returnSize)), raw.channel)
  }

  /** `u8::to_ascii_lowercase`. */
  function AsciiLowercase(b: byte): byte {
    if 0x41 <= b <= 0x5A then b + 0x20 else b
  }

  /** `<[u8]>::eq_ignore_ascii_case`. */
  predicate EqIgnoreAsciiCase(a: seq<byte>, b: seq<byte>) {
    |a| == |b| && forall i :: 0 <= i < |a| ==> AsciiLowercase(a[i]) == AsciiLowercase(b[i])
  }

  /** Two bytes match "\r\n" ignoring ASCII case exactly when they are "\r\n": case
      folding only touches letters. */
  lemma CrlfIgnoringCase(w: seq<byte>)
    ensures EqIgnoreAsciiCase(CRLF, w) <==> w == CRLF
  {
    if |w| == 2 && EqIgnoreAsciiCase(CRLF, w) {
      assert AsciiLowercase(w[0]) == 0x0D && AsciiLowercase(w[1]) == 0x0A;
      assert w == [w[0], w[1]];
    }
  }

  /** Where the reply of `send_recv_with_error` starts in its window: after the echoed
      command, and after a further "\r\n" when one follows it. */
  function EchoSkip(window: seq<byte>, commandLength: nat): nat
    requires commandLength + 2 <= |window|
  {
    if EqIgnoreAsciiCase(CRLF, window[commandLength..commandLength + 2]) then commandLength + 2 else commandLength
  }

  /** `send_recv_with_error::<returnSize, bufSize>(command)`. Slicing the two bytes after
      the echo needs `|command| + 2 <= bufSize`, which both callers meet (WindowsFit). */
  function SendRecvWithError(c: Channel, w: EchoWindow): (s: Reply<string>)
    requires |w.command| + 2 <= w.bufSize
    ensures s.channel == SendRecvRaw(c, w.command, w.bufSize).channel
    ensures !Answers(c, w.bufSize) ==> s.result == Err(if Ready(c) then Rx else Tx)
    ensures Answers(c, w.bufSize) ==>
      var window := c.rx[..w.bufSize];
      var n := |w.command|;
      var skip := if window[n..n + 2] == CRLF then n + 2 else n;
      s.result == Decoded(StringFromBuf(window, skip, w.returnSize))
  {
    var raw := SendRecvRaw(c, w.command, w.bufSize);
    if raw.result.Err? then Reply(Err(raw.result.error), raw.channel)
    else
      var buf := raw.result.value;
      CrlfIgnoringCase(buf[|w.command|..|w.command| + 2]);
      Reply(Decoded(StringFromBuf(buf, EchoSkip(buf, |w.command|), w.returnSize)), raw.channel)
  }

  // ---------------------------------------------------------------------------
  // Splitting a reply into lines

  /** `s.contains("\r\n")`. */
  predicate HasCrlf(s: string) {
    exists i :: 0 <= i < |s| - 1 && s[i] == '\r' && s[i + 1] == '\n'
  }

  /** `s.split("\r\n")`: the pieces between the leftmost non-overlapping "\r\n"s. */
  function Split(s: string): (parts: seq<string>)
    ensures |parts| >= 1
    decreases |s|
  {
    if |s| < 2 then [s]
    else if s[0] == '\r' && s[1] == '\n' then [""] + Split(s[2..])
    else
      var rest := Split(s[1..]);
      [[s[0]] + rest[0]] + rest[1..]
  }

  /** The pieces put back together with "\r\n" between them. */
  function Join(parts: seq<string>): string
    requires |parts| >= 1
  {
    if |parts| == 1 then parts[0] else parts[0] + "\r\n" + Join(parts[1..])
  }

  /** Splitting loses nothing: joining the pieces gives the reply back. */
  lemma {:induction false} JoinSplit(s: string)
    ensures Join(Split(s)) == s
    decreases |s|
  {
    if |s| < 2 {
    } else if s[0] == '\r' && s[1] == '\n' {
      JoinSplit(s[2..]);
      assert s == "" + "\r\n" + s[2..];
    } else {
      JoinSplit(s[1..]);
      JoinCons(s[0], Split(s[1..]));
      assert s == [s[0]] + s[1..];
    }
  }

  /** Putting a char in front of the first piece puts it in front of the joined text. */
  lemma JoinCons(c: char, parts: seq<string>)
    requires |parts| >= 1
    ensures Join([[c] + parts[0]] + parts[1..]) == [c] + Join(parts)
  {
    var q := [[c] + parts[0]] + parts[1..];
    assert q[0] == [c] + parts[0] && q[1..] == parts[1..] && |q| == |parts|;
    if |parts| > 1 {
      var head, tail := parts[0], Join(parts[1..]);
      assert Join(q) == ([c] + head) + "\r\n" + tail;
      assert Join(parts) == head + "\r\n" + tail;
      SeqAssoc([c], head, "\r\n", tail);
    }
  }

  /** Concatenating four texts does not depend on the grouping. */
  lemma SeqAssoc(a: string, b: string, sep: string, t: string)
    ensures (a + b) + sep + t == a + (b + sep + t)
  {
  }

  /** The first piece is where the reply starts, and is empty when the reply starts
      with the separator. */
  lemma {:induction false} SplitHeadIsPrefix(s: string)
    ensures |Split(s)[0]| <= |s| && Split(s)[0] == s[..|Split(s)[0]|]
    ensures |s| >= 2 && s[0] == '\r' && s[1] == '\n' ==> Split(s)[0] == ""
    decreases |s|
  {
    if |s| >= 2 && !(s[0] == '\r' && s[1] == '\n') {
      SplitHeadIsPrefix(s[1..]);
    }
  }

  /** No piece contains the separator. */
  lemma {:induction false} SplitPiecesHaveNoCrlf(s: string)
    ensures forall p :: p in Split(s) ==> !HasCrlf(p)
    decreases |s|
  {
    if |s| < 2 {
    } else if s[0] == '\r' && s[1] == '\n' {
      SplitPiecesHaveNoCrlf(s[2..]);
    } else {
      var rest := Split(s[1..]);
      SplitPiecesHaveNoCrlf(s[1..]);
      SplitHeadIsPrefix(s[1..]);
      var head := rest[0];
      assert !HasCrlf(head);
      var first := [s[0]] + head;
      forall i | 0 <= i < |first| - 1 ensures !(first[i] == '\r' && first[i + 1] == '\n') {
        if i == 0 {
          assert first[1] == head[0] == s[1];
        } else {
          assert first[i] == head[i - 1] && first[i + 1] == head[i];
        }
      }
      forall p | p in Split(s) ensures !HasCrlf(p) {
        if p != first {
          assert p in rest[1..];
        }
      }
    }
  }

  /** A piece followed by the separator splits off as one piece. */
  lemma {:induction false} SplitAfterPiece(p: string, t: string)
    requires !HasCrlf(p)
    ensures Split(p + "\r\n" + t) == [p] + Split(t)
    decreases |p|
  {
    if p == [] {
      assert p + "\r\n" + t == "\r\n" + t;
      assert ("\r\n" + t)[2..] == t;
    } else {
      var s := p + "\r\n" + t;
      var tail := p[1..];
      assert s[1..] == tail + "\r\n" + t;
      SplitAfterPiece(tail, t);
      assert !(s[0] == '\r' && s[1] == '\n') by {
        if |p| >= 2 {
          assert s[1] == p[1];
        } else {
          assert s[1] == '\r';
        }
      }
      assert [s[0]] + tail == p;
    }
  }

  /** A piece with no separator splits into itself. */
  lemma {:induction false} SplitPiece(p: string)
    requires !HasCrlf(p)
    ensures Split(p) == [p]
    decreases |p|
  {
    if |p| >= 2 {
      var tail := p[1..];
      assert !(p[0] == '\r' && p[1] == '\n');
      SplitPiece(tail);
      assert [p[0]] + tail == p;
    }
  }

  /** Joining pieces that hold no separator and splitting again gives the pieces back. */
  lemma {:induction false} SplitJoin(parts: seq<string>)
    requires |parts| >= 1
    requires forall i :: 0 <= i < |parts| ==> !HasCrlf(parts[i])
    ensures Split(Join(parts)) == parts
    decreases |parts|
  {
    if |parts| == 1 {
      SplitPiece(parts[0]);
    } else {
      SplitJoin(parts[1..]);
      SplitAfterPiece(parts[0], Join(parts[1..]));
      assert [parts[0]] + parts[1..] == parts;
    }
  }

  /** The three lines that connect waits for. */
  const CONNECTED_LINE: string := "WIFI CONNECTED"
  const GOT_IP_LINE: string := "WIFI GOT IP"
  const OK_LINE: string := "OK"

  /** connect succeeds when each of the three lines is one of the reply's lines. */
  predicate Joined(reply: string) {
    var lines := Split(reply);
    CONNECTED_LINE in lines && GOT_IP_LINE in lines && OK_LINE in lines
  }

  /** For a reply made of any lines in any order, connect succeeds exactly when the
      three lines are among them; their order and any other lines do not matter. */
  lemma JoinedByLines(lines: seq<string>)
    requires |lines| >= 1
    requires forall i :: 0 <= i < |lines| ==> !HasCrlf(lines[i])
    ensures Joined(Join(lines)) <==> CONNECTED_LINE in lines && GOT_IP_LINE in lines && OK_LINE in lines
  {
    SplitJoin(lines);
  }

  // ---------------------------------------------------------------------------
  // The commands

  /** `test`: any completed reply other than "OK" is `Ok(false)`, not an error. */
  function Test(c: Channel): (s: Reply<bool>)
    ensures s.channel == SendRecvRaw(c, TEST_COMMAND, 8).channel
    ensures s.result.Ok? ==> Answers(c, 8)
    ensures s.result.Err? ==> s.result.error in {Tx, Rx, BufWrite}
  {
    var r := SendRecv(c, TEST_WINDOW);
    if r.result.Err? then Reply(Err(r.result.error), r.channel)
    else Reply(Ok(r.result.value == "OK"), r.channel)
  }

  /** The strict check of set_station_mode, set_passthrough_mode and set_normal_mode:
      a completed reply other than "OK" is CommandFailed. */
  function ExpectOk(c: Channel, w: Window): (s: Reply<()>)
    ensures s.channel == SendRecvRaw(c, w.command, w.bufSize).channel
    ensures s.result.Ok? ==> Answers(c, w.bufSize)
    ensures s.result.Err? ==> s.result.error in {Tx, Rx, BufWrite, CommandFailed}
  {
    var r := SendRecv(c, w);
    if r.result.Err? then Reply(Err(r.result.error), r.channel)
    else if r.result.value != "OK" then Reply(Err(CommandFailed), r.channel)
    else Reply(Ok(()), r.channel)
  }

  /** `set_station_mode`. */
  function SetStationMode(c: Channel): (s: Reply<()>)
    ensures s.channel == SendRecvRaw(c, STATION_MODE_COMMAND, 17).channel
    ensures s.result.Ok? ==> Answers(c, 17)
    ensures s.result.Err? ==> s.result.error in {Tx, Rx, BufWrite, CommandFailed}
  {
    ExpectOk(c, STATION_MODE_WINDOW)
  }

  /** `set_passthrough_mode`. */
  function SetPassthroughMode(c: Channel): (s: Reply<()>)
    ensures s.channel == SendRecvRaw(c, PASSTHROUGH_MODE_COMMAND, 18).channel
    ensures s.result.Ok? ==> Answers(c, 18)
    ensures s.result.Err? ==> s.result.error in {Tx, Rx, BufWrite, CommandFailed}
  {
    ExpectOk(c, PASSTHROUGH_MODE_WINDOW)
  }

  /** `set_normal_mode`. */
  function SetNormalMode(c: Channel): (s: Reply<()>)
    ensures s.channel == SendRecvRaw(c, NORMAL_MODE_COMMAND, 18).channel
    ensures s.result.Ok? ==> Answers(c, 18)
    ensures s.result.Err? ==> s.result.error in {Tx, Rx, BufWrite, CommandFailed}
  {
    ExpectOk(c, NORMAL_MODE_WINDOW)
  }

  /** `check_connected`: true only for the exact state reply of a station joined to
      the expected network. */
  function CheckConnected(c: Channel): (s: Reply<bool>)
    ensures s.channel == SendRecvRaw(c, STATE_COMMAND, 30).channel
    ensures s.result.Ok? ==> Answers(c, 30)
    ensures s.result.Err? ==> s.result.error in {Tx, Rx, BufWrite}
  {
    var r := SendRecv(c, STATE_WINDOW);
    if r.result.Err? then Reply(Err(r.result.error), r.channel)
    else Reply(Ok(r.result.value == STATION_CONNECTED), r.channel)
  }

  /** `connect`: one join command; a reply without the three lines is `Ok(false)`. */
  function Connect(c: Channel): (s: Reply<bool>)
    ensures s.channel == SendRecvRaw(c, JOIN_COMMAND, 78).channel
    ensures s.result.Ok? ==> Answers(c, 78)
    ensures s.result.Err? ==> s.result.error in {Tx, Rx, BufWrite}
  {
    var r := SendRecv(c, JOIN_WINDOW);
    if r.result.Err? then Reply(Err(r.result.error), r.channel)
    else Reply(Ok(Joined(r.result.value)), r.channel)
  }

  /** `disconnect_udp`: "ERR" (no connection was open) and "CLOSE" both count as done. */
  function DisconnectUdp(c: Channel): (s: Reply<()>)
    ensures s.channel == SendRecvRaw(c, CLOSE_COMMAND, 18).channel
    ensures s.result.Ok? ==> Answers(c, 18)
    ensures s.result.Err? ==> s.result.error in {Tx, Rx, BufWrite, CommandFailed}
  {
    var r := SendRecvWithError(c, CLOSE_WINDOW);
    if r.result.Err? then Reply(Err(r.result.error), r.channel)
    else if r.result.value != "ERR" && r.result.value != "CLOSE" then Reply(Err(CommandFailed), r.channel)
    else Reply(Ok(()), r.channel)
  }

  /** `enter_passthrough`: the modem must prompt with ">". */
  function EnterPassthrough(c: Channel): (s: Reply<()>)
    ensures s.channel == SendRecvRaw(c, SEND_COMMAND, 21).channel
    ensures s.result.Ok? ==> Answers(c, 21)
    ensures s.result.Err? ==> s.result.error in {Tx, Rx, BufWrite, CouldNotWriteAsPassthrough}
  {
    var r := SendRecv(c, SEND_WINDOW);
    if r.result.Err? then Reply(Err(r.result.error), r.channel)
    else if r.result.value != ">" then Reply(Err(CouldNotWriteAsPassthrough), r.channel)
    else Reply(Ok(()), r.channel)
  }

  /** `start_udp`: close, passthrough mode, then open the UDP link; the first error
      stops the rest. */
  function StartUdp(c: Channel): (s: Reply<()>)
    ensures s.channel.faults == c.faults
    ensures s.result.Err? ==>
      s.result.error in {Tx, Rx, BufWrite, CommandFailed, CouldNotConnectUDP, CouldNotWriteAsPassthrough}
  {
    var d := DisconnectUdp(c);
    if d.result.Err? then d
    else
      var p := SetPassthroughMode(d.channel);
      if p.result.Err? then p
      else OpenUdp(p.channel)
  }

  /** The second half of `start_udp`: open the UDP link, which must answer "CONNECT",
      drain six bytes, then enter passthrough. */
  function OpenUdp(c: Channel): (s: Reply<()>)
    ensures s.channel.faults == c.faults
    ensures s.result.Err? ==> s.result.error in {Tx, Rx, BufWrite, CouldNotConnectUDP, CouldNotWriteAsPassthrough}
  {
    var o := SendRecvWithError(c, START_UDP_WINDOW);
    if o.result.Err? then Reply(Err(o.result.error), o.channel)
    else if o.result.value != "CONNECT" then Reply(Err(CouldNotConnectUDP), o.channel)
    else
      var drain := Read(o.channel, 6);
      if drain.data.None? then Reply(Err(Rx), drain.channel)
      else EnterPassthrough(drain.channel)
  }

  /** `exit_passthrough`: write the escape sequence. */
  function ExitPassthrough(c: Channel): (s: Reply<()>)
    ensures s.channel == c.(log := c.log + [Wrote(AsciiBytes(ESCAPE))])
    ensures s.result.Ok? <==> Ready(c)
    ensures s.result.Err? ==> s.result.error == Tx
  {
    var w := Write(c, AsciiBytes(ESCAPE));
    if !w.ok then Reply(Err(Tx), w.channel) else Reply(Ok(()), w.channel)
  }

  /** `send_pos_data`: the start marker, then the payload only if the marker went out. */
  function SendPosData(c: Channel, data: seq<byte>): (s: Reply<()>)
    ensures s.channel.rx == c.rx && s.channel.faults == c.faults
    ensures s.result.Err? ==> s.result.error == Tx
  {
    var m := Write(c, MSG_START);
    if !m.ok then Reply(Err(Tx), m.channel)
    else
      var d := Write(m.channel, data);
      if !d.ok then Reply(Err(Tx), d.channel) else Reply(Ok(()), d.channel)
  }

  datatype SetupReply = SetupReply(result: Result<bool, WifiError>, channel: Channel, chipReady: bool)

  /** `setup`: leave passthrough and select normal mode, ignoring either error; then
      test the chip (its answer becomes `chip_ready`), select station mode and report
      whether the station is already joined. A failed test leaves `chip_ready` alone. */
  function Setup(c: Channel, chipReady: bool): (s: SetupReply)
    ensures s.result.Err? ==> s.result.error in {Tx, Rx, BufWrite, CouldNotConnectToChip, CommandFailed}
    ensures s.result.Ok? ==> s.chipReady
  {
    var e := ExitPassthrough(c);
    var n := SetNormalMode(e.channel);
    var t := Test(n.channel);
    if t.result.Err? then SetupReply(Err(t.result.error), t.channel, chipReady)
    else if !t.result.value then SetupReply(Err(CouldNotConnectToChip), t.channel, false)
    else
      var m := SetStationMode(t.channel);
      if m.result.Err? then SetupReply(Err(m.result.error), m.channel, true)
      else
        var k := CheckConnected(m.channel);
        SetupReply(k.result, k.channel, true)
  }

  /** At each of the seven send_recv calls the commands make, the window holds exactly
      the echoed command, the skipped bytes and the reply's capacity; at both
      send_recv_with_error calls it holds the echo and the capacity, so a "\r\n" after
      the echo leaves two bytes less, and the two bytes after the echo are in it. */
  lemma WindowsFit()
    ensures Fills(TEST_WINDOW) && Fills(STATION_MODE_WINDOW) && Fills(STATE_WINDOW)
    ensures Fills(JOIN_WINDOW) && Fills(PASSTHROUGH_MODE_WINDOW) && Fills(NORMAL_MODE_WINDOW)
    ensures Fills(SEND_WINDOW)
    ensures FillsEcho(CLOSE_WINDOW) && FillsEcho(START_UDP_WINDOW)
  {
  }

  // ---------------------------------------------------------------------------
  // What each command accepts

  /** A reply that is the decoded window of `size` received bytes when the window was
      answered, and the link's error otherwise, with the capacity reaching exactly
      to the end of the window: it is `token` exactly when the bytes after the skip
      are the token's bytes, and BufWrite exactly when one of them is not ASCII. */
  lemma WindowReply(r: Result<string, WifiError>, answered: bool, ready: bool, rx: seq<byte>, size: nat, skip: nat,
                    capacity: nat, token: string)
    requires answered ==> size <= |rx| && skip + capacity == size && r == Decoded(StringFromBuf(rx[..size], skip, capacity))
    requires !answered ==> r == Err(if ready then Rx else Tx)
    requires IsAscii(token)
    ensures r == Ok(token) <==> answered && rx[skip..size] == AsciiBytes(token)
    ensures r == Err(BufWrite) <==> answered && !AllAscii(rx[skip..size])
    ensures r.Ok? ==> answered && r.value == Chars(rx[skip..size])
    ensures r.Err? && r.error != BufWrite ==> !answered && (r.error == Tx <==> !ready)
  {
    if answered {
      var window := rx[..size];
      assert Tail(window, skip) == window[skip..] == rx[skip..size];
      ExactWindow(window, skip, capacity);
      CharsIsToken(rx[skip..size], token);
    }
  }

  /** When the reply's capacity reaches exactly to the end of the window, send_recv
      returns `token` exactly when the bytes after the skipped echo are the token's
      bytes, fails to decode exactly when one of them is not ASCII, and otherwise
      returns those bytes as chars. */
  lemma SendRecvToken(c: Channel, w: Window, token: string)
    requires Fills(w) && IsAscii(token)
    ensures SendRecv(c, w).result == Ok(token) <==>
      Answers(c, w.bufSize) && c.rx[|w.command| + w.skipExtra..w.bufSize] == AsciiBytes(token)
    ensures SendRecv(c, w).result == Err(BufWrite) <==>
      Answers(c, w.bufSize) && !AllAscii(c.rx[|w.command| + w.skipExtra..w.bufSize])
    ensures SendRecv(c, w).result.Ok? ==>
      SendRecv(c, w).result.value == Chars(c.rx[|w.command| + w.skipExtra..w.bufSize])
    ensures var r := SendRecv(c, w).result;
      r.Err? && r.error != BufWrite ==> !Answers(c, w.bufSize) && (r.error == Tx <==> !Ready(c))
  {
    WindowReply(SendRecv(c, w).result, Answers(c, w.bufSize), Ready(c), c.rx, w.bufSize, |w.command| + w.skipExtra,
      w.returnSize, token);
  }

  /** test: "OK" in bytes 6..8 of its window is `Ok(true)`; any other ASCII reply is
      `Ok(false)`, never an error; the only errors are the link's and the decoder's. */
  lemma TestReply(c: Channel)
    ensures var r := Test(c).result;
      (r == Ok(true) <==> Answers(c, 8) && c.rx[6..8] == AsciiBytes("OK")) &&
      (r == Ok(false) <==> Answers(c, 8) && AllAscii(c.rx[6..8]) && c.rx[6..8] != AsciiBytes("OK")) &&
      (r.Err? ==> r.error == Tx || r.error == Rx || r.error == BufWrite)
  {
    SendRecvToken(c, TEST_WINDOW, "OK");
  }

  /** The OK check: "OK" after the echo and two skipped bytes succeeds, any other ASCII
      reply is CommandFailed. */
  lemma ExpectOkReply(c: Channel, w: Window)
    requires Fills(w)
    ensures var r := ExpectOk(c, w).result; var skip := |w.command| + w.skipExtra;
      (r.Ok? <==> Answers(c, w.bufSize) && c.rx[skip..w.bufSize] == AsciiBytes("OK")) &&
      (r == Err(CommandFailed) <==>
        Answers(c, w.bufSize) && AllAscii(c.rx[skip..w.bufSize]) && c.rx[skip..w.bufSize] != AsciiBytes("OK"))
  {
    SendRecvToken(c, w, "OK");
  }

  /** set_station_mode, set_passthrough_mode and set_normal_mode accept only "OK", in
      the last two bytes of their 17-, 18- and 18-byte windows. */
  lemma ModeCommandsReply(c: Channel)
    ensures SetStationMode(c).result.Ok? <==> Answers(c, 17) && c.rx[15..17] == AsciiBytes("OK")
    ensures SetPassthroughMode(c).result.Ok? <==> Answers(c, 18) && c.rx[16..18] == AsciiBytes("OK")
    ensures SetNormalMode(c).result.Ok? <==> Answers(c, 18) && c.rx[16..18] == AsciiBytes("OK")
    ensures SetStationMode(c).result == Err(CommandFailed) <==>
      Answers(c, 17) && AllAscii(c.rx[15..17]) && c.rx[15..17] != AsciiBytes("OK")
  {
    ExpectOkReply(c, STATION_MODE_WINDOW);
    ExpectOkReply(c, PASSTHROUGH_MODE_WINDOW);
    ExpectOkReply(c, NORMAL_MODE_WINDOW);
  }

  /** check_connected: true exactly for the state reply of a station joined to the
      expected network, filling the 17 bytes after the echo; any other ASCII reply is
      `Ok(false)`. */
  lemma CheckConnectedReply(c: Channel)
    ensures var r := CheckConnected(c).result;
      (r == Ok(true) <==> Answers(c, 30) && c.rx[13..30] == AsciiBytes(STATION_CONNECTED)) &&
      (r == Ok(false) <==> Answers(c, 30) && AllAscii(c.rx[13..30]) && c.rx[13..30] != AsciiBytes(STATION_CONNECTED))
  {
    SendRecvToken(c, STATE_WINDOW, STATION_CONNECTED);
  }

  /** connect: with an ASCII reply in the 50 bytes after the echo, the result is whether
      the three lines are among its lines; a missing line is `Ok(false)`. */
  lemma ConnectReply(c: Channel)
    ensures var r := Connect(c).result;
      (r.Ok? <==> Answers(c, 78) && AllAscii(c.rx[28..78])) &&
      (r.Ok? ==> r.value == Joined(Chars(c.rx[28..78])))
  {
    SendRecvToken(c, JOIN_WINDOW, "");
  }

  /** enter_passthrough accepts only the prompt ">" as the last byte of its window. */
  lemma EnterPassthroughReply(c: Channel)
    ensures var r := EnterPassthrough(c).result;
      (r.Ok? <==> Answers(c, 21) && c.rx[20..21] == AsciiBytes(">")) &&
      (r == Err(CouldNotWriteAsPassthrough) <==>
        Answers(c, 21) && AllAscii(c.rx[20..21]) && c.rx[20..21] != AsciiBytes(">"))
  {
    SendRecvToken(c, SEND_WINDOW, ">");
  }

  /** The reply of send_recv_with_error, when the modem answers: the chars after the
      echo, and after the "\r\n" that may follow it, if they fit `returnSize`. */
  lemma WithErrorReply(c: Channel, w: EchoWindow, token: string)
    requires |w.command| + 2 <= w.bufSize && IsAscii(token) && |token| <= w.returnSize
    requires Answers(c, w.bufSize)
    ensures var r := SendRecvWithError(c, w).result;
      var n := |w.command|;
      var skip := if c.rx[n..n + 2] == CRLF then n + 2 else n;
      r == Ok(token) <==> c.rx[skip..w.bufSize] == AsciiBytes(token)
  {
    var n := |w.command|;
    var window := c.rx[..w.bufSize];
    assert window[n..n + 2] == c.rx[n..n + 2];
    var skip := if c.rx[n..n + 2] == CRLF then n + 2 else n;
    assert Tail(window, skip) == c.rx[skip..w.bufSize];
    CharsIsToken(c.rx[skip..w.bufSize], token);
    Utf8LenBounds(c.rx[skip..w.bufSize]);
    if c.rx[skip..w.bufSize] == AsciiBytes(token) {
      assert AllAscii(AsciiBytes(token)) by {
        forall i | 0 <= i < |token| ensures AsciiBytes(token)[i] < 0x80 {
          assert token[i] < 128 as char;
        }
      }
    }
  }

  /** disconnect_udp accepts the replies "ERR" and "CLOSE" and no other. */
  lemma DisconnectUdpAccepts(c: Channel)
    ensures DisconnectUdp(c).result.Ok? <==>
      SendRecvWithError(c, CLOSE_WINDOW).result in {Ok("ERR"), Ok("CLOSE")}
  {
  }

  /** With "\r\n" after the echo, disconnect_udp succeeds exactly on "ERR": the three
      bytes left cannot hold "CLOSE". */
  lemma DisconnectUdpAfterCrlf(c: Channel)
    requires Answers(c, 18) && c.rx[13..15] == CRLF
    ensures DisconnectUdp(c).result.Ok? <==> c.rx[15..18] == AsciiBytes("ERR")
  {
    var r := SendRecvWithError(c, CLOSE_WINDOW).result;
    assert r in {Ok("ERR"), Ok("CLOSE")} <==> c.rx[15..18] == AsciiBytes("ERR") by {
      WithErrorReply(c, CLOSE_WINDOW, "ERR");
      WithErrorReply(c, CLOSE_WINDOW, "CLOSE");
      assert |c.rx[15..18]| != |AsciiBytes("CLOSE")|;
    }
    DisconnectUdpAccepts(c);
  }

  /** Without "\r\n" after the echo, disconnect_udp succeeds exactly on "CLOSE": the
      five bytes left are not "ERR". */
  lemma DisconnectUdpWithoutCrlf(c: Channel)
    requires Answers(c, 18) && c.rx[13..15] != CRLF
    ensures DisconnectUdp(c).result.Ok? <==> c.rx[13..18] == AsciiBytes("CLOSE")
  {
    var r := SendRecvWithError(c, CLOSE_WINDOW).result;
    assert r in {Ok("ERR"), Ok("CLOSE")} <==> c.rx[13..18] == AsciiBytes("CLOSE") by {
      WithErrorReply(c, CLOSE_WINDOW, "ERR");
      WithErrorReply(c, CLOSE_WINDOW, "CLOSE");
      assert |c.rx[13..18]| != |AsciiBytes("ERR")|;
    }
    DisconnectUdpAccepts(c);
  }

  /** disconnect_udp succeeds on "ERR" only when "\r\n" follows the echo, and on
      "CLOSE" only when it does not. */
  lemma DisconnectUdpReply(c: Channel)
    ensures DisconnectUdp(c).result.Ok? <==>
      Answers(c, 18) &&
      ((c.rx[13..15] == CRLF && c.rx[15..18] == AsciiBytes("ERR")) ||
       (c.rx[13..15] != CRLF && c.rx[13..18] == AsciiBytes("CLOSE")))
  {
    if Answers(c, 18) {
      if c.rx[13..15] == CRLF {
        DisconnectUdpAfterCrlf(c);
      } else {
        DisconnectUdpWithoutCrlf(c);
      }
    }
  }

  /** The UDP link opens on "CONNECT" only when no "\r\n" follows the echo: after one
      only five bytes remain in the 46-byte window. */
  lemma StartUdpConnectReply(c: Channel)
    ensures SendRecvWithError(c, START_UDP_WINDOW).result == Ok("CONNECT") <==>
      Answers(c, 46) && c.rx[39..41] != CRLF && c.rx[39..46] == AsciiBytes("CONNECT")
  {
    if Answers(c, 46) {
      WithErrorReply(c, START_UDP_WINDOW, "CONNECT");
    }
  }

  // ---------------------------------------------------------------------------
  // Order of the operations on the line

  /** `d` is `c` after some leading part of `events`, and no fault changed. */
  ghost predicate Extends(c: Channel, d: Channel, events: seq<Event>) {
    |c.log| <= |d.log| <= |c.log| + |events| &&
    d.log == c.log + events[..|d.log| - |c.log|] && d.faults == c.faults
  }

  /** The two operations of one command: its write, then the read of its window. */
  function Exchange(command: string, size: nat): seq<Event> {
    [Wrote(AsciiBytes(command)), ReadWindow(size)]
  }

  /** A command's exchange: its write, then its read only if the write went through;
      a completed exchange consumes exactly its window. */
  lemma ExchangeExtends(c: Channel, command: string, size: nat)
    ensures var d := SendRecvRaw(c, command, size);
      Extends(c, d.channel, Exchange(command, size)) && |d.channel.log| > |c.log| &&
      (d.result.Ok? ==> |d.channel.log| == |c.log| + 2 && |c.rx| >= size && d.channel.rx == c.rx[size..])
  {
    var events := Exchange(command, size);
    assert events[..1] == [Wrote(AsciiBytes(command))];
    assert events[..2] == events;
  }

  /** Running a full `first` and then a leading part of `second` is a leading part of
      both together. */
  lemma ExtendsThen(c: Channel, d: Channel, e: Channel, first: seq<Event>, second: seq<Event>)
    requires Extends(c, d, first) && |d.log| == |c.log| + |first| && Extends(d, e, second)
    ensures Extends(c, e, first + second)
  {
    var k := |e.log| - |d.log|;
    assert (first + second)[..|first| + k] == first + second[..k];
    assert d.log == c.log + first;
  }

  /** A leading part of `first` is a leading part of `first + second`. */
  lemma ExtendsPrefix(c: Channel, d: Channel, first: seq<Event>, second: seq<Event>)
    requires Extends(c, d, first)
    ensures Extends(c, d, first + second)
  {
    var k := |d.log| - |c.log|;
    assert (first + second)[..k] == first[..k];
  }

  /** A bare read of `count` bytes, as start_udp's drain. */
  lemma ReadExtends(c: Channel, count: nat)
    ensures Extends(c, Read(c, count).channel, [ReadWindow(count)])
    ensures |Read(c, count).channel.log| == |c.log| + 1
  {
    assert [ReadWindow(count)][..1] == [ReadWindow(count)];
  }




  /** Every transaction of the second half of `start_udp` on success, in order. */
  const OPEN_UDP_EVENTS: seq<Event> :=
    Exchange(START_UDP_COMMAND, 46) + [ReadWindow(6)] + Exchange(SEND_COMMAND, 21)

  /** Every transaction of `start_udp` on success, in order. */
  const START_UDP_EVENTS: seq<Event> :=
    Exchange(CLOSE_COMMAND, 18) + Exchange(PASSTHROUGH_MODE_COMMAND, 18) + OPEN_UDP_EVENTS

  /** The second half of start_udp issues CIPSTART, the six-byte drain and CIPSEND in
      that order, stopping at the first error; on success it has consumed the 73 bytes
      of its three windows. */
  lemma OpenUdpOrder(c: Channel)
    ensures var s := OpenUdp(c);
      Extends(c, s.channel, OPEN_UDP_EVENTS) && |s.channel.log| > |c.log| &&
      (s.result.Ok? ==> |s.channel.log| == |c.log| + 5 && |c.rx| >= 73 && s.channel.rx == c.rx[73..])
  {
    var open := Exchange(START_UDP_COMMAND, 46);
    var send := Exchange(SEND_COMMAND, 21);
    var o := SendRecvWithError(c, START_UDP_WINDOW);
    ExchangeExtends(c, START_UDP_COMMAND, 46);
    if o.result.Err? || o.result.value != "CONNECT" {
      ExtendsPrefix(c, o.channel, open, [ReadWindow(6)]);
      ExtendsPrefix(c, o.channel, open + [ReadWindow(6)], send);
      return;
    }
    var drain := Read(o.channel, 6);
    ReadExtends(o.channel, 6);
    ExtendsThen(c, o.channel, drain.channel, open, [ReadWindow(6)]);
    if drain.data.None? {
      ExtendsPrefix(c, drain.channel, open + [ReadWindow(6)], send);
      return;
    }
    var e := EnterPassthrough(drain.channel);
    ExchangeExtends(drain.channel, SEND_COMMAND, 21);
    ExtendsThen(c, drain.channel, e.channel, open + [ReadWindow(6)], send);
    if e.result.Ok? {
      assert c.rx[46..][6..][21..] == c.rx[73..];
    }
  }

  /** start_udp issues CIPCLOSE, CIPMODE=1, CIPSTART, the six-byte drain and CIPSEND in
      that order and stops at the first error: what it does is always a leading part of
      that script, all of it on success, when it has consumed the 109 bytes of the five
      windows. */
  lemma StartUdpOrder(c: Channel)
    ensures var s := StartUdp(c);
      Extends(c, s.channel, START_UDP_EVENTS) && |s.channel.log| > |c.log| &&
      (s.result.Ok? ==> |s.channel.log| == |c.log| + 9 && |c.rx| >= 109 && s.channel.rx == c.rx[109..])
  {
    var close := Exchange(CLOSE_COMMAND, 18);
    var mode := Exchange(PASSTHROUGH_MODE_COMMAND, 18);
    var d := DisconnectUdp(c);
    ExchangeExtends(c, CLOSE_COMMAND, 18);
    if d.result.Err? {
      ExtendsPrefix(c, d.channel, close, mode);
      ExtendsPrefix(c, d.channel, close + mode, OPEN_UDP_EVENTS);
      return;
    }
    var p := SetPassthroughMode(d.channel);
    ExchangeExtends(d.channel, PASSTHROUGH_MODE_COMMAND, 18);
    ExtendsThen(c, d.channel, p.channel, close, mode);
    if p.result.Err? {
      ExtendsPrefix(c, p.channel, close + mode, OPEN_UDP_EVENTS);
      return;
    }
    OpenUdpOrder(p.channel);
    ExtendsThen(c, p.channel, OpenUdp(p.channel).channel, close + mode, OPEN_UDP_EVENTS);
    if StartUdp(c).result.Ok? {
      assert c.rx[18..][18..][73..] == c.rx[109..];
    }
  }

  /** Where the second half of start_udp stops and what it returns there: an error of
      the CIPSTART exchange is returned as is, any other reply than "CONNECT" is
      CouldNotConnectUDP with nothing more sent, a failed drain is Rx after the drain's
      read and nothing more, and after a drain enter_passthrough decides. */
  lemma OpenUdpOutcomes(c: Channel)
    ensures var o := SendRecvWithError(c, START_UDP_WINDOW); var s := OpenUdp(c);
      (o.result.Err? ==> s == Reply(Err(o.result.error), o.channel)) &&
      (o.result.Ok? && o.result.value != "CONNECT" ==>
        s == Reply(Err(CouldNotConnectUDP), o.channel) &&
        s.channel.log == c.log + Exchange(START_UDP_COMMAND, 46)) &&
      (o.result == Ok("CONNECT") && !(Ready(o.channel) && 6 <= |o.channel.rx|) ==>
        s.result == Err(Rx) && s.channel.rx == o.channel.rx &&
        s.channel.log == c.log + Exchange(START_UDP_COMMAND, 46) + [ReadWindow(6)]) &&
      (o.result == Ok("CONNECT") && Ready(o.channel) && 6 <= |o.channel.rx| ==>
        s == EnterPassthrough(Read(o.channel, 6).channel))
  {
  }

  /** start_udp stops at the first failing step and returns exactly what that step
      returned; it opens the link only after both the close and the passthrough mode
      succeeded, and then returns what opening it returns. */
  lemma StartUdpOutcomes(c: Channel)
    ensures var d := DisconnectUdp(c); var p := SetPassthroughMode(d.channel);
      (d.result.Err? ==> StartUdp(c) == d) &&
      (d.result.Ok? && p.result.Err? ==> StartUdp(c) == p) &&
      (d.result.Ok? && p.result.Ok? ==> StartUdp(c) == OpenUdp(p.channel)) &&
      (StartUdp(c).result.Ok? <==> d.result.Ok? && p.result.Ok? && OpenUdp(p.channel).result.Ok?)
  {
  }

  /** send_pos_data writes the start marker and then, only if the marker went out, the
      payload; it reads nothing and never writes the end marker unless the payload is
      that marker. */
  lemma SendPosDataLog(c: Channel, data: seq<byte>)
    ensures var s := SendPosData(c, data);
      s.channel.rx == c.rx && s.channel.faults == c.faults &&
      s.channel.log == c.log + (if Ready(c) then [Wrote(MSG_START), Wrote(data)] else [Wrote(MSG_START)]) &&
      (s.result.Ok? <==> Ready(c) && |c.log| + 1 !in c.faults) &&
      (s.result.Err? ==> s.result.error == Tx) &&
      (Wrote(MSG_END) in s.channel.log[|c.log|..] ==> data == MSG_END)
  {
    var s := SendPosData(c, data);
    assert MSG_START != MSG_END;
    if Ready(c) {
      assert s.channel.log[|c.log|..] == [Wrote(MSG_START), Wrote(data)];
    } else {
      assert s.channel.log[|c.log|..] == [Wrote(MSG_START)];
    }
  }

  /** `d`'s log is `c`'s with operations appended. */
  ghost predicate Grows(c: Channel, d: Channel) {
    |c.log| <= |d.log| && d.log[..|c.log|] == c.log
  }

  /** Commands only append to the log. */
  lemma CommandsGrow(c: Channel)
    ensures Grows(c, Test(c).channel)
    ensures Grows(c, SetStationMode(c).channel)
    ensures Grows(c, CheckConnected(c).channel)
  {
    ExchangeExtends(c, TEST_COMMAND, 8);
    ExchangeExtends(c, STATION_MODE_COMMAND, 17);
    ExchangeExtends(c, STATE_COMMAND, 30);
  }


  lemma GrowsTrans(a: Channel, b: Channel, c: Channel)
    requires Grows(a, b) && Grows(b, c)
    ensures Grows(a, c)
  {
    assert c.log[..|a.log|] == c.log[..|b.log|][..|a.log|];
  }

  /** The escape sequence and then the normal-mode command go out first. */
  lemma PreambleLog(c: Channel)
    ensures var n := SetNormalMode(ExitPassthrough(c).channel).channel;
      |n.log| >= |c.log| + 2 &&
      n.log[|c.log|] == Wrote(AsciiBytes(ESCAPE)) &&
      n.log[|c.log| + 1] == Wrote(AsciiBytes(NORMAL_MODE_COMMAND))
  {
    ExchangeExtends(ExitPassthrough(c).channel, NORMAL_MODE_COMMAND, 18);
  }

  /** After the preamble, setup only appends to the log. */
  lemma SetupGrows(c: Channel, chipReady: bool)
    ensures Grows(SetNormalMode(ExitPassthrough(c).channel).channel, Setup(c, chipReady).channel)
  {
    var n := SetNormalMode(ExitPassthrough(c).channel).channel;
    var t := Test(n);
    CommandsGrow(n);
    if t.result.Ok? && t.result.value {
      var m := SetStationMode(t.channel);
      CommandsGrow(t.channel);
      GrowsTrans(n, t.channel, m.channel);
      if m.result.Ok? {
        CommandsGrow(m.channel);
        GrowsTrans(n, m.channel, CheckConnected(m.channel).channel);
      }
    }
  }

  /** setup always starts with the escape sequence and the normal-mode command, whether
      or not either goes through. */
  lemma SetupLog(c: Channel, chipReady: bool)
    ensures var s := Setup(c, chipReady);
      |s.channel.log| >= |c.log| + 2 &&
      s.channel.log[|c.log|] == Wrote(AsciiBytes(ESCAPE)) &&
      s.channel.log[|c.log| + 1] == Wrote(AsciiBytes(NORMAL_MODE_COMMAND))
  {
    var n := SetNormalMode(ExitPassthrough(c).channel).channel;
    var s := Setup(c, chipReady).channel;
    PreambleLog(c);
    SetupGrows(c, chipReady);
    assert s.log[|c.log|] == s.log[..|n.log|][|c.log|];
    assert s.log[|c.log| + 1] == s.log[..|n.log|][|c.log| + 1];
  }

  /** setup ignores what the escape sequence and the normal-mode command return: the
      test's answer alone decides chip_ready, which a failed test leaves alone; a
      negative test, and only that, is CouldNotConnectToChip; a success is
      check_connected's answer with the chip ready; after a positive test a failing
      station-mode command is returned as is and check_connected is not sent. */
  lemma SetupOutcomes(c: Channel, chipReady: bool)
    ensures var s := Setup(c, chipReady);
      var t := Test(SetNormalMode(ExitPassthrough(c).channel).channel);
      (t.result.Err? ==> s.result == Err(t.result.error) && s.chipReady == chipReady) &&
      (t.result.Ok? ==> s.chipReady == t.result.value) &&
      (s.result == Err(CouldNotConnectToChip) <==> t.result == Ok(false)) &&
      (s.result.Ok? ==> s.chipReady && s.result == CheckConnected(SetStationMode(t.channel).channel).result) &&
      (t.result == Ok(true) ==>
        var m := SetStationMode(t.channel);
        s.chipReady &&
        s.result == (if m.result.Err? then Err(m.result.error) else CheckConnected(m.channel).result) &&
        s.channel == (if m.result.Err? then m.channel else CheckConnected(m.channel).channel))
  {
    var t := Test(SetNormalMode(ExitPassthrough(c).channel).channel);
  }
}

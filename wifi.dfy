/** The ESP8266 driver of src/wifi.rs as an object: the serial line it owns and its
    `chip_ready` flag, updated in place by its methods. Each method is proved to
    return what the function of the same name in WifiModel returns and to leave the
    line as that function says. */
module WifiDriver {
  import opened Base
  import opened Uart
  import opened Util
  import opened WifiModel

  /** The loop of `connect` over the lines of its reply: a flag per expected line,
      each set when a line equal to it is seen. */
  method ScanLines(items: seq<string>) returns (gotConnected: bool, gotIp: bool, gotOk: bool)
    ensures gotConnected <==> CONNECTED_LINE in items
    ensures gotIp <==> GOT_IP_LINE in items
    ensures gotOk <==> OK_LINE in items
  {
    gotConnected, gotIp, gotOk := false, false, false;
    for i := 0 to |items|
      invariant gotConnected <==> CONNECTED_LINE in items[..i]
      invariant gotIp <==> GOT_IP_LINE in items[..i]
      invariant gotOk <==> OK_LINE in items[..i]
    {
      var item := items[i];
      assert items[..i + 1] == items[..i] + [item];
      if item == CONNECTED_LINE {
        gotConnected := true;
      } else if item == GOT_IP_LINE {
        gotIp := true;
      } else if item == OK_LINE {
        gotOk := true;
      }
    }
    assert items[..|items|] == items;
  }

  class Wifi {
    /** The serial line to the modem. */
    var serial: Channel
    /** Whether the last completed test found the chip answering "OK". */
    var chipReady: bool

    /** `Wifi::new`: the chip is not known to be ready. */
    constructor (serial: Channel)
      ensures this.serial == serial && !chipReady
    {
      this.serial := serial;
      chipReady := false;
    }

    /** `serial.write(bytes)`. */
    method SerialWrite(bytes: seq<byte>) returns (ok: bool)
      modifies this
      ensures var w := Write(old(serial), bytes); ok == w.ok && serial == w.channel
      ensures chipReady == old(chipReady)
    {
      var w := Write(serial, bytes);
      serial := w.channel;
      ok := w.ok;
    }

    /** `serial.read(buffer)`: on completion the buffer holds the received bytes; a
        failed read leaves it as it was. */
    method SerialRead(buffer: array<byte>) returns (ok: bool)
      modifies this, buffer
      ensures var t := Read(old(serial), buffer.Length);
        serial == t.channel && ok == t.data.Some? &&
        buffer[..] == if ok then t.data.value else old(buffer[..])
      ensures chipReady == old(chipReady)
    {
      var t := Read(serial, buffer.Length);
      serial := t.channel;
      ok := t.data.Some?;
      if ok {
        var data := t.data.value;
        assert |data| == buffer.Length;
        for i := 0 to buffer.Length
          modifies buffer
          invariant buffer[..i] == data[..i]
          invariant buffer[i..] == old(buffer[i..])
        {
          buffer[i] := data[i];
          assert buffer[..i + 1] == data[..i + 1];
        }
        assert buffer[..] == buffer[..buffer.Length];
        assert data == data[..buffer.Length];
      }
    }

    /** `send_recv_raw(command, rx)`. */
    method SendRecvRaw(command: string, rx: array<byte>) returns (r: Result<(), WifiError>)
      modifies this, rx
      ensures var s := WifiModel.SendRecvRaw(old(serial), command, rx.Length);
        serial == s.channel && r.Ok? == s.result.Ok? &&
        (r.Err? ==> r.error == s.result.error) &&
        (r.Ok? ==> rx[..] == s.result.value)
      ensures chipReady == old(chipReady)
    {
      var wrote := SerialWrite(AsciiBytes(command));
      if !wrote {
        return Err(Tx);
      }
      var read := SerialRead(rx);
      if !read {
        return Err(Rx);
      }
      return Ok(());
    }

    /** `send_recv::<returnSize, bufSize>(command, skipExtra)`. */
    method SendRecv(w: Window) returns (r: Result<string, WifiError>)
      modifies this
      ensures var s := WifiModel.SendRecv(old(serial), w);
        r == s.result && serial == s.channel
      ensures chipReady == old(chipReady)
    {
      var buf := new byte[w.bufSize];
      var raw := SendRecvRaw(w.command, buf);
      if raw.Err? {
        return Err(raw.error);
      }
      var decoded := StringFromBufWithSkip(buf[..], |w.command| + w.skipExtra, w.returnSize);
      if decoded.Err? {
        return Err(BufWrite);
      }
      return Ok(decoded.value);
    }

    /** `send_recv_with_error::<returnSize, bufSize>(command)`. */
    method SendRecvWithError(w: EchoWindow) returns (r: Result<string, WifiError>)
      requires |w.command| + 2 <= w.bufSize
      modifies this
      ensures var s := WifiModel.SendRecvWithError(old(serial), w);
        r == s.result && serial == s.channel
      ensures chipReady == old(chipReady)
    {
      var buf := new byte[w.bufSize];
      var raw := SendRecvRaw(w.command, buf);
      if raw.Err? {
        return Err(raw.error);
      }
      var commandLen := |w.command|;
      var skip := commandLen;
      if EqIgnoreAsciiCase(CRLF, buf[commandLen..commandLen + 2]) {
        skip := commandLen + 2;
      }
      var decoded := StringFromBufWithSkip(buf[..], skip, w.returnSize);
      if decoded.Err? {
        return Err(BufWrite);
      }
      return Ok(decoded.value);
    }

    /** `test`. */
    method Test() returns (r: Result<bool, WifiError>)
      modifies this
      ensures var s := WifiModel.Test(old(serial)); r == s.result && serial == s.channel
      ensures chipReady == old(chipReady)
    {
      var res := SendRecv(TEST_WINDOW);
      if res.Err? {
        return Err(res.error);
      }
      return Ok(res.value == "OK");
    }

    /** The body shared by set_station_mode, set_passthrough_mode and set_normal_mode. */
    method ExpectOk(w: Window) returns (r: Result<(), WifiError>)
      modifies this
      ensures var s := WifiModel.ExpectOk(old(serial), w); r == s.result && serial == s.channel
      ensures chipReady == old(chipReady)
    {
      var res := SendRecv(w);
      if res.Err? {
        return Err(res.error);
      }
      if res.value != "OK" {
        return Err(CommandFailed);
      }
      return Ok(());
    }

    /** `set_station_mode`. */
    method SetStationMode() returns (r: Result<(), WifiError>)
      modifies this
      ensures var s := WifiModel.SetStationMode(old(serial)); r == s.result && serial == s.channel
      ensures chipReady == old(chipReady)
    {
      r := ExpectOk(STATION_MODE_WINDOW);
    }

    /** `set_passthrough_mode`. */
    method SetPassthroughMode() returns (r: Result<(), WifiError>)
      modifies this
      ensures var s := WifiModel.SetPassthroughMode(old(serial)); r == s.result && serial == s.channel
      ensures chipReady == old(chipReady)
    {
      r := ExpectOk(PASSTHROUGH_MODE_WINDOW);
    }

    /** `set_normal_mode`. */
    method SetNormalMode() returns (r: Result<(), WifiError>)
      modifies this
      ensures var s := WifiModel.SetNormalMode(old(serial)); r == s.result && serial == s.channel
      ensures chipReady == old(chipReady)
    {
      r := ExpectOk(NORMAL_MODE_WINDOW);
    }

    /** `check_connected`. */
    method CheckConnected() returns (r: Result<bool, WifiError>)
      modifies this
      ensures var s := WifiModel.CheckConnected(old(serial)); r == s.result && serial == s.channel
      ensures chipReady == old(chipReady)
    {
      var res := SendRecv(STATE_WINDOW);
      if res.Err? {
        return Err(res.error);
      }
      return Ok(res.value == STATION_CONNECTED);
    }

    /** `connect`. */
    method Connect() returns (r: Result<bool, WifiError>)
      modifies this
      ensures var s := WifiModel.Connect(old(serial)); r == s.result && serial == s.channel
      ensures chipReady == old(chipReady)
    {
      var res := SendRecv(JOIN_WINDOW);
      if res.Err? {
        return Err(res.error);
      }
      var gotConnected, gotIp, gotOk := ScanLines(Split(res.value));
      return Ok(gotConnected && gotIp && gotOk);
    }

    /** `disconnect_udp`. */
    method DisconnectUdp() returns (r: Result<(), WifiError>)
      modifies this
      ensures var s := WifiModel.DisconnectUdp(old(serial)); r == s.result && serial == s.channel
      ensures chipReady == old(chipReady)
    {
      var recv := SendRecvWithError(CLOSE_WINDOW);
      if recv.Err? {
        return Err(recv.error);
      }
      if recv.value != "ERR" && recv.value != "CLOSE" {
        return Err(CommandFailed);
      }
      return Ok(());
    }

    /** `start_udp`. */
    method StartUdp() returns (r: Result<(), WifiError>)
      modifies this
      ensures var s := WifiModel.StartUdp(old(serial)); r == s.result && serial == s.channel
      ensures chipReady == old(chipReady)
    {
      var d := DisconnectUdp();
      if d.Err? {
        return Err(d.error);
      }
      var p := SetPassthroughMode();
      if p.Err? {
        return Err(p.error);
      }
      r := OpenUdp();
    }

    /** The second half of `start_udp`: open the link, drain six bytes, enter
        passthrough. */
    method OpenUdp() returns (r: Result<(), WifiError>)
      modifies this
      ensures var s := WifiModel.OpenUdp(old(serial)); r == s.result && serial == s.channel
      ensures chipReady == old(chipReady)
    {
      var res := SendRecvWithError(START_UDP_WINDOW);
      if res.Err? {
        return Err(res.error);
      }
      if res.value != "CONNECT" {
        return Err(CouldNotConnectUDP);
      }
      var buf := new byte[6];
      var drained := SerialRead(buf);
      if !drained {
        return Err(Rx);
      }
      r := EnterPassthrough();
    }

    /** `enter_passthrough`. */
    method EnterPassthrough() returns (r: Result<(), WifiError>)
      modifies this
      ensures var s := WifiModel.EnterPassthrough(old(serial)); r == s.result && serial == s.channel
      ensures chipReady == old(chipReady)
    {
      var res := SendRecv(SEND_WINDOW);
      if res.Err? {
        return Err(res.error);
      }
      if res.value != ">" {
        return Err(CouldNotWriteAsPassthrough);
      }
      return Ok(());
    }

    /** `exit_passthrough`. */
    method ExitPassthrough() returns (r: Result<(), WifiError>)
      modifies this
      ensures var s := WifiModel.ExitPassthrough(old(serial)); r == s.result && serial == s.channel
      ensures chipReady == old(chipReady)
    {
      var wrote := SerialWrite(AsciiBytes(ESCAPE));
      if !wrote {
        return Err(Tx);
      }
      return Ok(());
    }

    /** `send_pos_data(data)`. */
    method SendPosData(data: seq<byte>) returns (r: Result<(), WifiError>)
      modifies this
      ensures var s := WifiModel.SendPosData(old(serial), data); r == s.result && serial == s.channel
      ensures chipReady == old(chipReady)
    {
      var marked := SerialWrite(MSG_START);
      if !marked {
        return Err(Tx);
      }
      var sent := SerialWrite(data);
      if !sent {
        return Err(Tx);
      }
      return Ok(());
    }

    /** `setup`: the errors of the first two commands are dropped; `chip_ready` is
        set from a completed test. */
    method Setup() returns (r: Result<bool, WifiError>)
      modifies this
      ensures var s := WifiModel.Setup(old(serial), old(chipReady));
        r == s.result && serial == s.channel && chipReady == s.chipReady
    {
      var exited := ExitPassthrough();
      var normal := SetNormalMode();
      var t := Test();
      if t.Err? {
        return Err(t.error);
      }
      chipReady := t.value;
      if !chipReady {
        return Err(CouldNotConnectToChip);
      }
      var m := SetStationMode();
      if m.Err? {
        return Err(m.error);
      }
      r := CheckConnected();
    }
  }
}

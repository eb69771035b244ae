/** The head tracker's firmware as src/main.rs runs it: bring the modem up (setup, a
    join only when the station is not yet joined, the UDP link in passthrough mode),
    then start the sensors, then forever read the sensors and stream each reading.
    Every error during bring-up is fatal; in the loop a failed reading is skipped and
    a failed send is only reported. */
module Telemetry {
  import opened Base
  import opened Uart
  import opened I2c
  import opened Samples
  import opened Gy87Model
  import opened WifiModel
  import opened Gy87Driver
  import opened WifiDriver

  /** The error an `unwrap` during bring-up panics with, tagged by the step. */
  datatype Fatal =
    | SetupFailed(wifiCause: WifiError)
    | ConnectFailed(wifiCause: WifiError)
    | StartUdpFailed(wifiCause: WifiError)
    | SensorStartFailed(sensorCause: Gy87Error)

  datatype ModemState = ModemState(result: Result<(), Fatal>, channel: Channel, chipReady: bool)

  /** The modem half of bring-up: setup; connect only when setup reports the station
      not joined, its answer discarded; then start_udp. The chip flag is the one setup
      leaves, set whenever bring-up gets past setup, and each fatal error carries a
      cause its step can report. */
  function ModemBringUp(c: Channel, chipReady: bool): (m: ModemState)
    ensures m.chipReady == Setup(c, chipReady).chipReady
    ensures m.result.Ok? ==> m.chipReady
    ensures m.result.Err? && m.result.error.SetupFailed? ==>
      m.result.error.wifiCause in {Tx, Rx, BufWrite, CouldNotConnectToChip, CommandFailed}
    ensures m.result.Err? && m.result.error.ConnectFailed? ==> m.result.error.wifiCause in {Tx, Rx, BufWrite}
    ensures m.result.Err? && m.result.error.StartUdpFailed? ==>
      m.chipReady && m.result.error.wifiCause in {Tx, Rx, BufWrite, CommandFailed, CouldNotConnectUDP, CouldNotWriteAsPassthrough}
    ensures m.result.Err? ==> !m.result.error.SensorStartFailed?
  {
    var s := Setup(c, chipReady);
    if s.result.Err? then ModemState(Err(SetupFailed(s.result.error)), s.channel, s.chipReady)
    else
      var k := Connect(s.channel);
      if !s.result.value && k.result.Err? then ModemState(Err(ConnectFailed(k.result.error)), k.channel, s.chipReady)
      else
        var w := if s.result.value then s.channel else k.channel;
        var u := StartUdp(w);
        if u.result.Err? then ModemState(Err(StartUdpFailed(u.result.error)), u.channel, s.chipReady)
        else ModemState(Ok(()), u.channel, s.chipReady)
  }

  datatype BringUpState = BringUpState(result: Result<(), Fatal>, channel: Channel, chipReady: bool, bus: Bus)

  /** The whole bring-up: the modem, then the sensors only once the modem streams. The
      line is where the modem's bring-up left it; the bus keeps its devices and
      faults, and is untouched after a modem error. */
  function BringUp(c: Channel, chipReady: bool, b: Bus): (r: BringUpState)
    ensures r.channel == ModemBringUp(c, chipReady).channel && r.chipReady == ModemBringUp(c, chipReady).chipReady
    ensures r.bus.faults == b.faults && r.bus.devices.Keys == b.devices.Keys
    ensures |b.log| <= |r.bus.log| && r.bus.log[..|b.log|] == b.log
    ensures ModemBringUp(c, chipReady).result.Err? ==> r.bus == b && r.result == ModemBringUp(c, chipReady).result
    ensures r.result.Err? && r.result.error.SensorStartFailed? ==>
      !(r.result.error.sensorCause.UpdateGetAccelGyro? || r.result.error.sensorCause.UpdateMag? || r.result.error.sensorCause.UpdateError?)
  {
    var m := ModemBringUp(c, chipReady);
    if m.result.Err? then BringUpState(m.result, m.channel, m.chipReady, b)
    else
      var g := Start(b);
      if g.result.Err? then BringUpState(Err(SensorStartFailed(g.result.error)), m.channel, m.chipReady, g.bus)
      else BringUpState(Ok(()), m.channel, m.chipReady, g.bus)
  }

  /** Which step's error bring-up stops with: each step's error is fatal, a join that
      completes is not, whatever it answers. */
  lemma ModemFatal(c: Channel, chipReady: bool)
    ensures var s := Setup(c, chipReady); var m := ModemBringUp(c, chipReady);
      var k := Connect(s.channel);
      var w := if s.result == Ok(true) then s.channel else k.channel;
      (m.result.Err? && m.result.error.SetupFailed? <==> s.result.Err?) &&
      (m.result.Err? && m.result.error.ConnectFailed? <==> s.result == Ok(false) && k.result.Err?) &&
      (m.result.Err? && m.result.error.StartUdpFailed? <==>
        (s.result == Ok(true) || (s.result == Ok(false) && k.result.Ok?)) && StartUdp(w).result.Err?) &&
      (m.result.Ok? <==>
        (s.result == Ok(true) || (s.result == Ok(false) && k.result.Ok?)) && StartUdp(w).result.Ok?) &&
      (m.result.Err? ==> !m.result.error.SensorStartFailed?) &&
      m.chipReady == s.chipReady
  {
  }

  /** A log that extends another by a nonempty leading part of `events` starts with
      `events`' first operation. */
  lemma ExtendsHead(c: Channel, d: Channel, events: seq<Event>)
    requires Extends(c, d, events) && |d.log| > |c.log|
    ensures Grows(c, d) && d.log[|c.log|] == events[0]
  {
    assert d.log[|c.log|] == events[..|d.log| - |c.log|][0];
  }

  /** connect's first operation is the join command. */
  lemma ConnectStarts(c: Channel)
    ensures var d := Connect(c).channel; Grows(c, d) && |d.log| > |c.log| && d.log[|c.log|] == Wrote(AsciiBytes(JOIN_COMMAND))
  {
    ExchangeExtends(c, JOIN_COMMAND, 78);
    ExtendsHead(c, Connect(c).channel, Exchange(JOIN_COMMAND, 78));
  }

  /** start_udp's first operation is the close command. */
  lemma StartUdpStarts(c: Channel)
    ensures var d := StartUdp(c).channel; Grows(c, d) && |d.log| > |c.log| && d.log[|c.log|] == Wrote(AsciiBytes(CLOSE_COMMAND))
  {
    StartUdpOrder(c);
    ExtendsHead(c, StartUdp(c).channel, START_UDP_EVENTS);
  }

  /** The channel the modem's bring-up ends on: setup's after a setup error, connect's
      after a join error, start_udp's otherwise. */
  lemma ModemChannel(c: Channel, chipReady: bool)
    ensures var s := Setup(c, chipReady); var k := Connect(s.channel); var m := ModemBringUp(c, chipReady).channel;
      (s.result.Err? ==> m == s.channel) &&
      (s.result == Ok(false) && k.result.Err? ==> m == k.channel) &&
      (s.result == Ok(false) && k.result.Ok? ==> m == StartUdp(k.channel).channel) &&
      (s.result == Ok(true) ==> m == StartUdp(s.channel).channel)
  {
  }

  /** The order of the modem's operations after setup: a join command comes next
      exactly when setup reported the station not joined, the close command of
      start_udp otherwise; after a completed join, whatever it answered, start_udp's
      close command follows; a setup error ends bring-up with setup's last operation. */
  lemma ModemOrder(c: Channel, chipReady: bool)
    ensures var s := Setup(c, chipReady).channel; var m := ModemBringUp(c, chipReady).channel;
      Grows(s, m) &&
      (Setup(c, chipReady).result.Err? ==> m == s) &&
      (Setup(c, chipReady).result == Ok(false) ==> |m.log| > |s.log| && m.log[|s.log|] == Wrote(AsciiBytes(JOIN_COMMAND))) &&
      (Setup(c, chipReady).result == Ok(true) ==> |m.log| > |s.log| && m.log[|s.log|] == Wrote(AsciiBytes(CLOSE_COMMAND)))
    ensures var s := Setup(c, chipReady); var k := Connect(s.channel).channel; var m := ModemBringUp(c, chipReady).channel;
      s.result == Ok(false) && Connect(s.channel).result.Ok? ==>
        Grows(k, m) && |m.log| > |k.log| && m.log[|k.log|] == Wrote(AsciiBytes(CLOSE_COMMAND))
  {
    var s := Setup(c, chipReady);
    var m := ModemBringUp(c, chipReady).channel;
    ModemChannel(c, chipReady);
    if s.result == Ok(true) {
      StartUdpStarts(s.channel);
    } else if s.result == Ok(false) {
      var k := Connect(s.channel).channel;
      ConnectStarts(s.channel);
      if Connect(s.channel).result.Ok? {
        StartUdpStarts(k);
        GrowsTrans(s.channel, k, m);
        assert m.log[|s.channel.log|] == m.log[..|k.log|][|s.channel.log|];
      }
    }
  }

  /** The sensors start only once the modem streams: until then the bus sees no
      transaction, and the modem's line is untouched by the sensor step. */
  lemma SensorsLast(c: Channel, chipReady: bool, b: Bus)
    ensures var m := ModemBringUp(c, chipReady); var r := BringUp(c, chipReady, b);
      r.channel == m.channel && r.chipReady == m.chipReady &&
      (m.result.Err? ==> r.bus == b && r.result == m.result) &&
      (m.result.Ok? ==> r.bus == Start(b).bus) &&
      (r.result.Ok? <==> m.result.Ok? && Start(b).result.Ok?) &&
      (r.result.Err? && r.result.error.SensorStartFailed? <==> m.result.Ok? && Start(b).result.Err?) &&
      (r.result.Err? && r.result.error.SensorStartFailed? ==> r.result.error.sensorCause == Start(b).result.error)
  {
  }

  // ---------------------------------------------------------------------------
  // The streaming loop

  /** What the loop carries between cycles: the timestamp of the last reading that
      completed, the sensors' bus and filter inputs, and the modem's line. */
  datatype LoopState = LoopState(prev: int, bus: Bus, history: seq<FusionInput>, channel: Channel)

  /** One cycle: `now` is the clock as update reads it, `later` the clock read after an
      update that completed. A failed update sends nothing and keeps `prev`; a
      completed one moves `prev` to `later` and streams the serialized reading, and
      the send's result is dropped. */
  function Cycle(s: LoopState, orientation: seq<FusionInput> -> Euler, now: int, later: int): (t: LoopState)
    ensures t.bus.faults == s.bus.faults && t.bus.devices.Keys == s.bus.devices.Keys
    ensures t.channel.rx == s.channel.rx && t.channel.faults == s.channel.faults
    ensures |s.history| <= |t.history| <= |s.history| + 1 && t.history[..|s.history|] == s.history
    ensures |t.history| == |s.history| ==> t.prev == s.prev && t.channel == s.channel
    ensures |t.history| == |s.history| + 1 ==> t.prev == later
  {
    var u := Update(s.bus, s.history, orientation, s.prev, now);
    if u.result.Err? then s.(bus := u.bus)
    else LoopState(later, u.bus, u.history, SendPosData(s.channel, Serialization(u.result.value)).channel)
  }

  /** The cycles for a finite run of clock readings, one pair per cycle: the filter
      gains at most one input per reading and keeps the ones it had; the bus keeps its
      devices and faults, and the modem's answers and faults stay as they were. */
  function Run(s: LoopState, orientation: seq<FusionInput> -> Euler, clock: seq<(int, int)>): (t: LoopState)
    ensures t.bus.faults == s.bus.faults && t.bus.devices.Keys == s.bus.devices.Keys
    ensures t.channel.rx == s.channel.rx && t.channel.faults == s.channel.faults
    ensures |s.history| <= |t.history| <= |s.history| + |clock| && t.history[..|s.history|] == s.history
    decreases |clock|
  {
    if clock == [] then s
    else
      var last := clock[|clock| - 1];
      var p := Run(s, orientation, clock[..|clock| - 1]);
      var t := Cycle(p, orientation, last.0, last.1);
      assert t.history[..|s.history|] == t.history[..|p.history|][..|s.history|];
      t
  }

  /** One more reading is one more cycle. */
  lemma RunStep(s: LoopState, orientation: seq<FusionInput> -> Euler, clock: seq<(int, int)>, i: nat)
    requires i < |clock|
    ensures Run(s, orientation, clock[..i + 1]) == Cycle(Run(s, orientation, clock[..i]), orientation, clock[i].0, clock[i].1)
  {
    assert clock[..i + 1][..i] == clock[..i];
  }

  /** A failed reading is skipped: nothing is sent, `prev` and the filter are kept. */
  lemma SkippedCycle(s: LoopState, orientation: seq<FusionInput> -> Euler, now: int, later: int)
    requires Update(s.bus, s.history, orientation, s.prev, now).result.Err?
    ensures var t := Cycle(s, orientation, now, later);
      t.prev == s.prev && t.history == s.history && t.channel == s.channel &&
      t.bus == Update(s.bus, s.history, orientation, s.prev, now).bus
  {
  }

  /** A completed reading is streamed: the start marker, then (when the marker went
      out) exactly its 48-byte serialization, from which the reading is recovered;
      `prev` moves to `later` whether or not the send succeeds. */
  lemma ReportedCycle(s: LoopState, orientation: seq<FusionInput> -> Euler, now: int, later: int)
    requires Update(s.bus, s.history, orientation, s.prev, now).result.Ok?
    ensures var m := Update(s.bus, s.history, orientation, s.prev, now).result.value;
      var t := Cycle(s, orientation, now, later);
      var payload := Serialization(m);
      t.prev == later && |payload| == 48 && Deserialize(payload) == m &&
      t.channel.rx == s.channel.rx && t.channel.faults == s.channel.faults &&
      t.channel.log == s.channel.log + (if Ready(s.channel) then [Wrote(MSG_START), Wrote(payload)] else [Wrote(MSG_START)])
  {
    var m := Update(s.bus, s.history, orientation, s.prev, now).result.value;
    SendPosDataLog(s.channel, Serialization(m));
    SerializationRoundTrip(m);
  }

  /** Running two stretches of readings one after the other is running them together. */
  lemma {:induction false} RunAppend(s: LoopState, orientation: seq<FusionInput> -> Euler, a: seq<(int, int)>, b: seq<(int, int)>)
    ensures Run(s, orientation, a + b) == Run(Run(s, orientation, a), orientation, b)
    decreases |b|
  {
    if b == [] {
      assert a + b == a;
    } else {
      var front := b[..|b| - 1];
      RunAppend(s, orientation, a, front);
      assert (a + b)[..|a + b| - 1] == a + front;
    }
  }

  /** A streamed operation: the start marker or a 48-byte payload. */
  predicate Payload(e: Event) {
    e.Wrote? && |e.bytes| == 48
  }

  /** From `from` on, the log holds only start markers and payloads, and every payload
      comes right after a start marker. */
  ghost predicate Framed(log: seq<Event>, from: nat) {
    forall i {:trigger log[i]} :: from <= i < |log| ==>
      log[i] == Wrote(MSG_START) || (Payload(log[i]) && i > from && log[i - 1] == Wrote(MSG_START))
  }

  /** What one cycle may append: nothing, a start marker alone, or a start marker and a
      payload. */
  ghost predicate Frames(added: seq<Event>) {
    added == [] || added == [Wrote(MSG_START)] ||
    (|added| == 2 && added[0] == Wrote(MSG_START) && Payload(added[1]))
  }

  /** A cycle appends frames only, and never reads. */
  lemma CycleStreams(s: LoopState, orientation: seq<FusionInput> -> Euler, now: int, later: int)
    ensures var t := Cycle(s, orientation, now, later).channel;
      |t.log| >= |s.channel.log| && t.log == s.channel.log + t.log[|s.channel.log|..] &&
      Frames(t.log[|s.channel.log|..]) && t.rx == s.channel.rx && t.faults == s.channel.faults
  {
    var t := Cycle(s, orientation, now, later).channel;
    if Update(s.bus, s.history, orientation, s.prev, now).result.Ok? {
      ReportedCycle(s, orientation, now, later);
    } else {
      assert t.log[|s.channel.log|..] == [];
    }
  }

  /** Appending frames keeps a framed log framed. */
  lemma FramedAppend(log: seq<Event>, from: nat, added: seq<Event>)
    requires from <= |log| && Framed(log, from) && Frames(added)
    ensures Framed(log + added, from)
  {
    var t := log + added;
    forall i | from <= i < |t|
      ensures t[i] == Wrote(MSG_START) || (Payload(t[i]) && i > from && t[i - 1] == Wrote(MSG_START))
    {
      if i < |log| {
        assert t[i] == log[i];
        if i > from {
          assert t[i - 1] == log[i - 1];
        }
      } else if i == |log| {
        assert t[i] == added[0] == Wrote(MSG_START);
      } else {
        assert |added| == 2 && t[i] == added[1] && t[i - 1] == added[0];
      }
    }
  }

  /** The loop only writes frames and never reads: it appends start markers, each
      followed by at most its payload, keeps what the modem has sent, and keeps the
      log before it. */
  lemma {:induction false} RunStreams(s: LoopState, orientation: seq<FusionInput> -> Euler, clock: seq<(int, int)>)
    ensures var t := Run(s, orientation, clock);
      Grows(s.channel, t.channel) && t.channel.rx == s.channel.rx && t.channel.faults == s.channel.faults &&
      Framed(t.channel.log, |s.channel.log|)
    decreases |clock|
  {
    if clock != [] {
      var last := clock[|clock| - 1];
      var p := Run(s, orientation, clock[..|clock| - 1]);
      RunStreams(s, orientation, clock[..|clock| - 1]);
      var t := Cycle(p, orientation, last.0, last.1);
      CycleStreams(p, orientation, last.0, last.1);
      FramedAppend(p.channel.log, |s.channel.log|, t.channel.log[|p.channel.log|..]);
      GrowsTrans(s.channel, p.channel, t.channel);
    }
  }

  // ---------------------------------------------------------------------------
  // The firmware on the driver objects

  /** src/main.rs lines 38-44: the modem's bring-up on the driver. */
  method ModemBringUpOn(wifi: Wifi) returns (r: Result<(), Fatal>)
    modifies wifi
    ensures var s := ModemBringUp(old(wifi.serial), old(wifi.chipReady));
      r == s.result && wifi.serial == s.channel && wifi.chipReady == s.chipReady
  {
    var connected := wifi.Setup();
    if connected.Err? {
      return Err(SetupFailed(connected.error));
    }
    if !connected.value {
      var joined := wifi.Connect();
      if joined.Err? {
        return Err(ConnectFailed(joined.error));
      }
    }
    var udp := wifi.StartUdp();
    if udp.Err? {
      return Err(StartUdpFailed(udp.error));
    }
    return Ok(());
  }

  /** src/main.rs lines 38-61: the modem, then the sensors; an `Err` is where `unwrap` panics. */
  method BringUpOn(wifi: Wifi, gy87: Gy87) returns (r: Result<(), Fatal>)
    modifies wifi, gy87
    ensures var s := BringUp(old(wifi.serial), old(wifi.chipReady), old(gy87.bus));
      r == s.result && wifi.serial == s.channel && wifi.chipReady == s.chipReady && gy87.bus == s.bus
    ensures gy87.history == old(gy87.history)
  {
    r := ModemBringUpOn(wifi);
    if r.Err? {
      return;
    }
    var started := gy87.Start();
    if started.Err? {
      return Err(SensorStartFailed(started.error));
    }
    return Ok(());
  }

  /** One pass of the loop body of src/main.rs lines 71-78; returns the new `prev`. */
  method StreamCycle(wifi: Wifi, gy87: Gy87, prev: int, now: int, later: int) returns (next: int)
    modifies wifi, gy87
    ensures Cycle(LoopState(prev, old(gy87.bus), old(gy87.history), old(wifi.serial)), gy87.orientation, now, later)
      == LoopState(next, gy87.bus, gy87.history, wifi.serial)
    ensures wifi.chipReady == old(wifi.chipReady)
  {
    next := prev;
    var data := gy87.Update(prev, now);
    if data.Ok? {
      next := later;
      var bytes := Serialize(data.value);
      var sent := wifi.SendPosData(bytes);
    }
  }

  /** src/main.rs lines 68-79 for a finite run of clock readings, starting from the timestamp
      `prev`; returns the `prev` the loop holds afterwards. */
  method Stream(wifi: Wifi, gy87: Gy87, prev: int, clock: seq<(int, int)>) returns (last: int)
    modifies wifi, gy87
    ensures var t := Run(LoopState(prev, old(gy87.bus), old(gy87.history), old(wifi.serial)), gy87.orientation, clock);
      last == t.prev && gy87.bus == t.bus && gy87.history == t.history && wifi.serial == t.channel
    ensures wifi.chipReady == old(wifi.chipReady)
  {
    ghost var start := LoopState(prev, gy87.bus, gy87.history, wifi.serial);
    last := prev;
    var i := 0;
    while i < |clock|
      invariant 0 <= i <= |clock|
      invariant Run(start, gy87.orientation, clock[..i]) == LoopState(last, gy87.bus, gy87.history, wifi.serial)
      invariant wifi.chipReady == old(wifi.chipReady)
    {
      var reading := clock[i];
      RunStep(start, gy87.orientation, clock, i);
      last := StreamCycle(wifi, gy87, last, reading.0, reading.1);
      i := i + 1;
    }
    assert clock[..|clock|] == clock;
  }
}

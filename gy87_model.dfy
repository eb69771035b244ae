/** What the GY-87 driver of src/gy87.rs does to the I2C bus, as functions from the
    bus before a call to the result and the bus after it. The class in gy87.dfy runs
    each operation step by step and is proved to agree with these functions; the
    lemmas here state what the operations promise. */
module Gy87Model {
  import opened Base
  import opened BitField
  import opened Constants
  import opened I2c
  import opened Samples

  datatype BusError = BusWrite | BusReadWrite

  datatype Gy87Error =
    | BusError(cause: BusError)
    | HmcInit(cause: BusError)
    | MpuInit(cause: BusError)
    | UpdateGetAccelGyro(cause: BusError)
    | UpdateMag(cause: BusError)
    | UpdateError
    | UnknownMPUDeviceAddr(observed: byte)
    | UnknownHMCDeviceAddr(identity: seq<byte>)

  /** The result of a driver call together with the bus it leaves behind. */
  datatype BusStep<T, E> = BusStep(result: Result<T, E>, bus: Bus)

  // ---------------------------------------------------------------------------
  // get_byte, get_bytes and the register write

  /** `get_byte`: a one-byte write-read; a failed transfer is BusReadWrite. */
  function GetByte(b: Bus, device: byte, addr: byte): (s: BusStep<byte, BusError>)
    ensures s.bus == b.(log := b.log + [WriteRead(device, addr, 1)])
    ensures s.result.Ok? <==> Acks(b, device)
    ensures s.result.Ok? ==> s.result.value == Register(b, device, addr)
    ensures s.result.Err? ==> s.result.error == BusReadWrite
  {
    var t := TransferRead(b, device, addr, 1);
    if t.data.Some? then BusStep(Ok(t.data.value[0]), t.bus) else BusStep(Err(BusReadWrite), t.bus)
  }

  /** `get_bytes` into a buffer of `count` bytes. */
  function GetBytes(b: Bus, device: byte, addr: byte, count: nat): (s: BusStep<seq<byte>, BusError>)
    ensures s.bus == b.(log := b.log + [WriteRead(device, addr, count)])
    ensures s.result.Ok? <==> Acks(b, device)
    ensures s.result.Ok? ==> s.result.value == Burst(Regs(b, device), addr, count)
    ensures s.result.Err? ==> s.result.error == BusReadWrite
  {
    var t := TransferRead(b, device, addr, count);
    if t.data.Some? then BusStep(Ok(t.data.value), t.bus) else BusStep(Err(BusReadWrite), t.bus)
  }

  /** `blocking_write(device, &[addr, value])` with its error mapped to BusWrite. */
  function Send(b: Bus, device: byte, addr: byte, value: byte): (s: BusStep<(), BusError>)
    ensures s.bus == TransferWrite(b, device, addr, value).bus
    ensures s.result.Ok? <==> Acks(b, device)
    ensures s.result.Err? ==> s.result.error == BusWrite
  {
    var t := TransferWrite(b, device, addr, value);
    if t.ok then BusStep(Ok(()), t.bus) else BusStep(Err(BusWrite), t.bus)
  }

  // ---------------------------------------------------------------------------
  // write_bit and write_bits

  /** The bus discipline of the read-modify-write helpers: one write-read of the
      register, then, only if it completed, one write of `[addr, written]`. A failed read
      is BusReadWrite and writes nothing; a failed write is BusWrite and changes no
      register; a completed write stores `written` and changes nothing else. */
  ghost predicate ReadModifyWrite(b: Bus, s: BusStep<(), BusError>, device: byte, addr: byte, written: byte)
    requires Present(b, device)
  {
    var read := b.(log := b.log + [WriteRead(device, addr, 1)]);
    if !Acks(b, device) then
      s == BusStep(Err(BusReadWrite), read)
    else
      s.bus.log == read.log + [Write(device, addr, written)] && s.bus.faults == b.faults &&
      if Acks(read, device) then s.result == Ok(()) && s.bus.devices == Stored(b, device, addr, written)
      else s.result == Err(BusWrite) && s.bus.devices == b.devices
  }

  /** A completed read-modify-write stores `written` in its register and changes no
      other register of any device. */
  lemma ReadModifyWriteStores(b: Bus, s: BusStep<(), BusError>, device: byte, addr: byte, written: byte)
    requires Present(b, device) && ReadModifyWrite(b, s, device, addr, written) && s.result.Ok?
    ensures Acks(b, device) && Present(s.bus, device)
    ensures s.bus.devices == Stored(b, device, addr, written)
    ensures Register(s.bus, device, addr) == written
    ensures forall r: byte :: r != addr ==> Register(s.bus, device, r) == Register(b, device, r)
    ensures forall d :: d in b.devices && d != device as int ==> s.bus.devices[d] == b.devices[d]
  {
    assert Regs(s.bus, device) == Regs(b, device)[addr as int := written];
  }

  /** The transactions of a read-modify-write: one read, then one write only if the
      read completed; the result is BusReadWrite exactly when the read failed and Ok
      exactly when the write completed too. */
  lemma ReadModifyWriteLog(b: Bus, s: BusStep<(), BusError>, device: byte, addr: byte, written: byte)
    requires Present(b, device) && ReadModifyWrite(b, s, device, addr, written)
    ensures s.bus.faults == b.faults && s.bus.devices.Keys == b.devices.Keys
    ensures !Acks(b, device) ==> s.bus.log == b.log + [WriteRead(device, addr, 1)] && s.result == Err(BusReadWrite)
    ensures Acks(b, device) ==>
      s.bus.log == b.log + [WriteRead(device, addr, 1), Write(device, addr, written)] && s.result != Err(BusReadWrite)
    ensures s.result.Ok? <==> Acks(b, device) && |b.log| + 1 !in b.faults
  {
  }

  /** `write_bit`. */
  function WriteBit(b: Bus, device: byte, addr: byte, bit: byte, enable: bool): (s: BusStep<(), BusError>)
    requires bit < 8
    ensures !Present(b, device) ==> s == BusStep(Err(BusReadWrite), b.(log := b.log + [WriteRead(device, addr, 1)]))
    ensures Present(b, device) ==>
      ReadModifyWrite(b, s, device, addr, WithBit(Register(b, device, addr), bit, enable))
  {
    var g := GetByte(b, device, addr);
    if g.result.Err? then BusStep(Err(g.result.error), g.bus)
    else Send(g.bus, device, addr, WithBit(g.result.value, bit, enable))
  }

  /** `write_bits`, with the shift `start_bit - length + 1` taken as the intended
      FieldShift (see ShiftAsWritten for the u8 expression as written). */
  function WriteBits(b: Bus, device: byte, addr: byte, startBit: byte, length: byte, data: byte): (s: BusStep<(), BusError>)
    requires ValidField(startBit, length)
    ensures !Present(b, device) ==> s == BusStep(Err(BusReadWrite), b.(log := b.log + [WriteRead(device, addr, 1)]))
    ensures Present(b, device) ==>
      ReadModifyWrite(b, s, device, addr, Splice(Register(b, device, addr), startBit, length, data))
  {
    var g := GetByte(b, device, addr);
    if g.result.Err? then BusStep(Err(g.result.error), g.bus)
    else Send(g.bus, device, addr, Splice(g.result.value, startBit, length, data))
  }

  /** After a completed write_bits every bit outside the field keeps its prior value
      and the field reads back the value cut to its width; no other register of any
      device changes. */
  lemma WriteBitsKeepsOtherBits(b: Bus, device: byte, addr: byte, startBit: byte, length: byte, data: byte)
    requires ValidField(startBit, length)
    requires WriteBits(b, device, addr, startBit, length, data).result.Ok?
    ensures Present(b, device)
    ensures var s := WriteBits(b, device, addr, startBit, length, data);
      var after := Register(s.bus, device, addr);
      var prior := Register(b, device, addr);
      var mask := FieldMask(startBit, length);
      after & !mask == prior & !mask &&
      Field(after, startBit, length) == data & ((1 << length) - 1) &&
      (forall r: byte :: r != addr ==> Register(s.bus, device, r) == Register(b, device, r)) &&
      (forall d :: d in b.devices && d != device as int ==> s.bus.devices[d] == b.devices[d])
  {
    var s := WriteBits(b, device, addr, startBit, length, data);
    var written := Splice(Register(b, device, addr), startBit, length, data);
    ReadModifyWriteStores(b, s, device, addr, written);
    FieldOfSplice(Register(b, device, addr), startBit, length, data);
  }

  /** After a completed write_bit the register differs from its prior value at most in
      bit `bit`, which then equals `enable`; no other register of any device changes. */
  lemma WriteBitChangesOneBit(b: Bus, device: byte, addr: byte, bit: byte, enable: bool)
    requires bit < 8
    requires WriteBit(b, device, addr, bit, enable).result.Ok?
    ensures Present(b, device)
    ensures var s := WriteBit(b, device, addr, bit, enable);
      var after := Register(s.bus, device, addr);
      var prior := Register(b, device, addr);
      BitSet(after, bit) == enable && after & !(1 << bit) == prior & !(1 << bit) &&
      (forall r: byte :: r != addr ==> Register(s.bus, device, r) == Register(b, device, r)) &&
      (forall d :: d in b.devices && d != device as int ==> s.bus.devices[d] == b.devices[d])
  {
    var s := WriteBit(b, device, addr, bit, enable);
    ReadModifyWriteStores(b, s, device, addr, WithBit(Register(b, device, addr), bit, enable));
  }

  // ---------------------------------------------------------------------------
  // mpu_init: a fixed sequence of read-modify-writes that stops at the first error

  /** One read-modify-write call of mpu_init: `write_bit(reg, bit, enable)` or
      `write_bits(reg, startBit, length, value)`. */
  datatype RegOp =
    | SetBit(reg: byte, bit: byte, enable: bool)
    | SetField(reg: byte, startBit: byte, length: byte, value: byte)

  predicate ValidOp(op: RegOp) {
    match op
    case SetBit(_, bit, _) => bit < 8
    case SetField(_, startBit, length, _) => ValidField(startBit, length)
  }

  predicate AllValid(ops: seq<RegOp>) {
    forall i :: 0 <= i < |ops| ==> ValidOp(ops[i])
  }

  /** The byte an operation writes back over `prior`. */
  function Modified(op: RegOp, prior: byte): byte
    requires ValidOp(op)
  {
    match op
    case SetBit(_, bit, enable) => WithBit(prior, bit, enable)
    case SetField(_, startBit, length, value) => Splice(prior, startBit, length, value)
  }

  /** The call the operation stands for. */
  function Perform(b: Bus, device: byte, op: RegOp): (s: BusStep<(), BusError>)
    requires ValidOp(op)
    ensures !Present(b, device) ==> s == BusStep(Err(BusReadWrite), b.(log := b.log + [WriteRead(device, op.reg, 1)]))
    ensures Present(b, device) ==>
      ReadModifyWrite(b, s, device, op.reg, Modified(op, Register(b, device, op.reg)))
  {
    match op
    case SetBit(reg, bit, enable) => WriteBit(b, device, reg, bit, enable)
    case SetField(reg, startBit, length, value) => WriteBits(b, device, reg, startBit, length, value)
  }

  /** The operations in order, each `?`-propagating its error. It only appends to the
      log, at least one and at most two transactions per operation, changes no fault,
      adds or removes no device, and succeeds on a non-empty list only when the device
      is on the bus. */
  function Sequence(b: Bus, device: byte, ops: seq<RegOp>): (r: BusStep<(), BusError>)
    requires AllValid(ops)
    ensures r.bus.faults == b.faults && r.bus.devices.Keys == b.devices.Keys
    ensures |b.log| <= |r.bus.log| <= |b.log| + 2 * |ops| && r.bus.log[..|b.log|] == b.log
    ensures ops != [] ==> |r.bus.log| > |b.log|
    ensures ops != [] && r.result.Ok? ==> Present(b, device)
    decreases |ops|
  {
    if ops == [] then BusStep(Ok(()), b)
    else
      var s := Perform(b, device, ops[0]);
      PerformCounts(b, device, ops[0]);
      if s.result.Err? then s
      else
        var t := Sequence(s.bus, device, ops[1..]);
        assert t.bus.log[..|b.log|] == t.bus.log[..|s.bus.log|][..|b.log|];
        t
  }

  /** The register file after one operation completes on it. */
  function Apply(op: RegOp, regs: Registers): Registers
    requires ValidOp(op)
  {
    regs[op.reg as int := Modified(op, regs[op.reg as int])]
  }

  /** The register file after all operations complete, one after another. */
  function ApplyAll(ops: seq<RegOp>, regs: Registers): Registers
    requires AllValid(ops)
    decreases |ops|
  {
    if ops == [] then regs else ApplyAll(ops[1..], Apply(ops[0], regs))
  }

  /** A transaction with its written value blanked out: which device, which register
      and which kind of transfer. */
  function Shape(t: Transaction): Transaction {
    match t
    case WriteRead(_, _, _) => t
    case Write(device, reg, _) => Write(device, reg, 0)
  }

  function Shapes(log: seq<Transaction>): (r: seq<Transaction>)
    ensures |r| == |log| && forall i :: 0 <= i < |log| ==> r[i] == Shape(log[i])
  {
    seq(|log|, i requires 0 <= i < |log| => Shape(log[i]))
  }

  /** The transactions of one operation that completes: a one-byte write-read of its
      register, then a write to that register. */
  function OpScript(device: byte, op: RegOp): seq<Transaction> {
    [WriteRead(device, op.reg, 1), Write(device, op.reg, 0)]
  }

  /** The transactions of a sequence that runs to completion, operation by operation. */
  function Script(device: byte, ops: seq<RegOp>): (r: seq<Transaction>)
    ensures |r| == 2 * |ops|
  {
    if ops == [] then [] else OpScript(device, ops[0]) + Script(device, ops[1..])
  }

  /** `after` is `before` followed by a prefix of `script`, up to written values. */
  ghost predicate AppendsPrefix(before: seq<Transaction>, after: seq<Transaction>, script: seq<Transaction>) {
    |before| <= |after| <= |before| + |script| && after[..|before|] == before &&
    Shapes(after[|before|..]) == script[..|after| - |before|]
  }

  lemma ShapesAppend(a: seq<Transaction>, c: seq<Transaction>)
    ensures Shapes(a + c) == Shapes(a) + Shapes(c)
  {
  }

  /** One operation appends one transaction (its read failed) or two, which have the
      shape of its script; it changes no fault and adds or removes no device. It
      fails with BusReadWrite exactly when the read is not acknowledged and succeeds
      exactly when the read and then the write are. */
  lemma PerformLog(b: Bus, device: byte, op: RegOp)
    requires ValidOp(op)
    ensures AppendsPrefix(b.log, Perform(b, device, op).bus.log, OpScript(device, op))
    ensures var s := Perform(b, device, op); var n := |s.bus.log| - |b.log|;
      1 <= n && s.bus.faults == b.faults && s.bus.devices.Keys == b.devices.Keys &&
      (s.result == Err(BusReadWrite) <==> n == 1) && (s.result == Err(BusReadWrite) <==> !Acks(b, device))
    ensures var s := Perform(b, device, op);
      s.result.Ok? <==> Acks(b, device) && |b.log| + 1 !in b.faults
  {
    var s := Perform(b, device, op);
    var read := WriteRead(device, op.reg, 1);
    PerformCounts(b, device, op);
    if Present(b, device) {
      var w := Write(device, op.reg, Modified(op, Register(b, device, op.reg)));
      ReadModifyWriteLog(b, s, device, op.reg, w.value);
      if Acks(b, device) {
        assert s.bus.log[|b.log|..] == [read, w];
        assert Shapes([read, w]) == OpScript(device, op);
      } else {
        assert s.bus.log[|b.log|..] == [read];
        assert Shapes([read]) == [read] == OpScript(device, op)[..1];
      }
    } else {
      assert s.bus == b.(log := b.log + [read]);
      assert s.bus.log[|b.log|..] == [read];
      assert Shapes([read]) == [read] == OpScript(device, op)[..1];
    }
  }

  /** The counting half of PerformLog: one or two transactions, appended. */
  lemma PerformCounts(b: Bus, device: byte, op: RegOp)
    requires ValidOp(op)
    ensures var s := Perform(b, device, op); var n := |s.bus.log| - |b.log|;
      1 <= n <= 2 && s.bus.log[..|b.log|] == b.log &&
      s.bus.faults == b.faults && s.bus.devices.Keys == b.devices.Keys &&
      (s.result == Err(BusReadWrite) <==> n == 1) && (s.result == Err(BusReadWrite) <==> !Acks(b, device)) &&
      (s.result.Ok? <==> Acks(b, device) && |b.log| + 1 !in b.faults)
  {
    if Present(b, device) {
      var s := Perform(b, device, op);
      ReadModifyWriteLog(b, s, device, op.reg, Modified(op, Register(b, device, op.reg)));
    }
  }

  /** Dropping the first operation keeps the rest valid. */
  lemma AllValidTail(ops: seq<RegOp>)
    requires AllValid(ops) && ops != []
    ensures ValidOp(ops[0]) && AllValid(ops[1..])
  {
    forall i | 0 <= i < |ops| - 1 ensures ValidOp(ops[1..][i]) {
      assert ops[1..][i] == ops[i + 1];
    }
  }

  /** A sequence appends a prefix of its script to the log: the transactions of the
      operations in order, up to written values. */
  lemma {:induction false} SequenceLog(b: Bus, device: byte, ops: seq<RegOp>)
    requires AllValid(ops)
    ensures AppendsPrefix(b.log, Sequence(b, device, ops).bus.log, Script(device, ops))
    decreases |ops|
  {
    if ops != [] {
      AllValidTail(ops);
      var s := Perform(b, device, ops[0]);
      PerformLog(b, device, ops[0]);
      assert Script(device, ops) == OpScript(device, ops[0]) + Script(device, ops[1..]);
      if s.result.Err? {
        PrefixOfFirst(b.log, s.bus.log, OpScript(device, ops[0]), Script(device, ops[1..]));
      } else {
        SequenceLog(s.bus, device, ops[1..]);
        var t := Sequence(s.bus, device, ops[1..]);
        SequenceSteps(b.log, s.bus.log, t.bus.log, OpScript(device, ops[0]), Script(device, ops[1..]));
      }
    }
  }

  /** A sequence changes no fault and adds or removes no device; it issues its whole
      script when it succeeds, and otherwise stops after a failed read (an odd number
      of new transactions, BusReadWrite) or after a failed write (a non-zero even
      number, BusWrite). */
  lemma {:induction false} SequenceCounts(b: Bus, device: byte, ops: seq<RegOp>)
    requires AllValid(ops)
    ensures var s := Sequence(b, device, ops); var n := |s.bus.log| - |b.log|;
      s.bus.faults == b.faults && s.bus.devices.Keys == b.devices.Keys && n >= 0 &&
      (s.result.Ok? ==> n == 2 * |ops|) &&
      (s.result == Err(BusReadWrite) ==> n % 2 == 1) &&
      (s.result == Err(BusWrite) ==> n % 2 == 0 && n > 0)
    decreases |ops|
  {
    if ops != [] {
      AllValidTail(ops);
      var s := Perform(b, device, ops[0]);
      PerformCounts(b, device, ops[0]);
      if s.result.Ok? {
        var t := Sequence(s.bus, device, ops[1..]);
        SequenceCounts(s.bus, device, ops[1..]);
        assert Sequence(b, device, ops) == t;
        ParityPlusTwo(|t.bus.log| - |s.bus.log|);
      } else {
        assert Sequence(b, device, ops) == s;
      }
    }
  }

  lemma ParityPlusTwo(m: int)
    ensures (m + 2) % 2 == m % 2
  {
  }

  /** A sequence stops at the first transaction that is not acknowledged: every
      transaction before the last one it issued completed (no fault, and the device on
      the bus), and the last one completed too exactly when the sequence succeeds. A
      device that is not on the bus sees the first read and nothing more. */
  lemma {:induction false} SequenceStopsAtFirstFault(b: Bus, device: byte, ops: seq<RegOp>)
    requires AllValid(ops) && ops != []
    ensures var s := Sequence(b, device, ops);
      |s.bus.log| > |b.log| && NoFaults(b, |b.log|, |s.bus.log| - 1) &&
      (|s.bus.log| > |b.log| + 1 ==> Present(b, device)) &&
      (s.result.Ok? <==> Present(b, device) && |s.bus.log| - 1 !in b.faults)
    ensures !Present(b, device) ==>
      Sequence(b, device, ops) == BusStep(Err(BusReadWrite), b.(log := b.log + [WriteRead(device, ops[0].reg, 1)]))
    decreases |ops|
  {
    AllValidTail(ops);
    var s := Perform(b, device, ops[0]);
    PerformCounts(b, device, ops[0]);
    if s.result.Err? {
      assert Sequence(b, device, ops) == s;
    } else if ops[1..] != [] {
      SequenceStopsAtFirstFault(s.bus, device, ops[1..]);
      assert Present(s.bus, device) == Present(b, device);
      assert Sequence(b, device, ops) == Sequence(s.bus, device, ops[1..]);
    }
  }

  /** A prefix of a first script is a prefix of it followed by more. */
  lemma PrefixOfFirst(before: seq<Transaction>, after: seq<Transaction>, first: seq<Transaction>, rest: seq<Transaction>)
    requires AppendsPrefix(before, after, first)
    ensures AppendsPrefix(before, after, first + rest)
  {
    assert (first + rest)[..|after| - |before|] == first[..|after| - |before|];
  }

  /** A complete first script followed by a prefix of the second is a prefix of the two
      scripts together. */
  lemma SequenceSteps(before: seq<Transaction>, middle: seq<Transaction>, after: seq<Transaction>,
                      first: seq<Transaction>, rest: seq<Transaction>)
    requires AppendsPrefix(before, middle, first) && |middle| == |before| + |first|
    requires AppendsPrefix(middle, after, rest)
    ensures AppendsPrefix(before, after, first + rest)
  {
    var x, y := middle[|before|..], after[|middle|..];
    var k := |after| - |middle|;
    assert Shapes(x) == first;
    assert Shapes(y) == rest[..k];
    assert after[..|middle|] == middle;
    assert after[..|before|] == middle[..|before|];
    assert after[|before|..] == x + y;
    ShapesAppend(x, y);
    assert (first + rest)[..|first| + k] == first + rest[..k];
  }

  /** A completed sequence leaves every operation's byte in its register, in order,
      and changes no other device. */
  lemma {:induction false} SequenceEffect(b: Bus, device: byte, ops: seq<RegOp>)
    requires AllValid(ops)
    requires Sequence(b, device, ops).result.Ok?
    requires Present(b, device)
    ensures Sequence(b, device, ops).bus.devices == b.devices[device as int := ApplyAll(ops, Regs(b, device))]
    decreases |ops|
  {
    if ops == [] {
      assert b.devices[device as int := Regs(b, device)] == b.devices;
    } else {
      AllValidTail(ops);
      var s := Perform(b, device, ops[0]);
      var written := Modified(ops[0], Register(b, device, ops[0].reg));
      assert s.bus.devices == Stored(b, device, ops[0].reg, written);
      assert Regs(s.bus, device) == Apply(ops[0], Regs(b, device));
      SequenceEffect(s.bus, device, ops[1..]);
      assert s.bus.devices[device as int := ApplyAll(ops[1..], Regs(s.bus, device))]
          == b.devices[device as int := ApplyAll(ops, Regs(b, device))];
    }
  }

  /** The seven calls of mpu_init, in source order. */
  const MPU_INIT: seq<RegOp> := [
    SetBit(MASTER_MODE_ENABLE, MASTER_MODE_ENABLE_BIT, false),
    SetBit(I2C_BYPASS_ENABLE, I2C_BYPASS_ENABLE_BIT, true),
    SetBit(POWER_MGMT_1, SLEEP_ENABLED_BIT, false),
    SetField(POWER_MGMT_1, CLOCK_SELECT_BIT, CLOCK_SELECT_LENGTH, CLOCK_SOURCE),
    SetField(GYRO_CONFIG, GYRO_CONFIG_SELECT_BIT, GYRO_CONFIG_SELECT_LENGTH, GYRO_CONFIG_250),
    SetField(ACCEL_CONFIG, ACCEL_CONFIG_SELECT_BIT, ACCEL_CONFIG_SELECT_LENGTH, ACCEL_CONFIG_2G),
    SetBit(POWER_MGMT_1, SLEEP_ENABLED_BIT, false)
  ]

  lemma MpuInitValid()
    ensures AllValid(MPU_INIT)
  {
    FieldsInRange();
  }

  /** `mpu_init`: between one and fourteen transactions appended to the log; without
      the MPU6050 on the bus, only the first read. */
  function MpuInitSequence(b: Bus): (s: BusStep<(), BusError>)
    ensures s.bus.faults == b.faults && s.bus.devices.Keys == b.devices.Keys
    ensures |b.log| < |s.bus.log| <= |b.log| + 14 && s.bus.log[..|b.log|] == b.log
    ensures !Present(b, MPU6050_ADDR) ==>
      s == BusStep(Err(BusReadWrite), b.(log := b.log + [WriteRead(MPU6050_ADDR, MASTER_MODE_ENABLE, 1)]))
  {
    MpuInitValid();
    SequenceStopsAtFirstFault(b, MPU6050_ADDR, MPU_INIT);
    Sequence(b, MPU6050_ADDR, MPU_INIT)
  }

  /** Clearing the sleep bit, splicing clock source 1 into bits 2..0 and clearing the
      sleep bit again gives `(prior & !0x47) | 0x01`: awake, clock source 1, and bits 7
      and 5..3 as they were. */
  lemma PowerManagementByte(prior: byte)
    ensures ValidField(2, 3)
    ensures var after := WithBit(Splice(WithBit(prior, 6, false), 2, 3, 1), 6, false);
      after == (prior & !0x47) | 0x01 &&
      !BitSet(after, 6) && Field(after, 2, 3) == 1 && after & !0x47 == prior & !0x47
  {
    assert ValidField(2, 3);
    FieldShiftBounds(2, 3);
  }

  /** A zero spliced into bits 4..3 clears exactly those bits. */
  lemma ClearedField(prior: byte)
    ensures ValidField(4, 2)
    ensures Splice(prior, 4, 2, 0) == prior & !0x18 && Field(Splice(prior, 4, 2, 0), 4, 2) == 0
  {
    assert ValidField(4, 2);
    FieldShiftBounds(4, 2);
  }

  /** The MPU6050 register file after mpu_init: master mode off (0x6A bit 5 clear),
      I2C bypass on (0x37 bit 1 set), POWER_MGMT_1 awake with clock source 1, both
      full-scale selects (bits 4..3 of 0x1B and 0x1C) zero, every other bit and every
      other register as before. */
  lemma MpuInitRegisters(p: Registers)
    ensures AllValid(MPU_INIT)
    ensures var q := ApplyAll(MPU_INIT, p);
      q[0x6A] == p[0x6A] & !0x20 && q[0x37] == p[0x37] | 0x02 &&
      q[0x6B] == (p[0x6B] & !0x47) | 0x01 &&
      q[0x1B] == p[0x1B] & !0x18 && q[0x1C] == p[0x1C] & !0x18 &&
      forall r :: 0 <= r < 256 && r != 0x6A && r != 0x37 && r != 0x6B && r != 0x1B && r != 0x1C ==> q[r] == p[r]
  {
    MpuInitValid();
    var q1 := Apply(MPU_INIT[0], p);
    var q2 := Apply(MPU_INIT[1], q1);
    var q3 := Apply(MPU_INIT[2], q2);
    var q4 := Apply(MPU_INIT[3], q3);
    var q5 := Apply(MPU_INIT[4], q4);
    var q6 := Apply(MPU_INIT[5], q5);
    var q7 := Apply(MPU_INIT[6], q6);
    ApplyAllSeven(MPU_INIT, p);
    assert q7[0x6A] == WithBit(p[0x6A], 5, false);
    assert q7[0x37] == WithBit(p[0x37], 1, true);
    assert q7[0x6B] == WithBit(Splice(WithBit(p[0x6B], 6, false), 2, 3, 1), 6, false);
    assert q7[0x1B] == Splice(p[0x1B], 4, 2, 0);
    assert q7[0x1C] == Splice(p[0x1C], 4, 2, 0);
    PowerManagementByte(p[0x6B]);
    ClearedField(p[0x1B]);
    ClearedField(p[0x1C]);
  }

  /** Every suffix of a valid list of operations is valid. */
  lemma AllValidSuffix(ops: seq<RegOp>, i: nat)
    requires AllValid(ops) && i <= |ops|
    ensures AllValid(ops[i..])
  {
    forall k | 0 <= k < |ops| - i ensures ValidOp(ops[i..][k]) {
      assert ops[i..][k] == ops[i + k];
    }
  }

  /** Applying the operations from index i is applying operation i, then the rest. */
  lemma ApplyAllStep(ops: seq<RegOp>, i: nat, r: Registers)
    requires AllValid(ops) && i < |ops|
    ensures AllValid(ops[i..]) && AllValid(ops[i + 1..])
    ensures ApplyAll(ops[i..], r) == ApplyAll(ops[i + 1..], Apply(ops[i], r))
  {
    AllValidSuffix(ops, i);
    AllValidSuffix(ops, i + 1);
    assert ops[i..][0] == ops[i] && ops[i..][1..] == ops[i + 1..];
  }

  /** Running the operations from index i is running operation i and, if it
      completes, the rest. */
  lemma SequenceAt(b: Bus, device: byte, ops: seq<RegOp>, i: nat)
    requires AllValid(ops) && i < |ops|
    ensures AllValid(ops[i..]) && AllValid(ops[i + 1..])
    ensures var s := Perform(b, device, ops[i]);
      Sequence(b, device, ops[i..]) == if s.result.Err? then s else Sequence(s.bus, device, ops[i + 1..])
  {
    AllValidSuffix(ops, i);
    AllValidSuffix(ops, i + 1);
    assert ops[i..][0] == ops[i] && ops[i..][1..] == ops[i + 1..];
  }

  /** Seven operations applied in turn. */
  lemma ApplyAllSeven(ops: seq<RegOp>, p: Registers)
    requires |ops| == 7 && AllValid(ops)
    ensures ApplyAll(ops, p) ==
      Apply(ops[6], Apply(ops[5], Apply(ops[4], Apply(ops[3], Apply(ops[2], Apply(ops[1], Apply(ops[0], p)))))))
  {
    var q1 := Apply(ops[0], p);
    var q2 := Apply(ops[1], q1);
    var q3 := Apply(ops[2], q2);
    var q4 := Apply(ops[3], q3);
    var q5 := Apply(ops[4], q4);
    var q6 := Apply(ops[5], q5);
    assert ops[0..] == ops;
    ApplyAllStep(ops, 0, p);
    ApplyAllStep(ops, 1, q1);
    ApplyAllStep(ops, 2, q2);
    ApplyAllStep(ops, 3, q3);
    ApplyAllStep(ops, 4, q4);
    ApplyAllStep(ops, 5, q5);
    ApplyAllStep(ops, 6, q6);
    assert ops[7..] == [];
  }

  /** A completed mpu_init issues all fourteen transactions to the MPU6050, each of its
      seven operations a read of the register and then a write to it, and leaves the
      registers as MpuInitRegisters describes; no other device changes. */
  lemma MpuInitEffect(b: Bus)
    requires MpuInitSequence(b).result.Ok?
    ensures Present(b, MPU6050_ADDR)
    ensures var s := MpuInitSequence(b);
      |s.bus.log| == |b.log| + 14 && s.bus.log[..|b.log|] == b.log &&
      Shapes(s.bus.log[|b.log|..]) == Script(MPU6050_ADDR, MPU_INIT) &&
      s.bus.devices == b.devices[MPU6050_ADDR as int := ApplyAll(MPU_INIT, Regs(b, MPU6050_ADDR))]
  {
    MpuInitValid();
    SequenceLog(b, MPU6050_ADDR, MPU_INIT);
    SequenceCounts(b, MPU6050_ADDR, MPU_INIT);
    PerformLog(b, MPU6050_ADDR, MPU_INIT[0]);
    assert Acks(b, MPU6050_ADDR);
    SequenceEffect(b, MPU6050_ADDR, MPU_INIT);
  }

  // ---------------------------------------------------------------------------
  // hmc_init: three plain writes

  /** `hmc_init`: configuration A, configuration B and the mode register, each a
      `blocking_write` whose error becomes BusWrite and stops the rest. */
  function HmcInitSequence(b: Bus): (s: BusStep<(), BusError>)
    ensures s.bus.faults == b.faults && s.bus.devices.Keys == b.devices.Keys
    ensures s.result.Err? ==> s.result.error == BusWrite
    ensures !Present(b, HMC5883L_ADDR) ==>
      s == BusStep(Err(BusWrite), b.(log := b.log + [Write(HMC5883L_ADDR, HMC5883L_CONFIG_A, HMC5883L_CONFIG_A_VALUE)]))
  {
    var a := Send(b, HMC5883L_ADDR, HMC5883L_CONFIG_A, HMC5883L_CONFIG_A_VALUE);
    if a.result.Err? then a
    else
      var g := Send(a.bus, HMC5883L_ADDR, HMC5883L_CONFIG_B, HMC5883L_CONFIG_B_VALUE);
      if g.result.Err? then g
      else Send(g.bus, HMC5883L_ADDR, HMC5883L_MODE_REG, HMC5883L_MODE_VALUE)
  }

  /** The three writes of hmc_init, in order. */
  const HMC_INIT_WRITES: seq<Transaction> := [
    Write(HMC5883L_ADDR, 0x00, 0x70),
    Write(HMC5883L_ADDR, 0x01, 0x20),
    Write(HMC5883L_ADDR, 0x02, 0x01)
  ]

  /** hmc_init appends a non-empty prefix of its three writes to the log, stopping
      after the first that is not acknowledged (a fault, or no magnetometer on the bus,
      when it stops after the first write), and succeeds when all three are; then
      registers 0, 1 and 2 of the magnetometer hold 0x70, 0x20 and 0x01 and nothing
      else has changed. Its only error is BusWrite. */
  lemma HmcInitEffect(b: Bus)
    ensures var s := HmcInitSequence(b);
      var n := |s.bus.log| - |b.log|;
      |b.log| < |s.bus.log| <= |b.log| + 3 && s.bus.log == b.log + HMC_INIT_WRITES[..n] &&
      (!Present(b, HMC5883L_ADDR) ==> n == 1) && (n > 1 ==> Present(b, HMC5883L_ADDR))
    ensures var s := HmcInitSequence(b);
      s.bus.faults == b.faults && s.bus.devices.Keys == b.devices.Keys &&
      NoFaults(b, |b.log|, |s.bus.log| - 1) &&
      (s.result.Ok? <==> Present(b, HMC5883L_ADDR) && |s.bus.log| == |b.log| + 3 && |s.bus.log| - 1 !in b.faults) &&
      (s.result.Err? ==> s.result.error == BusWrite)
    ensures var s := HmcInitSequence(b);
      (s.result.Ok? ==>
        (Present(b, HMC5883L_ADDR) &&
         s.bus.devices == b.devices[HMC5883L_ADDR as int := Regs(b, HMC5883L_ADDR)[0 := 0x70][1 := 0x20][2 := 0x01]]))
  {
    MagnetometerBytes();
    var a := Send(b, HMC5883L_ADDR, HMC5883L_CONFIG_A, HMC5883L_CONFIG_A_VALUE);
    if a.result.Ok? {
      var g := Send(a.bus, HMC5883L_ADDR, HMC5883L_CONFIG_B, HMC5883L_CONFIG_B_VALUE);
      if g.result.Ok? {
        var m := Send(g.bus, HMC5883L_ADDR, HMC5883L_MODE_REG, HMC5883L_MODE_VALUE);
        assert a.bus.devices == Stored(b, HMC5883L_ADDR, 0, 0x70);
        assert Regs(a.bus, HMC5883L_ADDR) == Regs(b, HMC5883L_ADDR)[0 := 0x70];
        assert g.bus.devices == Stored(a.bus, HMC5883L_ADDR, 1, 0x20);
        assert Regs(g.bus, HMC5883L_ADDR) == Regs(b, HMC5883L_ADDR)[0 := 0x70][1 := 0x20];
        if m.result.Ok? {
          var k := HMC5883L_ADDR as int;
          var regs := Regs(b, HMC5883L_ADDR);
          assert m.bus.devices == Stored(g.bus, HMC5883L_ADDR, 2, 0x01);
          assert m.bus.devices == b.devices[k := regs[0 := 0x70]][k := regs[0 := 0x70][1 := 0x20]][k := regs[0 := 0x70][1 := 0x20][2 := 0x01]];
          assert m.bus.devices == b.devices[k := regs[0 := 0x70][1 := 0x20][2 := 0x01]];
        }
        assert HMC_INIT_WRITES[..3] == HMC_INIT_WRITES;
        assert m.bus.log == b.log + HMC_INIT_WRITES;
      } else {
        assert HMC_INIT_WRITES[..2] == [HMC_INIT_WRITES[0], HMC_INIT_WRITES[1]];
      }
    } else {
      assert HMC_INIT_WRITES[..1] == [HMC_INIT_WRITES[0]];
    }
  }

  // ---------------------------------------------------------------------------
  // start

  /** `start`: the MPU6050 identity check, mpu_init, hmc_init, then the magnetometer
      identity check, each error stopping the rest. */
  function Start(b: Bus): (s: BusStep<(), Gy87Error>)
    ensures s.bus.faults == b.faults && s.bus.devices.Keys == b.devices.Keys
    ensures |b.log| < |s.bus.log| <= |b.log| + 19 && s.bus.log[..|b.log|] == b.log
    ensures s.result.Err? ==> !(s.result.error.UpdateGetAccelGyro? || s.result.error.UpdateMag? || s.result.error.UpdateError?)
  {
    var w := GetByte(b, MPU6050_ADDR, MPU6050_WHOAMI_ADDR);
    if w.result.Err? then BusStep(Err(Gy87Error.BusError(w.result.error)), w.bus)
    else if w.result.value != MPU6050_ADDR then BusStep(Err(UnknownMPUDeviceAddr(w.result.value)), w.bus)
    else
      var m := MpuInitSequence(w.bus);
      assert m.bus.log[..|b.log|] == m.bus.log[..|w.bus.log|][..|b.log|];
      if m.result.Err? then BusStep(Err(Gy87Error.MpuInit(m.result.error)), m.bus)
      else
        var h := HmcInitSequence(m.bus);
        HmcInitEffect(m.bus);
        assert h.bus.log[..|b.log|] == h.bus.log[..|m.bus.log|][..|b.log|];
        if h.result.Err? then BusStep(Err(Gy87Error.HmcInit(h.result.error)), h.bus)
        else
          var id := GetBytes(h.bus, HMC5883L_ADDR, HMC5883L_WHOAMI_ADDR, 3);
          assert id.bus.log[..|b.log|] == h.bus.log[..|b.log|];
          if id.result.Err? then BusStep(Err(Gy87Error.BusError(id.result.error)), id.bus)
          else if id.result.value != HMC5883L_IDENTITY then BusStep(Err(UnknownHMCDeviceAddr(id.result.value)), id.bus)
          else BusStep(Ok(()), id.bus)
  }

  /** A wrong MPU6050 identity is reported with the byte observed, after the one
      identity read and before any initialisation write. */
  lemma StartRejectsUnknownMpu(b: Bus)
    requires Acks(b, MPU6050_ADDR) && Register(b, MPU6050_ADDR, MPU6050_WHOAMI_ADDR) != MPU6050_ADDR
    ensures Start(b) == BusStep(Err(UnknownMPUDeviceAddr(Register(b, MPU6050_ADDR, MPU6050_WHOAMI_ADDR))),
                                b.(log := b.log + [WriteRead(MPU6050_ADDR, MPU6050_WHOAMI_ADDR, 1)]))
  {
  }

  /** A successful start issues, in order: the MPU6050 identity read, the fourteen
      transactions of mpu_init, the three writes of hmc_init and the magnetometer
      identity read, and the magnetometer answered "H43". */
  lemma StartOrder(b: Bus)
    requires Start(b).result.Ok?
    ensures var s := Start(b); var n := |b.log|;
      |s.bus.log| == n + 19 && s.bus.log[..n] == b.log &&
      s.bus.log[n] == WriteRead(MPU6050_ADDR, MPU6050_WHOAMI_ADDR, 1) &&
      s.bus.log[n + 15..n + 18] == HMC_INIT_WRITES &&
      s.bus.log[n + 18] == WriteRead(HMC5883L_ADDR, HMC5883L_WHOAMI_ADDR, 3) &&
      Present(b, HMC5883L_ADDR) && Burst(Regs(s.bus, HMC5883L_ADDR), HMC5883L_WHOAMI_ADDR, 3) == HMC5883L_IDENTITY
  {
    var w := GetByte(b, MPU6050_ADDR, MPU6050_WHOAMI_ADDR);
    var m := MpuInitSequence(w.bus);
    MpuInitEffect(w.bus);
    var h := HmcInitSequence(m.bus);
    HmcInitEffect(m.bus);
    assert h.bus.log == m.bus.log + HMC_INIT_WRITES;
  }

  /** Between the identity read and hmc_init's writes, a successful start's log holds
      fourteen transactions with the registers and kinds of the mpu_init script. */
  lemma StartMpuSegment(b: Bus)
    requires Start(b).result.Ok?
    ensures |Start(b).bus.log| == |b.log| + 19
    ensures Shapes(Start(b).bus.log[|b.log| + 1..|b.log| + 15]) == Script(MPU6050_ADDR, MPU_INIT)
  {
    var w := GetByte(b, MPU6050_ADDR, MPU6050_WHOAMI_ADDR);
    var m := MpuInitSequence(w.bus);
    MpuInitEffect(w.bus);
    var h := HmcInitSequence(m.bus);
    HmcInitEffect(m.bus);
    var n := |b.log|;
    assert Start(b).bus.log == m.bus.log + HMC_INIT_WRITES + [WriteRead(HMC5883L_ADDR, HMC5883L_WHOAMI_ADDR, 3)];
    assert Start(b).bus.log[n + 1..n + 15] == m.bus.log[|w.bus.log|..];
  }

  /** start stops at the first step that fails and reports which: the MPU6050's
      identity read failing is BusError(BusReadWrite) after that one read; mpu_init
      failing is MpuInit with its cause, after a correct identity; hmc_init failing is
      HmcInit(BusWrite) after a completed mpu_init; the bus is the failing step's. */
  lemma StartStops(b: Bus)
    ensures var w := GetByte(b, MPU6050_ADDR, MPU6050_WHOAMI_ADDR); var m := MpuInitSequence(w.bus);
      var h := HmcInitSequence(m.bus); var s := Start(b);
      (!Acks(b, MPU6050_ADDR) ==> s == BusStep(Err(Gy87Error.BusError(BusReadWrite)), w.bus)) &&
      (w.result == Ok(MPU6050_ADDR) && m.result.Err? ==> s == BusStep(Err(MpuInit(m.result.error)), m.bus)) &&
      (w.result == Ok(MPU6050_ADDR) && m.result.Ok? && h.result.Err? ==> s == BusStep(Err(HmcInit(BusWrite)), h.bus)) &&
      (s.result.Err? && s.result.error.MpuInit? <==> w.result == Ok(MPU6050_ADDR) && m.result.Err?) &&
      (s.result.Err? && s.result.error.HmcInit? <==> w.result == Ok(MPU6050_ADDR) && m.result.Ok? && h.result.Err?) &&
      (s.result.Err? && s.result.error.BusError? ==> s.result.error.cause == BusReadWrite)
  {
  }

  /** An unrecognised magnetometer is reported with the three bytes it answered, and
      only after all three configuration writes of hmc_init. */
  lemma StartRejectsUnknownHmc(b: Bus)
    requires Start(b).result.Err? && Start(b).result.error.UnknownHMCDeviceAddr?
    ensures var s := Start(b); var n := |s.bus.log|;
      n >= 4 && s.bus.log[n - 4..n - 1] == HMC_INIT_WRITES &&
      s.bus.log[n - 1] == WriteRead(HMC5883L_ADDR, HMC5883L_WHOAMI_ADDR, 3) &&
      Present(s.bus, HMC5883L_ADDR) &&
      s.result.error.identity == Burst(Regs(s.bus, HMC5883L_ADDR), HMC5883L_WHOAMI_ADDR, 3) &&
      s.result.error.identity != HMC5883L_IDENTITY
  {
    var w := GetByte(b, MPU6050_ADDR, MPU6050_WHOAMI_ADDR);
    var m := MpuInitSequence(w.bus);
    var h := HmcInitSequence(m.bus);
    HmcInitEffect(m.bus);
    var n := |h.bus.log|;
    assert h.bus.log[n - 3..] == HMC_INIT_WRITES;
  }

  /** `get_accel_gyro`: one 14-byte burst from registers 0x3B..0x48 of the MPU6050 and
      nothing else; a failure is BusReadWrite. */
  function GetAccelGyro(b: Bus): (s: BusStep<AccelGyro, BusError>)
    ensures s.bus == b.(log := b.log + [WriteRead(MPU6050_ADDR, ACCEL_GYRO_READ, 14)])
    ensures s.result.Ok? <==> Acks(b, MPU6050_ADDR)
    ensures s.result.Err? ==> s.result.error == BusReadWrite
    ensures s.result.Ok? ==> s.result == Ok(DecodeAccelGyro(Burst(Regs(b, MPU6050_ADDR), 0x3B, 14)))
  {
    var s := GetBytes(b, MPU6050_ADDR, ACCEL_GYRO_READ, 14);
    if s.result.Err? then BusStep(Err(s.result.error), s.bus)
    else BusStep(Ok(DecodeAccelGyro(s.result.value)), s.bus)
  }

  /** `get_mag`: one 6-byte burst from the magnetometer, then, only if it completed,
      exactly one write `[0x02, 0x01]` that starts its next single measurement. If that
      write fails the result is BusWrite although the read completed; a failed read is
      BusReadWrite and writes nothing. A success returns the burst in X, Y, Z order. */
  function GetMag(b: Bus): (r: BusStep<Vec3, BusError>)
    ensures var read := b.log + [WriteRead(HMC5883L_ADDR, MAG_READ, 6)];
      (!Acks(b, HMC5883L_ADDR) ==> r == BusStep(Err(BusReadWrite), b.(log := read))) &&
      (Acks(b, HMC5883L_ADDR) ==>
        r.bus.log == read + [Write(HMC5883L_ADDR, 0x02, 0x01)] &&
        (r.result.Ok? <==> |read| !in b.faults) &&
        (r.result.Err? ==> r.result.error == BusWrite) &&
        (r.result.Ok? ==> r.result.value == DecodeMag(Burst(Regs(b, HMC5883L_ADDR), MAG_READ, 6))))
    ensures r.bus.faults == b.faults && r.bus.devices.Keys == b.devices.Keys
  {
    MagnetometerBytes();
    var s := GetBytes(b, HMC5883L_ADDR, MAG_READ, 6);
    if s.result.Err? then BusStep(Err(s.result.error), s.bus)
    else
      var m := Send(s.bus, HMC5883L_ADDR, HMC5883L_MODE_REG, HMC5883L_MODE_VALUE);
      if m.result.Err? then BusStep(Err(m.result.error), m.bus)
      else BusStep(Ok(DecodeMag(s.result.value)), m.bus)
  }



  // ---------------------------------------------------------------------------
  // update

  datatype UpdateStep = UpdateStep(result: Result<MovementData, Gy87Error>, bus: Bus, history: seq<FusionInput>)

  /** `update`: read a sample, feed it to the filter (whose state is the history of
      its inputs and whose answer `orientation` gives), and report its orientation
      with a zero position. */
  function Update(b: Bus, history: seq<FusionInput>, orientation: seq<FusionInput> -> Euler, prev: int, now: int): (u: UpdateStep)
    ensures u.bus.faults == b.faults && u.bus.devices.Keys == b.devices.Keys
    ensures u.result.Err? ==> u.history == history
    ensures u.result.Ok? ==> |u.history| == |history| + 1 && u.history[..|history|] == history
  {
    var ag := GetAccelGyro(b);
    if ag.result.Err? then UpdateStep(Err(UpdateGetAccelGyro(ag.result.error)), ag.bus, history)
    else
      var mg := GetMag(ag.bus);
      if mg.result.Err? then UpdateStep(Err(UpdateMag(mg.result.error)), mg.bus, history)
      else
        var fed := history + [FusionInput(ag.result.value.gyro, ag.result.value.accel, mg.result.value, now - prev)];
        var e := orientation(fed);
        UpdateStep(Ok(MovementData(0, 0, 0, e.yaw, e.pitch, e.roll)), mg.bus, fed)
  }

  /** The outcomes of update: an accelerometer/gyroscope failure is UpdateGetAccelGyro
      and no magnetometer transaction follows; a magnetometer failure, after a completed
      first read, is UpdateMag with get_mag's cause and bus; neither feeds the filter,
      and UpdateError is never produced. A success feeds the filter exactly one input,
      this cycle's samples, and reports a zero position with the filter's orientation. */
  lemma UpdateOutcomes(b: Bus, history: seq<FusionInput>, orientation: seq<FusionInput> -> Euler, prev: int, now: int)
    ensures var u := Update(b, history, orientation, prev, now);
      u.result != Err(UpdateError) &&
      (u.result.Err? ==> u.history == history) &&
      (u.result.Err? && u.result.error.UpdateGetAccelGyro? ==>
        u.bus.log == b.log + [WriteRead(MPU6050_ADDR, ACCEL_GYRO_READ, 14)] && u.result.error.cause == BusReadWrite) &&
      (!Acks(b, MPU6050_ADDR) ==>
        u == UpdateStep(Err(UpdateGetAccelGyro(BusReadWrite)), b.(log := b.log + [WriteRead(MPU6050_ADDR, ACCEL_GYRO_READ, 14)]), history)) &&
      (Acks(b, MPU6050_ADDR) && GetMag(GetAccelGyro(b).bus).result.Err? ==>
        u == UpdateStep(Err(UpdateMag(GetMag(GetAccelGyro(b).bus).result.error)), GetMag(GetAccelGyro(b).bus).bus, history)) &&
      (u.result.Ok? <==> GetAccelGyro(b).result.Ok? && GetMag(GetAccelGyro(b).bus).result.Ok?) &&
      (u.result.Ok? ==>
        var ag := GetAccelGyro(b).result.value;
        var mag := GetMag(GetAccelGyro(b).bus).result.value;
        u.history == history + [FusionInput(ag.gyro, ag.accel, mag, now - prev)] &&
        var e := orientation(u.history);
        u.result.value == MovementData(0, 0, 0, e.yaw, e.pitch, e.roll))
  {
  }

  /** Update reads the MPU6050 first, then the magnetometer, then writes the
      magnetometer's mode register, and nothing else. */
  lemma UpdateTransactions(b: Bus, history: seq<FusionInput>, orientation: seq<FusionInput> -> Euler, prev: int, now: int)
    requires Update(b, history, orientation, prev, now).result.Ok?
    ensures Update(b, history, orientation, prev, now).bus.log == b.log +
      [WriteRead(MPU6050_ADDR, ACCEL_GYRO_READ, 14), WriteRead(HMC5883L_ADDR, MAG_READ, 6), Write(HMC5883L_ADDR, 0x02, 0x01)]
  {
  }

}

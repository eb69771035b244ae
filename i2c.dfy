/** The I2C bus as the sensor driver sees it: a register file per device that answers,
    a log of every transaction the controller starts, and a set of transaction indices
    at which the bus reports an error (a NACK, arbitration loss or timeout). A
    transaction addressed to a device that is not on the bus fails as well. */
module I2c {
  import opened Base

  /** The 256 one-byte registers of a device. */
  type Registers = s: seq<byte> | |s| == 256 witness seq(256, _ => 0 as bv8)

  /** `blocking_write_read(device, [reg], buffer)` with a buffer of `count` bytes, and
      `blocking_write(device, [reg, value])`. */
  datatype Transaction =
    | WriteRead(device: byte, reg: byte, count: nat)
    | Write(device: byte, reg: byte, value: byte)

  /** The devices on the bus, keyed by their address as a number. */
  datatype Bus = Bus(devices: map<int, Registers>, faults: set<nat>, log: seq<Transaction>)

  /** A device at `device` is on the bus. */
  predicate Present(b: Bus, device: byte) {
    device as int in b.devices
  }

  /** The next transaction on `b` addressed to `device` completes. */
  predicate Acks(b: Bus, device: byte) {
    |b.log| !in b.faults && Present(b, device)
  }

  /** No transaction with an index in from..to-1 faults. */
  predicate NoFaults(b: Bus, from: nat, to: nat) {
    forall k :: from <= k < to ==> k !in b.faults
  }

  /** The register file of a device on the bus. */
  function Regs(b: Bus, device: byte): Registers
    requires Present(b, device)
  {
    b.devices[device as int]
  }

  /** The register of `device` at `reg`. */
  function Register(b: Bus, device: byte, reg: byte): byte
    requires Present(b, device)
  {
    Regs(b, device)[reg as int]
  }

  /** The register file after `reg` is overwritten with `value`. */
  function Stored(b: Bus, device: byte, reg: byte, value: byte): map<int, Registers>
    requires Present(b, device)
  {
    b.devices[device as int := Regs(b, device)[reg as int := value]]
  }

  /** What a burst read of `count` bytes from `reg` returns: the register address
      advances by one per byte and wraps after register 0xFF. */
  function Burst(regs: Registers, reg: byte, count: nat): (data: seq<byte>)
    ensures |data| == count
    ensures forall k :: 0 <= k < count ==> data[k] == regs[(reg as int + k) % 256]
  {
    seq(count, k requires 0 <= k < count => regs[(reg as int + k) % 256])
  }

  datatype ReadOutcome = ReadOutcome(data: Option<seq<byte>>, bus: Bus)
  datatype WriteOutcome = WriteOutcome(ok: bool, bus: Bus)

  /** A write of the register address followed by a read of `count` bytes. It is logged
      whether or not it completes and changes no register. */
  function TransferRead(b: Bus, device: byte, reg: byte, count: nat): (r: ReadOutcome)
    ensures r.bus == b.(log := b.log + [WriteRead(device, reg, count)])
    ensures r.data.Some? <==> Acks(b, device)
    ensures r.data.Some? ==> r.data.value == Burst(Regs(b, device), reg, count)
  {
    var after := b.(log := b.log + [WriteRead(device, reg, count)]);
    if Acks(b, device) then ReadOutcome(Some(Burst(Regs(b, device), reg, count)), after)
    else ReadOutcome(None, after)
  }

  /** A two-byte write `[reg, value]`: on completion the register holds `value` and no
      other register changes; a failed write changes no register. */
  function TransferWrite(b: Bus, device: byte, reg: byte, value: byte): (r: WriteOutcome)
    ensures r.ok <==> Acks(b, device)
    ensures r.bus.log == b.log + [Write(device, reg, value)] && r.bus.faults == b.faults
    ensures r.bus.devices.Keys == b.devices.Keys
    ensures r.ok ==> r.bus.devices == Stored(b, device, reg, value)
    ensures !r.ok ==> r.bus.devices == b.devices
  {
    var logged := b.log + [Write(device, reg, value)];
    if Acks(b, device) then
      WriteOutcome(true, Bus(Stored(b, device, reg, value), b.faults, logged))
    else
      WriteOutcome(false, b.(log := logged))
  }
}

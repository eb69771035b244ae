/** The GY-87 driver of src/gy87.rs as an object: the I2C bus it owns and the state
    of its fusion filter, updated in place by its methods. Each method is proved to
    leave the bus and the filter as the functions of Gy87Model say, and to return
    what they return. */
module Gy87Driver {
  import opened Base
  import opened BitField
  import opened Constants
  import opened I2c
  import opened Samples
  import opened Gy87Model

  class Gy87 {
    /** The bus, with the devices on it and the transactions issued so far. */
    var bus: Bus
    /** The inputs fed to the filter so far; the filter's state is a function of them. */
    var history: seq<FusionInput>
    /** The orientation the filter reports after a given history of inputs. */
    const orientation: seq<FusionInput> -> Euler

    /** `Gy87::new`: a fresh filter that has seen no input. */
    constructor (bus: Bus, orientation: seq<FusionInput> -> Euler)
      ensures this.bus == bus && this.orientation == orientation && history == []
    {
      this.bus := bus;
      this.orientation := orientation;
      history := [];
    }

    /** `i2c.blocking_write_read(device, &[reg], buffer)`: on completion the buffer
        holds the burst; a failed transfer leaves it as it was. */
    method BlockingWriteRead(device: byte, reg: byte, buffer: array<byte>) returns (ok: bool)
      modifies this, buffer
      ensures var t := TransferRead(old(bus), device, reg, buffer.Length);
        bus == t.bus && ok == t.data.Some? &&
        buffer[..] == if ok then t.data.value else old(buffer[..])
      ensures history == old(history)
    {
      var t := TransferRead(bus, device, reg, buffer.Length);
      bus := t.bus;
      ok := t.data.Some?;
      if ok {
        var data := t.data.value;
        assert |data| == buffer.Length;
        for i := 0 to buffer.Length
          modifies buffer
          invariant buffer[..i] == data[..i]
          invariant buffer[i..] == old(buffer[i..])
        {
          buffer[i] := data[i];
          assert buffer[..i + 1] == data[..i + 1];
        }
        assert buffer[..] == buffer[..buffer.Length];
        assert data == data[..buffer.Length];
      }
    }

    /** `i2c.blocking_write(device, &[reg, value])`. */
    method BlockingWrite(device: byte, reg: byte, value: byte) returns (ok: bool)
      modifies this
      ensures var t := TransferWrite(old(bus), device, reg, value);
        bus == t.bus && ok == t.ok
      ensures history == old(history)
    {
      var t := TransferWrite(bus, device, reg, value);
      bus := t.bus;
      ok := t.ok;
    }

    /** `get_byte`. */
    method GetByte(device: byte, addr: byte) returns (r: Result<byte, BusError>)
      modifies this
      ensures var s := Gy87Model.GetByte(old(bus), device, addr); r == s.result && bus == s.bus
      ensures history == old(history)
    {
      var rx := new byte[1];
      var ok := BlockingWriteRead(device, addr, rx);
      if !ok {
        return Err(BusReadWrite);
      }
      return Ok(rx[0]);
    }

    /** `get_bytes` into `buffer`. */
    method GetBytes(device: byte, addr: byte, buffer: array<byte>) returns (r: Result<(), BusError>)
      modifies this, buffer
      ensures var s := Gy87Model.GetBytes(old(bus), device, addr, buffer.Length);
        bus == s.bus && r.Ok? == s.result.Ok? && (r.Err? ==> r.error == s.result.error) &&
        (r.Ok? ==> buffer[..] == s.result.value)
      ensures history == old(history)
    {
      var ok := BlockingWriteRead(device, addr, buffer);
      if !ok {
        return Err(BusReadWrite);
      }
      return Ok(());
    }

    /** The write half of a read-modify-write, its error mapped to BusWrite. */
    method WriteBack(device: byte, addr: byte, value: byte) returns (r: Result<(), BusError>)
      modifies this
      ensures var s := Send(old(bus), device, addr, value); r == s.result && bus == s.bus
      ensures history == old(history)
    {
      var ok := BlockingWrite(device, addr, value);
      if !ok {
        return Err(BusWrite);
      }
      return Ok(());
    }

    /** `write_bit`. */
    method WriteBit(device: byte, addr: byte, bit: byte, enable: bool) returns (r: Result<(), BusError>)
      requires bit < 8
      modifies this
      ensures var s := Gy87Model.WriteBit(old(bus), device, addr, bit, enable); r == s.result && bus == s.bus
      ensures history == old(history)
    {
      var got := GetByte(device, addr);
      if got.Err? {
        return Err(got.error);
      }
      var data := WithBit(got.value, bit, enable);
      r := WriteBack(device, addr, data);
    }

    /** `write_bits`, with the shift taken as the intended FieldShift. */
    method WriteBits(device: byte, addr: byte, startBit: byte, length: byte, data: byte) returns (r: Result<(), BusError>)
      requires ValidField(startBit, length)
      modifies this
      ensures var s := Gy87Model.WriteBits(old(bus), device, addr, startBit, length, data); r == s.result && bus == s.bus
      ensures history == old(history)
    {
      var got := GetByte(device, addr);
      if got.Err? {
        return Err(got.error);
      }
      var newData := Splice(got.value, startBit, length, data);
      r := WriteBack(device, addr, newData);
    }

    /** `mpu_init`: the seven read-modify-writes, each `?`-propagating its error. */
    method MpuInit() returns (r: Result<(), BusError>)
      modifies this
      ensures var s := MpuInitSequence(old(bus)); r == s.result && bus == s.bus
      ensures history == old(history)
    {
      MpuInitValid();
      FieldsInRange();
      assert MPU_INIT[0..] == MPU_INIT;
      SequenceAt(bus, MPU6050_ADDR, MPU_INIT, 0);
      r := WriteBit(MPU6050_ADDR, MASTER_MODE_ENABLE, MASTER_MODE_ENABLE_BIT, false);
      if r.Err? { return; }
      SequenceAt(bus, MPU6050_ADDR, MPU_INIT, 1);
      r := WriteBit(MPU6050_ADDR, I2C_BYPASS_ENABLE, I2C_BYPASS_ENABLE_BIT, true);
      if r.Err? { return; }
      SequenceAt(bus, MPU6050_ADDR, MPU_INIT, 2);
      r := WriteBit(MPU6050_ADDR, POWER_MGMT_1, SLEEP_ENABLED_BIT, false);
      if r.Err? { return; }
      SequenceAt(bus, MPU6050_ADDR, MPU_INIT, 3);
      r := WriteBits(MPU6050_ADDR, POWER_MGMT_1, CLOCK_SELECT_BIT, CLOCK_SELECT_LENGTH, CLOCK_SOURCE);
      if r.Err? { return; }
      SequenceAt(bus, MPU6050_ADDR, MPU_INIT, 4);
      r := WriteBits(MPU6050_ADDR, GYRO_CONFIG, GYRO_CONFIG_SELECT_BIT, GYRO_CONFIG_SELECT_LENGTH, GYRO_CONFIG_250);
      if r.Err? { return; }
      SequenceAt(bus, MPU6050_ADDR, MPU_INIT, 5);
      r := WriteBits(MPU6050_ADDR, ACCEL_CONFIG, ACCEL_CONFIG_SELECT_BIT, ACCEL_CONFIG_SELECT_LENGTH, ACCEL_CONFIG_2G);
      if r.Err? { return; }
      SequenceAt(bus, MPU6050_ADDR, MPU_INIT, 6);
      r := WriteBit(MPU6050_ADDR, POWER_MGMT_1, SLEEP_ENABLED_BIT, false);
      if r.Err? { return; }
      assert MPU_INIT[7..] == [];
      return Ok(());
    }

    /** `hmc_init`: three writes, each error becoming BusWrite. */
    method HmcInit() returns (r: Result<(), BusError>)
      modifies this
      ensures var s := HmcInitSequence(old(bus)); r == s.result && bus == s.bus
      ensures history == old(history)
    {
      var ok := BlockingWrite(HMC5883L_ADDR, HMC5883L_CONFIG_A,
        (HMC5883L_AVERAGING_8 << FieldShift(HMC5883L_CRA_AVERAGE_BIT, HMC5883L_CRA_AVERAGE_LENGTH)) |
        (HMC5883L_RATE_15 << FieldShift(HMC5883L_CRA_RATE_BIT, HMC5883L_CRA_RATE_LENGTH)) |
        (HMC5883L_BIAS_NORMAL << FieldShift(HMC5883L_CRA_BIAS_BIT, HMC5883L_CRA_BIAS_LENGTH)));
      if !ok {
        return Err(BusWrite);
      }
      ok := BlockingWrite(HMC5883L_ADDR, HMC5883L_CONFIG_B, HMC5883L_GAIN << FieldShift(HMC5883L_GAIN_BIT, HMC5883L_GAIN_LENGTH));
      if !ok {
        return Err(BusWrite);
      }
      ok := BlockingWrite(HMC5883L_ADDR, HMC5883L_MODE_REG, HMC5883L_MODE_SINGLE << FieldShift(HMC5883L_MODE_REG_BIT, HMC5883L_MODE_REG_LENGTH));
      if !ok {
        return Err(BusWrite);
      }
      return Ok(());
    }

    /** `start`. */
    method Start() returns (r: Result<(), Gy87Error>)
      modifies this
      ensures var s := Gy87Model.Start(old(bus)); r == s.result && bus == s.bus
      ensures history == old(history)
    {
      var who := GetByte(MPU6050_ADDR, MPU6050_WHOAMI_ADDR);
      if who.Err? {
        return Err(Gy87Error.BusError(who.error));
      }
      if who.value != MPU6050_ADDR {
        return Err(UnknownMPUDeviceAddr(who.value));
      }
      var m := MpuInit();
      if m.Err? {
        return Err(Gy87Error.MpuInit(m.error));
      }
      var h := HmcInit();
      if h.Err? {
        return Err(Gy87Error.HmcInit(h.error));
      }
      var id := new byte[3];
      var got := GetBytes(HMC5883L_ADDR, HMC5883L_WHOAMI_ADDR, id);
      if got.Err? {
        return Err(Gy87Error.BusError(got.error));
      }
      HmcIdentityBytes(id[..]);
      if id[0] != 'H' as byte || id[1] != '4' as byte || id[2] != '3' as byte {
        return Err(UnknownHMCDeviceAddr(id[..]));
      }
      return Ok(());
    }

    /** `get_accel_gyro`. */
    method GetAccelGyro() returns (r: Result<AccelGyro, BusError>)
      modifies this
      ensures var s := Gy87Model.GetAccelGyro(old(bus)); r == s.result && bus == s.bus
      ensures history == old(history)
    {
      var rx := new byte[14];
      var got := GetBytes(MPU6050_ADDR, ACCEL_GYRO_READ, rx);
      if got.Err? {
        return Err(got.error);
      }
      return Ok(AccelGyro(
        Vec3(Word(rx[0], rx[1]), Word(rx[2], rx[3]), Word(rx[4], rx[5])),
        Vec3(Word(rx[8], rx[9]), Word(rx[10], rx[11]), Word(rx[12], rx[13]))));
    }

    /** `get_mag`. */
    method GetMag() returns (r: Result<Vec3, BusError>)
      modifies this
      ensures var s := Gy87Model.GetMag(old(bus)); r == s.result && bus == s.bus
      ensures history == old(history)
    {
      var rx := new byte[6];
      var got := GetBytes(HMC5883L_ADDR, MAG_READ, rx);
      if got.Err? {
        return Err(got.error);
      }
      var ok := BlockingWrite(HMC5883L_ADDR, HMC5883L_MODE_REG, HMC5883L_MODE_SINGLE << FieldShift(HMC5883L_MODE_REG_BIT, HMC5883L_MODE_REG_LENGTH));
      if !ok {
        return Err(BusWrite);
      }
      return Ok(Vec3(Word(rx[0], rx[1]), Word(rx[4], rx[5]), Word(rx[2], rx[3])));
    }

    /** `update(&prev)`, with `now` the clock reading that `prev.elapsed()` takes once
        both sensors have answered. */
    method Update(prev: int, now: int) returns (r: Result<MovementData, Gy87Error>)
      modifies this
      ensures var u := Gy87Model.Update(old(bus), old(history), orientation, prev, now);
        r == u.result && bus == u.bus && history == u.history
    {
      var accelGyro := GetAccelGyro();
      if accelGyro.Err? {
        return Err(UpdateGetAccelGyro(accelGyro.error));
      }
      var mag := GetMag();
      if mag.Err? {
        return Err(UpdateMag(mag.error));
      }
      history := history + [FusionInput(accelGyro.value.gyro, accelGyro.value.accel, mag.value, now - prev)];
      var euler := orientation(history);
      return Ok(MovementData(0, 0, 0, euler.yaw, euler.pitch, euler.roll));
    }
  }

  /** `clone_from_slice` of eight bytes into `buf[at..at + 8]`. */
  method CopyInto(buf: array<byte>, at: nat, bytes: seq<byte>)
    requires |bytes| == 8 && at + 8 <= buf.Length
    modifies buf
    ensures buf[..at + 8] == old(buf[..at]) + bytes
    ensures buf[at + 8..] == old(buf[at + 8..])
  {
    for k := 0 to 8
      invariant buf[..at + k] == old(buf[..at]) + bytes[..k]
      invariant buf[at + k..] == old(buf[at + k..])
    {
      buf[at + k] := bytes[k];
      assert buf[..at + k + 1] == buf[..at + k] + [bytes[k]];
      assert bytes[..k + 1] == bytes[..k] + [bytes[k]];
    }
  }

  /** One line of `MovementData::serialize`: field k's little-endian bytes copied
      right after the k fields already in place. */
  method PlaceField(buf: array<byte>, m: MovementData, k: nat)
    requires k < 6 && buf.Length == 48
    requires buf[..8 * k] == Serialization(m)[..8 * k]
    modifies buf
    ensures buf[..8 * k + 8] == Serialization(m)[..8 * k + 8]
  {
    CopyInto(buf, 8 * k, Le(Fields(m)[k]));
    SerializationPrefix(m, k);
  }

  /** `MovementData::serialize`: each field's little-endian bytes copied into place. */
  method Serialize(m: MovementData) returns (bytes: seq<byte>)
    ensures bytes == Serialization(m)
  {
    var buf := new byte[48];
    PlaceField(buf, m, 0);
    PlaceField(buf, m, 1);
    PlaceField(buf, m, 2);
    PlaceField(buf, m, 3);
    PlaceField(buf, m, 4);
    PlaceField(buf, m, 5);
    bytes := buf[..];
    assert bytes == buf[..48];
  }
}

/** The register map of the two bus devices, from src/constants.rs: the MPU6050
    inertial sensor and the HMC5883L magnetometer, and the (bit, length, value) fields
    the bring-up sequences program. */
module Constants {
  import opened Base
  import opened BitField

  const MPU6050_ADDR: byte := 0x68
  const MPU6050_WHOAMI_ADDR: byte := 0x75

  const MASTER_MODE_ENABLE: byte := 0x6A
  const MASTER_MODE_ENABLE_BIT: byte := 5

  const I2C_BYPASS_ENABLE: byte := 0x37
  const I2C_BYPASS_ENABLE_BIT: byte := 1

  const POWER_MGMT_1: byte := 0x6B
  const SLEEP_ENABLED_BIT: byte := 6
  const CLOCK_SELECT_BIT: byte := 2
  const CLOCK_SELECT_LENGTH: byte := 3
  const CLOCK_SOURCE: byte := 1

  const GYRO_CONFIG: byte := 0x1B
  const GYRO_CONFIG_SELECT_BIT: byte := 4
  const GYRO_CONFIG_SELECT_LENGTH: byte := 2
  const GYRO_CONFIG_250: byte := 0

  const ACCEL_CONFIG: byte := 0x1C
  const ACCEL_CONFIG_SELECT_BIT: byte := 4
  const ACCEL_CONFIG_SELECT_LENGTH: byte := 2
  const ACCEL_CONFIG_2G: byte := 0

  const ACCEL_GYRO_READ: byte := 0x3B
  const MAG_READ: byte := 0x03

  const HMC5883L_ADDR: byte := 0x1E
  const HMC5883L_WHOAMI_ADDR: byte := 0x0A
  const HMC5883L_CONFIG_A: byte := 0
  const HMC5883L_CONFIG_B: byte := 1

  const HMC5883L_AVERAGING_8: byte := 0x03
  const HMC5883L_CRA_AVERAGE_BIT: byte := 6
  const HMC5883L_CRA_AVERAGE_LENGTH: byte := 2
  const HMC5883L_RATE_15: byte := 0x04
  const HMC5883L_CRA_RATE_BIT: byte := 4
  const HMC5883L_CRA_RATE_LENGTH: byte := 3
  const HMC5883L_BIAS_NORMAL: byte := 0x00
  const HMC5883L_CRA_BIAS_BIT: byte := 1
  const HMC5883L_CRA_BIAS_LENGTH: byte := 2

  const HMC5883L_GAIN: byte := 1
  const HMC5883L_GAIN_BIT: byte := 7
  const HMC5883L_GAIN_LENGTH: byte := 3

  const HMC5883L_MODE_SINGLE: byte := 1
  const HMC5883L_MODE_REG: byte := 0x02
  const HMC5883L_MODE_REG_BIT: byte := 1
  const HMC5883L_MODE_REG_LENGTH: byte := 2

  /** The identity string the magnetometer answers from HMC5883L_WHOAMI_ADDR. */
  const HMC5883L_IDENTITY: seq<byte> := [0x48, 0x34, 0x33]  // 'H', '4', '3'

  /** Configuration register A as hmc_init writes it: averaging, output rate and bias,
      each shifted to its field. */
  const HMC5883L_CONFIG_A_VALUE: byte :=
    (HMC5883L_AVERAGING_8 << FieldShift(HMC5883L_CRA_AVERAGE_BIT, HMC5883L_CRA_AVERAGE_LENGTH)) |
    (HMC5883L_RATE_15 << FieldShift(HMC5883L_CRA_RATE_BIT, HMC5883L_CRA_RATE_LENGTH)) |
    (HMC5883L_BIAS_NORMAL << FieldShift(HMC5883L_CRA_BIAS_BIT, HMC5883L_CRA_BIAS_LENGTH))

  /** Configuration register B as hmc_init writes it: the gain field. */
  const HMC5883L_CONFIG_B_VALUE: byte :=
    HMC5883L_GAIN << FieldShift(HMC5883L_GAIN_BIT, HMC5883L_GAIN_LENGTH)

  /** The mode register as hmc_init and get_mag write it: single-measurement mode. */
  const HMC5883L_MODE_VALUE: byte :=
    HMC5883L_MODE_SINGLE << FieldShift(HMC5883L_MODE_REG_BIT, HMC5883L_MODE_REG_LENGTH)

  /** Every (bit, length) pair used with write_bits or a shift is a valid field, so no
      shift overflows. */
  lemma FieldsInRange()
    ensures ValidField(CLOCK_SELECT_BIT, CLOCK_SELECT_LENGTH)
    ensures ValidField(GYRO_CONFIG_SELECT_BIT, GYRO_CONFIG_SELECT_LENGTH)
    ensures ValidField(ACCEL_CONFIG_SELECT_BIT, ACCEL_CONFIG_SELECT_LENGTH)
    ensures ValidField(HMC5883L_CRA_AVERAGE_BIT, HMC5883L_CRA_AVERAGE_LENGTH)
    ensures ValidField(HMC5883L_CRA_RATE_BIT, HMC5883L_CRA_RATE_LENGTH)
    ensures ValidField(HMC5883L_CRA_BIAS_BIT, HMC5883L_CRA_BIAS_LENGTH)
    ensures ValidField(HMC5883L_GAIN_BIT, HMC5883L_GAIN_LENGTH)
    ensures ValidField(HMC5883L_MODE_REG_BIT, HMC5883L_MODE_REG_LENGTH)
  {
  }

  /** Every field value fits its field, so shifting it into place loses no bit. */
  lemma ValuesFitWidths()
    ensures CLOCK_SOURCE < 1 << CLOCK_SELECT_LENGTH
    ensures GYRO_CONFIG_250 < 1 << GYRO_CONFIG_SELECT_LENGTH
    ensures ACCEL_CONFIG_2G < 1 << ACCEL_CONFIG_SELECT_LENGTH
    ensures HMC5883L_AVERAGING_8 < 1 << HMC5883L_CRA_AVERAGE_LENGTH
    ensures HMC5883L_RATE_15 < 1 << HMC5883L_CRA_RATE_LENGTH
    ensures HMC5883L_BIAS_NORMAL < 1 << HMC5883L_CRA_BIAS_LENGTH
    ensures HMC5883L_GAIN < 1 << HMC5883L_GAIN_LENGTH
    ensures HMC5883L_MODE_SINGLE < 1 << HMC5883L_MODE_REG_LENGTH
  {
  }

  /** The three fields of configuration register A (bits 6..5, 4..2, 1..0) are
      disjoint, so OR-ing them yields 0x70; register B is written as 0x20 and the
      mode register as 0x01. */
  lemma MagnetometerBytes()
    ensures FieldMask(HMC5883L_CRA_AVERAGE_BIT, HMC5883L_CRA_AVERAGE_LENGTH)
          & FieldMask(HMC5883L_CRA_RATE_BIT, HMC5883L_CRA_RATE_LENGTH) == 0
    ensures FieldMask(HMC5883L_CRA_RATE_BIT, HMC5883L_CRA_RATE_LENGTH)
          & FieldMask(HMC5883L_CRA_BIAS_BIT, HMC5883L_CRA_BIAS_LENGTH) == 0
    ensures FieldMask(HMC5883L_CRA_AVERAGE_BIT, HMC5883L_CRA_AVERAGE_LENGTH)
          & FieldMask(HMC5883L_CRA_BIAS_BIT, HMC5883L_CRA_BIAS_LENGTH) == 0
    ensures HMC5883L_CONFIG_A_VALUE == 0x70
    ensures HMC5883L_CONFIG_B_VALUE == 0x20
    ensures HMC5883L_MODE_VALUE == 0x01
  {
  }

  /** The sleep bit (6) and the clock-source field (2..0) of POWER_MGMT_1 are disjoint. */
  lemma PowerManagementFieldsDisjoint()
    ensures ValidField(SLEEP_ENABLED_BIT, 1)
    ensures FieldMask(SLEEP_ENABLED_BIT, 1) & FieldMask(CLOCK_SELECT_BIT, CLOCK_SELECT_LENGTH) == 0
    ensures FieldMask(SLEEP_ENABLED_BIT, 1) | FieldMask(CLOCK_SELECT_BIT, CLOCK_SELECT_LENGTH) == 0x47
  {
  }

  /** The MPU6050 answers its own bus address from the WHOAMI register, so start()
      compares the byte read from 0x75 against 0x68. */
  lemma MpuIdentity()
    ensures MPU6050_WHOAMI_ADDR == 0x75 && MPU6050_ADDR == 0x68
  {
  }

  /** start() accepts the magnetometer exactly when its three identity bytes are the
      characters 'H', '4' and '3'. */
  lemma HmcIdentityBytes(s: seq<byte>)
    requires |s| == 3
    ensures s == HMC5883L_IDENTITY <==> s[0] == 'H' as byte && s[1] == '4' as byte && s[2] == '3' as byte
  {
  }

  /** `start_bit - length + 1`, as the source evaluates it in u8 with overflow checks,
      panics for the clock-source field that mpu_init writes with write_bits, and for the
      bias and mode fields whose shifts hmc_init and get_mag compute. */
  lemma FieldShiftPanicsAsWritten()
    ensures ShiftAsWritten(CLOCK_SELECT_BIT, CLOCK_SELECT_LENGTH) == None
    ensures ShiftAsWritten(HMC5883L_CRA_BIAS_BIT, HMC5883L_CRA_BIAS_LENGTH) == None
    ensures ShiftAsWritten(HMC5883L_MODE_REG_BIT, HMC5883L_MODE_REG_LENGTH) == None
    ensures FieldShift(CLOCK_SELECT_BIT, CLOCK_SELECT_LENGTH) == 0
    ensures FieldShift(HMC5883L_MODE_REG_BIT, HMC5883L_MODE_REG_LENGTH) == 0
  {
  }
}

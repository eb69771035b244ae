# headtracker-rs, modelled in Dafny

The firmware of a head tracker on an STM32 board. A GY-87 board carries two sensors:
- an MPU6050 accelerometer and gyroscope;
- an HMC5883L magnetometer.

An ESP8266 modem is driven with AT commands over a UART. At start-up the firmware:
- brings the modem up (setup, a join if needed, a UDP link in passthrough mode);
- initialises both sensors through read-modify-write register updates.

It then loops forever. Each cycle it reads the sensors, feeds the samples to a fusion filter, and streams the resulting orientation as a 48-byte frame behind a 3-byte start marker.

The project has 12 files:

| file | module | what it holds |
|---|---|---|
| `base.dfy` | `Base` | bytes, `Option`/`Result`, byte/char conversions |
| `bitfield.dfy` | `BitField` | the bit arithmetic of `write_bit` / `write_bits`, and the u8 shift as written |
| `constants.dfy` | `Constants` | the register map and field constants of `src/constants.rs`, with facts about them |
| `i2c.dfy` | `I2c` | the I2C bus, described below |
| `uart.dfy` | `Uart` | the serial line to the modem, described below |
| `util.dfy` | `Util` | `string_from_buf_with_skip`: its loop as a method, and the decoder as a function |
| `samples.dfy` | `Samples` | big-endian sample words, the sample layouts, the 48-byte little-endian serialisation |
| `gy87_model.dfy` | `Gy87Model` | every operation of `src/gy87.rs` as a function of the bus, and the lemmas about them |
| `gy87.dfy` | `Gy87Driver` | class `Gy87`, one method per source function, each proved equal to its `Gy87Model` function; `Serialize` fills a 48-byte array in place |
| `wifi_model.dfy` | `WifiModel` | every operation of `src/wifi.rs` as a function of the channel; the reply, ordering and line-splitting lemmas |
| `wifi.dfy` | `WifiDriver` | class `Wifi` with `serial` and `chip_ready`, one method per source function, each proved equal to its `WifiModel` function; the flag loop of `connect` |
| `telemetry.dfy` | `Telemetry` | the bring-up and the streaming loop of `src/main.rs`: functions, lemmas, and methods over the two driver objects |

The I2C bus has three parts:
- a 256-byte register file per device (a map keyed by the device address);
- a log of every transaction;
- the set of transaction indices at which the bus fails.

A transaction to a device that is absent also fails.

The serial line also has three parts:
- the bytes the modem will send;
- a log of every write and read;
- the set of operation indices at which the UART fails.

A read of `n` bytes completes with the next `n` received bytes, or fails.

The fusion filter (`fusion_rs::Ahrs`) is a foreign floating-point library. It appears as a function `orientation` from the sequence of inputs fed so far to the Euler angles it reports. Every `f64` is an opaque 64-bit pattern.

## Model

| member | source | states |
|---|---|---|
| Base.AsciiBytes | src/wifi.rs:194 | `command.as_bytes()` has one byte per char, each the char's code |
| Base.Chars | src/util.rs:14-15 | the byte-by-byte `*i as char` decoding keeps the length, and char i is byte i |
| Base.ByteChar | src/util.rs:15 | `b as char` has code point b |
| Base.CharsIsToken | src/wifi.rs:62 | a decoded reply equals an ASCII token exactly when its bytes are the token's bytes |
| BitField.FieldShift | src/gy87.rs:226-227 | the shift `start_bit - length + 1` puts the field's top bit at `start_bit`, below 8 |
| BitField.FieldShiftBounds | src/gy87.rs:226 | the field lies inside the byte |
| BitField.FieldMask | src/gy87.rs:226 | bit i of the mask is set exactly for shift <= i <= start_bit |
| BitField.Splice | src/gy87.rs:225-230 | the written byte keeps the prior bits outside the mask and has the shifted value inside it |
| BitField.Field | src/gy87.rs:226-228 | a field read back is below `1 << length` |
| BitField.FieldOfSplice | src/gy87.rs:227-230 | reading back a spliced field gives the value cut to the field width |
| BitField.SpliceOfField | src/gy87.rs:225-230 | splicing a field's own value changes nothing |
| BitField.SpliceTwice | src/gy87.rs:225-230 | a second splice into a field overrides the first |
| BitField.WithBit | src/gy87.rs:214-218 | bit `bit` is `enable` and every other bit keeps its prior value |
| BitField.WithBitIsSplice | src/gy87.rs:211-234 | write_bit's byte equals write_bits' byte on the one-bit field |
| BitField.WithBitIdempotent | src/gy87.rs:214-218 | rewriting a bit that already has the wanted value, or writing it twice, changes nothing more |
| BitField.ShiftAsWrittenPanics | src/gy87.rs:226-227 | with overflow checks the u8 expression panics exactly for fields ending at bit 0, and otherwise equals the intended shift |
| BitField.ShiftWrappingIsIntended | src/gy87.rs:226-227 | in wrapping u8 arithmetic the expression is the intended shift for every valid field |
| Constants.FieldsInRange | src/constants.rs:14-53 | every (bit, length) pair given to write_bits or a shift satisfies length <= bit+1 <= 8 and length < 8 |
| Constants.ValuesFitWidths | src/constants.rs:14-53 | every field value fits its field width |
| Constants.MagnetometerBytes | src/constants.rs:36-53 | the three CONFIG_A fields are pairwise disjoint; CONFIG_A is written as 0x70, CONFIG_B as 0x20, MODE as 0x01 |
| Constants.PowerManagementFieldsDisjoint | src/constants.rs:10-16 | the sleep bit 6 and the clock field 2..0 are disjoint and together cover mask 0x47 |
| Constants.MpuIdentity | src/constants.rs:1-2 | the expected WHOAMI value is the device address 0x68, read from register 0x75 |
| Constants.HmcIdentityBytes | src/gy87.rs:112 | the three-char check accepts exactly the bytes of "H43" |
| Constants.FieldShiftPanicsAsWritten | src/gy87.rs:198-206 | the shift as written underflows for the clock, bias and mode fields; the intended shift of the clock and mode fields is 0 |
| I2c.Burst | src/gy87.rs:243 | a burst of n bytes returns byte k from register reg+k, wrapping after 0xFF |
| I2c.TransferRead | src/gy87.rs:238 | a write-read is logged either way and changes no register; it returns the burst exactly when the device acknowledges |
| I2c.TransferWrite | src/gy87.rs:220 | a write is logged; on acknowledge it stores the value in that register alone, otherwise it changes nothing |
| Gy87Model.GetByte | src/gy87.rs:236-240 | one one-byte write-read; the register's value on acknowledge, BusReadWrite otherwise |
| Gy87Model.GetBytes | src/gy87.rs:242-245 | one write-read of `count` bytes; the burst on acknowledge, BusReadWrite otherwise |
| Gy87Model.Send | src/gy87.rs:220 | the write, its failure mapped to BusWrite |
| Gy87Model.WriteBit | src/gy87.rs:211-222 | a read-modify-write of the register with the WithBit byte; an absent device gives BusReadWrite after the one read |
| Gy87Model.WriteBits | src/gy87.rs:224-234 | a read-modify-write of the register with the Splice byte; an absent device gives BusReadWrite after the one read |
| Gy87Model.ReadModifyWriteStores | src/gy87.rs:211-234 | a completed read-modify-write stores the byte in its register and changes no other register of any device |
| Gy87Model.ReadModifyWriteLog | src/gy87.rs:211-234 | one write-read, then one write only if the read completed; a read failure is BusReadWrite with no write; success iff both are acknowledged |
| Gy87Model.WriteBitsKeepsOtherBits | src/gy87.rs:224-234 | after write_bits the register is `(prior & !mask) \| ((value << shift) & mask)`, and no other register changes |
| Gy87Model.WriteBitChangesOneBit | src/gy87.rs:211-222 | after write_bit the register differs from its prior value at most in `bit`, which equals `enable` |
| Gy87Model.Perform | src/gy87.rs:172-190 | one call of mpu_init is the read-modify-write of its byte |
| Gy87Model.Sequence | src/gy87.rs:170-193 | a sequence of n calls appends at most 2n transactions, at least one when n > 0, and keeps the earlier log, the faults and the set of devices; a non-empty one succeeds only with the device on the bus |
| Gy87Model.Script | src/gy87.rs:170-193 | a completed sequence has two transactions per call |
| Gy87Model.Shapes | src/gy87.rs:170-193 | transactions compared up to the written value |
| Gy87Model.PerformLog | src/gy87.rs:211-234 | one call appends one or two transactions of its script, and succeeds exactly when both are acknowledged |
| Gy87Model.SequenceLog | src/gy87.rs:170-193 | a sequence appends a prefix of the calls' transactions, in order |
| Gy87Model.SequenceCounts | src/gy87.rs:170-193 | a sequence keeps faults and devices; success issues all 2n transactions; an error comes from the last transaction |
| Gy87Model.SequenceStopsAtFirstFault | src/gy87.rs:170-193 | every transaction before the last one issued is acknowledged; the sequence succeeds iff the device is on the bus and the last one is acknowledged too; an absent device sees only the first read, which fails with BusReadWrite |
| Gy87Model.SequenceEffect | src/gy87.rs:170-193 | a completed sequence leaves its device's registers as the calls, applied in order, make them |
| Gy87Model.SequenceAt | src/gy87.rs:170-193 | running from call i is call i, then the rest only if it succeeded |
| Gy87Model.MpuInitValid | src/gy87.rs:170-193 | the seven calls of mpu_init use valid bits and fields |
| Gy87Model.MpuInitSequence | src/gy87.rs:170-193 | mpu_init appends between one and fourteen transactions, keeping faults and devices; without the MPU6050 it issues only its first read and fails with BusReadWrite |
| Gy87Model.PowerManagementByte | src/gy87.rs:178-190 | POWER_MGMT_1 becomes `(prior & !0x47) \| 0x01`, and the second sleep clear keeps the clock field |
| Gy87Model.ClearedField | src/gy87.rs:184-187 | the zero full-scale selects clear bits 4..3 |
| Gy87Model.MpuInitRegisters | src/gy87.rs:170-193 | the register file after mpu_init: 0x6A bit 5 clear, 0x37 bit 1 set, 0x6B as above, 0x1B and 0x1C bits 4..3 clear, all else unchanged |
| Gy87Model.MpuInitEffect | src/gy87.rs:170-193 | a completed mpu_init issues its fourteen transactions to the MPU6050 and changes no other device |
| Gy87Model.HmcInitSequence | src/gy87.rs:195-209 | hmc_init keeps faults and devices, its only error is BusWrite, and without the magnetometer it issues only the CONFIG_A write |
| Gy87Model.HmcInitEffect | src/gy87.rs:195-209 | hmc_init appends a non-empty leading part of the writes 0x70, 0x20, 0x01 to registers 0, 1, 2, stopping after the first that is not acknowledged (after the first when the magnetometer is absent); the only error is BusWrite; success iff all three are acknowledged, and then only those registers change |
| Gy87Model.Start | src/gy87.rs:100-117 | start keeps the earlier log, faults and devices, appends between one and 19 transactions, and never reports an update error |
| Gy87Model.StartStops | src/gy87.rs:100-117 | a failed identity read is BusError(BusReadWrite) after that one read; mpu_init's error is MpuInit with its cause and bus; hmc_init's is HmcInit(BusWrite); each tag arises exactly on its step's failure |
| Gy87Model.StartRejectsUnknownMpu | src/gy87.rs:100-105 | a WHOAMI other than 0x68 is `UnknownMPUDeviceAddr(observed)` after the one read, before any init write |
| Gy87Model.StartOrder | src/gy87.rs:100-117 | a successful start appends 19 transactions: first the identity read; then, after mpu_init's fourteen, hmc_init's 3 writes and the 3-byte identity read, which answered "H43" |
| Gy87Model.StartMpuSegment | src/gy87.rs:100-117 | in a successful start, transactions 2 to 15 have the registers and kinds of the mpu_init script |
| Gy87Model.StartRejectsUnknownHmc | src/gy87.rs:108-114 | `UnknownHMCDeviceAddr(bytes)` carries the bytes read, and comes only after all three configuration writes |
| Gy87Model.GetAccelGyro | src/gy87.rs:119-136 | exactly one 14-byte write-read from (0x68, 0x3B), no register changed; Ok iff the MPU6050 acknowledges it, with the burst decoded; the error is BusReadWrite |
| Gy87Model.GetMag | src/gy87.rs:138-151 | one 6-byte burst; an unacknowledged read is BusReadWrite and nothing follows; a completed read is followed by exactly one write [0x02, 0x01]; a failed write is BusWrite despite the read; a success is the burst in X, Y, Z order; faults and devices are kept |
| Gy87Model.Update | src/gy87.rs:153-168 | update keeps faults and devices; an error leaves the filter's inputs as they were; a success appends exactly one input to them |
| Gy87Model.UpdateOutcomes | src/gy87.rs:153-168 | never UpdateError; an error leaves the filter as it was; on success the filter gets (gyro, accel, mag, now - prev) and the result is zero position plus the filter's angles |
| Gy87Model.UpdateTransactions | src/gy87.rs:153-168 | a successful update is the MPU burst, the magnetometer burst, then the mode write, and nothing else |
| Gy87Driver.Gy87.constructor | src/gy87.rs:92-98 | a new driver holds the given bus and filter, and the filter has seen no input |
| Gy87Driver.Gy87.BlockingWriteRead | src/gy87.rs:238 | the buffer is filled in place with the burst on completion and left as it was otherwise |
| Gy87Driver.Gy87.BlockingWrite | src/gy87.rs:220 | the bus becomes the one the transfer leaves |
| Gy87Driver.Gy87.GetByte | src/gy87.rs:236-240 | result and bus as Gy87Model.GetByte |
| Gy87Driver.Gy87.GetBytes | src/gy87.rs:242-245 | buffer, result and bus as Gy87Model.GetBytes |
| Gy87Driver.Gy87.WriteBack | src/gy87.rs:220 | result and bus as Gy87Model.Send |
| Gy87Driver.Gy87.WriteBit | src/gy87.rs:211-222 | result and bus as Gy87Model.WriteBit |
| Gy87Driver.Gy87.WriteBits | src/gy87.rs:224-234 | result and bus as Gy87Model.WriteBits |
| Gy87Driver.Gy87.MpuInit | src/gy87.rs:170-193 | result and bus as the mpu_init sequence |
| Gy87Driver.Gy87.HmcInit | src/gy87.rs:195-209 | result and bus as the hmc_init sequence |
| Gy87Driver.Gy87.Start | src/gy87.rs:100-117 | result and bus as Gy87Model.Start |
| Gy87Driver.Gy87.GetAccelGyro | src/gy87.rs:119-136 | result and bus as Gy87Model.GetAccelGyro |
| Gy87Driver.Gy87.GetMag | src/gy87.rs:138-151 | result and bus as Gy87Model.GetMag |
| Gy87Driver.Gy87.Update | src/gy87.rs:153-168 | result, bus and filter inputs as Gy87Model.Update |
| Gy87Driver.CopyInto | src/gy87.rs:48-53 | `clone_from_slice` overwrites exactly the eight bytes at `at` and keeps every other byte |
| Gy87Driver.PlaceField | src/gy87.rs:48-53 | after one copy the bytes up to field k's end are the serialisation's, given those before it were |
| Gy87Driver.Serialize | src/gy87.rs:46-55 | the 48 bytes built in place in an array are exactly Samples.Serialization of the reading |
| Samples.WordBytes | src/gy87.rs:125 | a word is two bytes |
| Samples.WordRoundTrip | src/gy87.rs:125 | `i16::from_be_bytes` and its inverse undo each other |
| Samples.BeWords | src/gy87.rs:125-132 | a burst of 2n bytes is n words |
| Samples.BeBytes | src/gy87.rs:125-132 | n words are 2n bytes |
| Samples.BeWordsLayout | src/gy87.rs:125-132 | word i comes from bytes 2i and 2i+1, high byte first |
| Samples.BeWordsOfBeBytes | src/gy87.rs:125-132 | decoding an encoding gives the words back |
| Samples.BeBytesOfBeWords | src/gy87.rs:125-132 | encoding a decoding gives the bytes back |
| Samples.DecodeAccelGyro | src/gy87.rs:124-133 | accel axis k comes from bytes [2k, 2k+1], gyro axis k from [8+2k, 9+2k], high byte first; bytes 6-7 are ignored |
| Samples.EncodeAccelGyro | src/gy87.rs:119-136 | the 14-byte burst of a sample |
| Samples.AccelGyroRoundTrip | src/gy87.rs:119-136 | decoding recovers the sample whatever the temperature word; every burst is its decoding re-encoded |
| Samples.DecodeMag | src/gy87.rs:145-149 | X from bytes 0-1, Y from 4-5, Z from 2-3, high byte first |
| Samples.EncodeMag | src/gy87.rs:138-151 | the 6-byte burst of a field reading in wire order X, Z, Y |
| Samples.MagRoundTrip | src/gy87.rs:138-151 | decoding the wire order recovers X, Y, Z, and the other way round |
| Samples.Le | src/gy87.rs:48 | `to_le_bytes` is eight bytes |
| Samples.PackBytes | src/gy87.rs:48 | the bytes of a packed word are the bytes packed |
| Samples.FromLeOfLe | src/gy87.rs:48 | decoding the little-endian bytes recovers the bit pattern |
| Samples.LeOfFromLe | src/gy87.rs:48 | every eight bytes are the encoding of their decoding |
| Samples.Fields | src/gy87.rs:48-53 | the six fields in serialisation order |
| Samples.Words | src/gy87.rs:47-54 | n words are 8n bytes |
| Samples.Unwords | src/gy87.rs:47-54 | 8n bytes are n words |
| Samples.WordsLayout | src/gy87.rs:48-53 | bytes [8i, 8i+8) hold word i little-endian |
| Samples.UnwordsOfWords | src/gy87.rs:47-54 | the words of a layout are the words laid out |
| Samples.WordsOfUnwords | src/gy87.rs:47-54 | a byte string is the layout of its words |
| Samples.Serialization | src/gy87.rs:46-55 | the payload is 48 bytes |
| Samples.SerializationLayout | src/gy87.rs:48-53 | bytes [8i, 8i+8) are field i of x, y, z, yaw, pitch, roll, little-endian |
| Samples.SerializationPrefix | src/gy87.rs:48-53 | the payload up to field k's end is the payload before it followed by field k |
| Samples.SerializationRoundTrip | src/gy87.rs:46-55 | decoding the six words of a serialisation recovers the reading bit for bit |
| Samples.Deserialize | src/gy87.rs:46-55 | every 48-byte string is the serialisation of the reading it decodes to |
| Uart.Write | src/wifi.rs:194 | a write is logged and does or does not complete; it consumes no received byte |
| Uart.Read | src/wifi.rs:198 | a read of n bytes returns the next n bytes and consumes them, or fails and consumes nothing |
| Util.Utf8LenBounds | src/util.rs:13-19 | each pushed char takes one or two bytes of storage, exactly one each iff all bytes are ASCII |
| Util.Utf8LenPrefix | src/util.rs:14-18 | the storage of a prefix never exceeds that of the whole |
| Util.StringFromBufWithSkip | src/util.rs:9-21 | the push loop returns the decoder's result: the whole string, or the error and no partial string |
| Util.DecodedIsTail | src/util.rs:9-21 | a string is the bytes after `skip`, one char each, in order, and has at most `capacity` chars; an error means those bytes are more than `capacity / 2` |
| Util.SkipPastEnd | src/util.rs:14 | a skip at or past the end gives the empty string |
| Util.AsciiCapacity | src/util.rs:13-19 | for an ASCII tail the capacity error happens iff len - skip > N |
| Util.ExactWindow | src/util.rs:9-21 | a tail of exactly N bytes decodes iff it is ASCII |
| Util.SkippedBytesIgnored | src/util.rs:14 | bytes before `skip` never change the result or the error |
| WifiModel.SendRecvRaw | src/wifi.rs:192-202 | the command is written once, then one window read only if the write completed; Tx on a failed write, Rx on a failed read |
| WifiModel.SendRecv | src/wifi.rs:222-239 | the window after the echo and `skip_extra` bytes, decoded; a decoding error is BufWrite |
| WifiModel.SendRecvWithError | src/wifi.rs:204-220 | skips len+2 bytes iff "\r\n" follows the echo, len bytes otherwise |
| WifiModel.CrlfIgnoringCase | src/wifi.rs:212-214 | two bytes equal "\r\n" ignoring ASCII case exactly when they are "\r\n" |
| WifiModel.Split | src/wifi.rs:97 | `split("\r\n")` yields at least one piece |
| WifiModel.JoinSplit | src/wifi.rs:97 | splitting loses nothing: joining the pieces gives the reply |
| WifiModel.SplitHeadIsPrefix | src/wifi.rs:97 | the first piece is a prefix of the reply |
| WifiModel.SplitPiecesHaveNoCrlf | src/wifi.rs:97 | no piece contains the separator |
| WifiModel.SplitAfterPiece | src/wifi.rs:97 | a piece followed by "\r\n" splits off as one piece |
| WifiModel.SplitPiece | src/wifi.rs:97 | a text without separator is one piece |
| WifiModel.SplitJoin | src/wifi.rs:97 | joining separator-free pieces and splitting gives the pieces back |
| WifiModel.JoinedByLines | src/wifi.rs:94-108 | connect's answer is true iff all three markers are among the lines; order and extra lines do not matter |
| WifiModel.Test | src/wifi.rs:58-66 | the line is that of one write of AT and one read of an 8-byte window; a success needs that whole window answered; the error is Tx, Rx or BufWrite |
| WifiModel.ExpectOk | src/wifi.rs:68-77 | the line is that of one write of its command and one read of a window-sized window; a success needs that whole window answered; the error is Tx, Rx, BufWrite or CommandFailed |
| WifiModel.SetStationMode | src/wifi.rs:68-77 | the line is that of one write of AT+CWMODE=1 and one read of a 17-byte window; a success needs that whole window answered; the error is Tx, Rx, BufWrite or CommandFailed |
| WifiModel.SetPassthroughMode | src/wifi.rs:111-119 | the line is that of one write of AT+CIPMODE=1 and one read of an 18-byte window; a success needs that whole window answered; the error is Tx, Rx, BufWrite or CommandFailed |
| WifiModel.SetNormalMode | src/wifi.rs:121-129 | the line is that of one write of AT+CIPMODE=0 and one read of an 18-byte window; a success needs that whole window answered; the error is Tx, Rx, BufWrite or CommandFailed |
| WifiModel.CheckConnected | src/wifi.rs:79-88 | the line is that of one write of AT+CWSTATE? and one read of a 30-byte window; a success needs that whole window answered; the error is Tx, Rx or BufWrite |
| WifiModel.Connect | src/wifi.rs:90-109 | the line is that of one write of the join command and one read of a 78-byte window; a success needs that whole window answered; the error is Tx, Rx or BufWrite |
| WifiModel.DisconnectUdp | src/wifi.rs:131-139 | the line is that of one write of AT+CIPCLOSE and one read of an 18-byte window; a success needs that whole window answered; the error is Tx, Rx, BufWrite or CommandFailed |
| WifiModel.EnterPassthrough | src/wifi.rs:162-171 | the line is that of one write of AT+CIPSEND and one read of a 21-byte window; a success needs that whole window answered; the error is Tx, Rx, BufWrite or CouldNotWriteAsPassthrough |
| WifiModel.StartUdp | src/wifi.rs:141-160 | the faults stay; the error is Tx, Rx, BufWrite, CommandFailed, CouldNotConnectUDP or CouldNotWriteAsPassthrough |
| WifiModel.OpenUdp | src/wifi.rs:145-159 | the faults stay; the error is Tx, Rx, BufWrite, CouldNotConnectUDP or CouldNotWriteAsPassthrough, never CommandFailed |
| WifiModel.ExitPassthrough | src/wifi.rs:173-180 | exactly one write of "+++" and nothing read; success iff the line is ready; the error is Tx |
| WifiModel.SendPosData | src/wifi.rs:182-190 | nothing received is consumed and the faults stay; the error is Tx |
| WifiModel.Setup | src/wifi.rs:46-56 | the error is Tx, Rx, BufWrite, CouldNotConnectToChip or CommandFailed; a success leaves the chip ready |

| WifiModel.WindowsFit | src/wifi.rs:58-171 | the window of every command, as its call passes it (the command, the skipped bytes, RETURN_SIZE and BUF_SIZE), holds exactly the echo, the skipped bytes and the RETURN_SIZE returned bytes |
| WifiModel.SendRecvToken | src/wifi.rs:222-239 | when the window ends with the reply, the result is a token iff the bytes after the skip are its bytes; BufWrite iff a byte is not ASCII; other errors come from the link |
| WifiModel.TestReply | src/wifi.rs:58-66 | "OK" is Ok(true); any other ASCII reply is Ok(false); the only errors are Tx, Rx and BufWrite |
| WifiModel.ExpectOkReply | src/wifi.rs:68-77 | the strict check succeeds only on "OK"; any other ASCII reply is CommandFailed |
| WifiModel.ModeCommandsReply | src/wifi.rs:111-129 | station, passthrough and normal mode succeed only on "OK" in the last two bytes of their window |
| WifiModel.CheckConnectedReply | src/wifi.rs:79-88 | true exactly for the reply `+CWSTATE:2,"Jose"` |
| WifiModel.ConnectReply | src/wifi.rs:90-109 | a completed ASCII reply gives whether the three markers are among its lines; a missing one is Ok(false) |
| WifiModel.EnterPassthroughReply | src/wifi.rs:162-171 | only ">" succeeds; any other ASCII reply is CouldNotWriteAsPassthrough |
| WifiModel.WithErrorReply | src/wifi.rs:204-220 | the reply is a token iff the bytes after the skip are its bytes |
| WifiModel.DisconnectUdpAccepts | src/wifi.rs:131-139 | disconnect succeeds exactly on "ERR" or "CLOSE" |
| WifiModel.DisconnectUdpAfterCrlf | src/wifi.rs:131-139 | after a "\r\n" only "ERR" can match |
| WifiModel.DisconnectUdpWithoutCrlf | src/wifi.rs:131-139 | without a "\r\n" only "CLOSE" can match |
| WifiModel.DisconnectUdpReply | src/wifi.rs:133-134 | "ERR" matches only on the CRLF path, "CLOSE" only on the other |
| WifiModel.StartUdpConnectReply | src/wifi.rs:146-147 | "CONNECT" can match only without a "\r\n" after the echo |
| WifiModel.ExchangeExtends | src/wifi.rs:192-202 | one command appends a prefix of its write and read, and a completed one consumes exactly its window |
| WifiModel.ReadExtends | src/wifi.rs:151-154 | the drain appends one read of six bytes |
| WifiModel.OpenUdpOrder | src/wifi.rs:145-159 | the line is always a non-empty leading part of CIPSTART's exchange, the six-byte drain and CIPSEND's exchange; a success is all five operations, having consumed 73 bytes |
| WifiModel.StartUdpOrder | src/wifi.rs:141-160 | the line is always a non-empty leading part of the exchanges of CIPCLOSE, CIPMODE=1, CIPSTART, the drain and CIPSEND; a success is all nine operations, having consumed 109 bytes |
| WifiModel.OpenUdpOutcomes | src/wifi.rs:145-159 | a CIPSTART error is returned with its line; a completed reply other than "CONNECT" is CouldNotConnectUDP after CIPSTART's exchange alone; a failed drain is Rx after that exchange and one 6-byte read, consuming nothing more; a completed drain goes on to enter_passthrough |
| WifiModel.StartUdpOutcomes | src/wifi.rs:141-160 | disconnect_udp's error is returned as it is, with its line; then set_passthrough_mode's; otherwise the result is the opening's; success iff all three succeed |
| WifiModel.SendPosDataLog | src/wifi.rs:182-190 | MSG_START, then the data only if the marker went out; nothing is read; MSG_END is never written unless it is the data |
| WifiModel.CommandsGrow | src/wifi.rs:58-88 | test, station mode and check_connected only append to the log |
| WifiModel.PreambleLog | src/wifi.rs:47-48 | the escape sequence and then the normal-mode command are the first two writes |
| WifiModel.SetupGrows | src/wifi.rs:49-55 | after the preamble setup only appends |
| WifiModel.SetupLog | src/wifi.rs:46-56 | setup always starts with "+++" and AT+CIPMODE=0, whether or not they succeed |
| WifiModel.SetupOutcomes | src/wifi.rs:46-56 | the first two errors are dropped; chip_ready is test's answer, kept on a failed test; CouldNotConnectToChip iff test said false; success is check_connected's answer with the chip ready |
| WifiDriver.ScanLines | src/wifi.rs:94-105 | the three flags are set exactly when their marker is one of the lines |
| WifiDriver.Wifi.constructor | src/wifi.rs:39-44 | a new driver holds the given line and its chip is not ready |
| WifiDriver.Wifi.SerialWrite | src/wifi.rs:194 | the line as Uart.Write leaves it |
| WifiDriver.Wifi.SerialRead | src/wifi.rs:198 | the buffer is filled in place on completion and left as it was otherwise |
| WifiDriver.Wifi.SendRecvRaw | src/wifi.rs:192-202 | result, buffer and line as WifiModel.SendRecvRaw |
| WifiDriver.Wifi.SendRecv | src/wifi.rs:222-239 | result and line as WifiModel.SendRecv |
| WifiDriver.Wifi.SendRecvWithError | src/wifi.rs:204-220 | result and line as WifiModel.SendRecvWithError |
| WifiDriver.Wifi.Test | src/wifi.rs:58-66 | result and line as WifiModel.Test |
| WifiDriver.Wifi.ExpectOk | src/wifi.rs:68-77 | result and line as WifiModel.ExpectOk |
| WifiDriver.Wifi.SetStationMode | src/wifi.rs:68-77 | result and line as WifiModel.SetStationMode |
| WifiDriver.Wifi.SetPassthroughMode | src/wifi.rs:111-119 | result and line as WifiModel.SetPassthroughMode |
| WifiDriver.Wifi.SetNormalMode | src/wifi.rs:121-129 | result and line as WifiModel.SetNormalMode |
| WifiDriver.Wifi.CheckConnected | src/wifi.rs:79-88 | result and line as WifiModel.CheckConnected |
| WifiDriver.Wifi.Connect | src/wifi.rs:90-109 | result and line as WifiModel.Connect |
| WifiDriver.Wifi.DisconnectUdp | src/wifi.rs:131-139 | result and line as WifiModel.DisconnectUdp |
| WifiDriver.Wifi.StartUdp | src/wifi.rs:141-160 | result and line as WifiModel.StartUdp |
| WifiDriver.Wifi.OpenUdp | src/wifi.rs:145-159 | result and line as WifiModel.OpenUdp |
| WifiDriver.Wifi.EnterPassthrough | src/wifi.rs:162-171 | result and line as WifiModel.EnterPassthrough |
| WifiDriver.Wifi.ExitPassthrough | src/wifi.rs:173-180 | result and line as WifiModel.ExitPassthrough |
| WifiDriver.Wifi.SendPosData | src/wifi.rs:182-190 | result and line as WifiModel.SendPosData |
| WifiDriver.Wifi.Setup | src/wifi.rs:46-56 | result, line and chip_ready as WifiModel.Setup |
| Telemetry.ModemBringUp | src/main.rs:38-44 | chip_ready is the one setup leaves, set on success and on a start_udp error; each tag carries an error its step can report; never SensorStartFailed |
| Telemetry.ModemFatal | src/main.rs:38-44 | a setup, join or start_udp error stops bring-up with that step's tag; a join that completes is not fatal whatever it answers |
| Telemetry.ConnectStarts | src/wifi.rs:91-92 | connect's first operation is the join command |
| Telemetry.StartUdpStarts | src/wifi.rs:142 | start_udp's first operation is the close command |
| Telemetry.ModemChannel | src/main.rs:39-44 | where the modem's bring-up stops on each path |
| Telemetry.ModemOrder | src/main.rs:39-44 | bring-up only appends after setup; a setup error ends it there; after Ok(false) the next write is the join command, after Ok(true) the close command; after a completed join, whatever its answer, the close command follows |
| Telemetry.SensorsLast | src/main.rs:44-61 | the bus is untouched unless the modem came up, and then sees exactly gy87 start; a start error is SensorStartFailed with its cause; the sensors leave the line alone |
| Telemetry.BringUp | src/main.rs:38-61 | the line and chip_ready are the modem bring-up's; the bus keeps its devices and faults and its earlier log, and is untouched after a modem error; a sensor error is never an update error |
| Telemetry.RunStep | src/main.rs:70-79 | one more clock reading is one more cycle |
| Telemetry.Cycle | src/main.rs:71-78 | the bus keeps its devices and faults and the line its received bytes and faults; the filter gains at most one input; without one, prev and the line are kept; with one, prev is the later clock |
| Telemetry.Run | src/main.rs:70-79 | after n readings the filter has gained at most n inputs after the ones it had; devices, bus faults, received bytes and line faults are kept |
| Telemetry.SkippedCycle | src/main.rs:71-72 | a failed update sends nothing and keeps prev and the filter |
| Telemetry.ReportedCycle | src/main.rs:71-77 | a completed update sends MSG_START, then exactly the 48-byte serialisation, which decodes to the reading; prev moves to the later clock whatever the send returns |
| Telemetry.RunAppend | src/main.rs:70-79 | two stretches of cycles run one after the other are the stretches run together |
| Telemetry.CycleStreams | src/main.rs:71-78 | a cycle appends nothing, a marker, or a marker and a payload, and reads nothing |
| Telemetry.FramedAppend | src/main.rs:71-78 | appending frames keeps a log framed |
| Telemetry.RunStreams | src/main.rs:70-79 | the loop only writes markers and 48-byte payloads, each payload right after a marker, keeps the earlier log and never reads |
| Telemetry.ModemBringUpOn | src/main.rs:38-44 | result, line and chip_ready as the modem bring-up |
| Telemetry.BringUpOn | src/main.rs:38-61 | result, line, chip_ready and bus as the whole bring-up |
| Telemetry.StreamCycle | src/main.rs:71-78 | one loop pass leaves prev, bus, filter and line as one cycle |
| Telemetry.Stream | src/main.rs:68-79 | after any finite run of clock readings prev, bus, filter and line are those of the cycles run in turn |

## Left out

- Peripheral, clock, DMA, interrupt and pin setup, and the LED (src/main.rs:28-35, 48-58, 65-66): hardware plumbing. The bus and the serial line stand in for the embassy `I2c` and `Uart` drivers.
- `Timer::after` delays and `async`: they change no value. Each command runs to completion in turn.
- `rprintln!`/`rprint!` logging and the `Display` impl of `Gy87Error`: output only. A send error in the loop is dropped, which is what its logging amounts to.
- Floating point:
  - `convert_accel` and `convert_gyro`, and the `as f32` casts of `get_mag`: samples stop at their 16-bit patterns.
  - The `as_micros() as f32 / 1000000.0` of `update`: the filter receives the elapsed ticks.
  - The `as f64` of the angles: each angle is an opaque 64-bit pattern.
- The fusion filter `fusion_rs::Ahrs`: its `update`/`get_euler` is a function `orientation` of the inputs fed so far, not a model of the filter.
- `Instant`: clock readings are integers supplied as parameters, `now` to `update` and `later` for the new `prev`.
- Gy87Model.Update: elapsed time is `now - prev`, a plain difference.
- The infinite `loop` of src/main.rs:70-79 is modelled over any finite sequence of clock readings. "It never terminates" is not a statement the model makes.
- The unused `i` counter of src/main.rs:69.
- Panic and HardFault handlers (src/main.rs:82-92).
- An `unwrap` panic is the bring-up function's `Err` result.
- Uart.Read: a read that the modem cannot fill (fewer bytes than the buffer) is a failed read. The real DMA read would wait.
- SerialRead and BlockingWriteRead: a failed transfer leaves the buffer unchanged. What a real failed DMA transfer leaves in the buffer is not modelled.
- Sensor registers change only through the driver's writes. New measurements appearing in the data registers between reads are not modelled. The registers are free state of the bus instead.
- WifiModel.SendRecvWithError requires `|command| + 2 <= bufSize`. The source's slice would panic otherwise, and both windows passed to it meet it (WifiModel.WindowsFit).
- Gy87Model.WriteBits and the shifted constants of `hmc_init` and `get_mag` use the intended shift `start_bit + 1 - length`. The u8 expression as written is modelled separately (see Findings).
- `MSG_END` is declared and never written. It appears only as a constant in WifiModel.SendPosDataLog.
- Telemetry.BringUpOn takes both driver objects already constructed. `Gy87::new` and `Wifi::new` do no I/O, so the point of construction does not matter.

## Findings

| source | as written | input that shows it | evidently intended | confidence | as-written member | corrected member |
|---|---|---|---|---|---|---|
| src/gy87.rs:226-227 | the shift is `start_bit - length + 1` in u8, evaluated left to right | `write_bits(.., CLOCK_SELECT_BIT = 2, CLOCK_SELECT_LENGTH = 3, ..)` from `mpu_init` (line 181): `2 - 3` underflows, so it panics with overflow checks on | shift 0, the field at bits 2..0 (`start_bit + 1 - length`) | not executed | BitField.ShiftAsWrittenPanics | BitField.FieldShift |
| src/gy87.rs:198-206 | the same u8 expression for the bias and mode fields of `hmc_init` (and of `get_mag`, line 142) | bias (1, 2) and mode (1, 2): `1 - 2` underflows; with all operands constants, rustc's deny-by-default arithmetic-overflow lint would likely reject this at compile time | shift 0 for both, giving 0x70 for CONFIG_A and 0x01 for MODE | not executed | Constants.FieldShiftPanicsAsWritten | Constants.MagnetometerBytes |

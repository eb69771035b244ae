/** The bit-level arithmetic of the register read-modify-write helpers in src/gy87.rs:
    setting or clearing one bit (`write_bit`) and splicing a value into a field
    (`write_bits`). A field `(startBit, length)` is `length` bits wide and ends at
    `startBit`, counted from the most significant of its bits downward. */
module BitField {
  import opened Base

  /** Bit i of x (bit 0 is the least significant). */
  predicate BitSet(x: byte, i: byte)
    requires i < 8
  {
    (x >> i) & 1 == 1
  }

  /** The fields write_bits can take without a shift overflowing its u8: the width mask
      `1 << length` fits, the field lies inside the byte, and the shift is below 8. */
  predicate ValidField(startBit: byte, length: byte) {
    startBit < 8 && length < 8 && length <= startBit + 1 && startBit + 1 - length < 8
  }

  /** Where the field's lowest bit sits: `start_bit + 1 - length`, which never leaves
      0..7 for a valid field, whatever order the terms are taken in. */
  function FieldShift(startBit: byte, length: byte): (shift: byte)
    requires ValidField(startBit, length)
    ensures shift + length == startBit + 1 && shift < 8
  {
    startBit + 1 - length
  }

  lemma FieldShiftBounds(startBit: byte, length: byte)
    requires ValidField(startBit, length)
    ensures FieldShift(startBit, length) < 8 && FieldShift(startBit, length) + length <= 8
    ensures startBit == FieldShift(startBit, length) + length - 1 || length == 0
  {
  }

  /** `((1 << length) - 1) << shift`: the field's bits and no others. */
  function FieldMask(startBit: byte, length: byte): (mask: byte)
    requires ValidField(startBit, length)
    ensures forall i :: 0 <= i < 8 ==>
      (BitSet(mask, i) <==> FieldShift(startBit, length) <= i <= startBit)
  {
    FieldShiftBounds(startBit, length);
    ((1 << length) - 1) << FieldShift(startBit, length)
  }

  /** The byte that write_bits writes back for prior register value `prior`: outside
      the field it agrees with `prior`, inside the field it holds `value` shifted into
      place (the bits of `value` that do not fit are dropped). */
  function Splice(prior: byte, startBit: byte, length: byte, value: byte): (r: byte)
    requires ValidField(startBit, length)
    ensures r & !FieldMask(startBit, length) == prior & !FieldMask(startBit, length)
    ensures r & FieldMask(startBit, length) == (value << FieldShift(startBit, length)) & FieldMask(startBit, length)
  {
    FieldShiftBounds(startBit, length);
    var mask := FieldMask(startBit, length);
    (prior & !mask) | ((value << FieldShift(startBit, length)) & mask)
  }

  /** The value a field of x holds, read back down to bit 0. */
  function Field(x: byte, startBit: byte, length: byte): (v: byte)
    requires ValidField(startBit, length)
    ensures v < 1 << length
  {
    (x & FieldMask(startBit, length)) >> FieldShift(startBit, length)
  }

  /** Reading back a spliced field gives the value cut to the field's width. */
  lemma FieldOfSplice(prior: byte, startBit: byte, length: byte, value: byte)
    requires ValidField(startBit, length)
    ensures Field(Splice(prior, startBit, length, value), startBit, length) == value & ((1 << length) - 1)
  {
  }

  /** Splicing in what a field already holds changes nothing. */
  lemma SpliceOfField(prior: byte, startBit: byte, length: byte)
    requires ValidField(startBit, length)
    ensures Splice(prior, startBit, length, Field(prior, startBit, length)) == prior
  {
  }

  /** A second splice into the same field overrides the first. */
  lemma SpliceTwice(prior: byte, startBit: byte, length: byte, first: byte, second: byte)
    requires ValidField(startBit, length)
    ensures Splice(Splice(prior, startBit, length, first), startBit, length, second)
         == Splice(prior, startBit, length, second)
  {
  }

  /** The byte that write_bit writes back: bit `bit` set to `enable`, all others kept. */
  function WithBit(prior: byte, bit: byte, enable: bool): (r: byte)
    requires bit < 8
    ensures BitSet(r, bit) == enable
    ensures r & !(1 << bit) == prior & !(1 << bit)
  {
    if enable then prior | (1 << bit) else prior & !(1 << bit)
  }

  /** write_bit is write_bits on a one-bit field. */
  lemma WithBitIsSplice(prior: byte, bit: byte, enable: bool)
    requires bit < 8
    ensures ValidField(bit, 1)
    ensures WithBit(prior, bit, enable) == Splice(prior, bit, 1, if enable then 1 else 0)
  {
  }

  /** Writing a bit that already has the wanted value leaves the byte as it was, so a
      repeated write_bit is idempotent. */
  lemma WithBitIdempotent(prior: byte, bit: byte, enable: bool)
    requires bit < 8
    ensures BitSet(prior, bit) == enable ==> WithBit(prior, bit, enable) == prior
    ensures WithBit(WithBit(prior, bit, enable), bit, enable) == WithBit(prior, bit, enable)
  {
  }

  /** `start_bit - length + 1` as the source evaluates it: u8 arithmetic, left to right,
      with overflow checks on. None stands for the overflow panic. */
  function ShiftAsWritten(startBit: byte, length: byte): Option<byte> {
    if startBit < length then None
    else if startBit - length == 0xFF then None
    else Some(startBit - length + 1)
  }

  /** The same expression in wrapping u8 arithmetic (overflow checks off). */
  function ShiftWrapping(startBit: byte, length: byte): byte {
    startBit - length + 1
  }

  /** With overflow checks the shift panics for exactly the fields that end at bit 0. */
  lemma ShiftAsWrittenPanics(startBit: byte, length: byte)
    requires ValidField(startBit, length)
    ensures ShiftAsWritten(startBit, length) == None <==> length == startBit + 1
    ensures ShiftAsWritten(startBit, length).Some? ==>
      ShiftAsWritten(startBit, length).value == FieldShift(startBit, length)
  {
  }

  /** Wrapping arithmetic gives the intended shift for every valid field. */
  lemma ShiftWrappingIsIntended(startBit: byte, length: byte)
    requires ValidField(startBit, length)
    ensures ShiftWrapping(startBit, length) == FieldShift(startBit, length)
  {
  }
}

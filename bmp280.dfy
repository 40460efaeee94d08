/**
 * The register bit-field handling of the BMP280 driver
 * (BMP280/src/BMP280.C): the ctrl_meas and config encoders, the status
 * decoder, the raw pressure assembly and the write-buffer construction.
 *
 * Bytes on the bus are `bv8`. C promotes every operand of `<<`, `|` and `&`
 * to a 32-bit `int`; that promoted value is modelled as `bv32`, and the
 * assignment of an `int` back to a `uint8_t` keeps its low eight bits
 * (`ToUint8`). The bus transfers themselves are not modelled: each
 * operation takes the bytes the bus handed in, or returns the bytes it
 * would hand to the bus.
 */
module Bmp280 {
  import opened Wrappers
  import opened Bmp280Types

  type Byte = bv8

  /** A C `int` holding a small non-negative value (an enum or a `uint8_t`), as 32 bits. */
  function Promote(n: nat): (w: bv32)
    requires n < 256
  {
    n as bv32
  }

  /** Storing an `int` in a `uint8_t`: the value modulo 256. */
  function ToUint8(w: bv32): (b: Byte)
    ensures w < 256 ==> b as bv32 == w
  {
    (w & 0xFF) as Byte
  }

  // ---------------------------------------------------------------------
  // ctrl_meas (BMP280/src/BMP280.C:156-161)
  // ---------------------------------------------------------------------

  /** The three settings the ctrl_meas byte carries. */
  datatype Measurement = Measurement(tempOversampling: Oversampling, pressOversampling: Oversampling, powerMode: PowerMode)

  /** The `int` the source computes before storing it in `uint8_t toSend`. */
  function CtrlMeasWord(tempOverSampling: Oversampling, pressOverSampling: Oversampling, pwrMode: PowerMode): (w: bv32)
  {
    (Promote(OversamplingOrdinal(tempOverSampling)) << 5)
      | (Promote(OversamplingOrdinal(pressOverSampling)) << 2)
      | Promote(PowerModeOrdinal(pwrMode))
  }

  /**
   * BMP_ConfigMeasurement's encoding: temperature oversampling in bits 7..5,
   * pressure oversampling in bits 4..2, power mode in bits 1..0.
   */
  function EncodeCtrlMeas(tempOverSampling: Oversampling, pressOverSampling: Oversampling, pwrMode: PowerMode): (b: Byte)
    ensures b >> 5 == OversamplingOrdinal(tempOverSampling) as Byte
    ensures (b >> 2) & 7 == OversamplingOrdinal(pressOverSampling) as Byte
    ensures b & 3 == PowerModeOrdinal(pwrMode) as Byte
  {
    ToUint8(CtrlMeasWord(tempOverSampling, pressOverSampling, pwrMode))
  }

  /** Reads the three fields of a ctrl_meas byte; None when a field holds a value no enumerant has. */
  function DecodeCtrlMeas(b: Byte): (r: Option<Measurement>)
    ensures r.Some? <==> b >> 5 < 6 && (b >> 2) & 7 < 6 && b & 3 < 3
    ensures r.Some? ==>
      && b >> 5 == OversamplingOrdinal(r.value.tempOversampling) as Byte
      && (b >> 2) & 7 == OversamplingOrdinal(r.value.pressOversampling) as Byte
      && b & 3 == PowerModeOrdinal(r.value.powerMode) as Byte
  {
    var t := OversamplingFromOrdinal((b >> 5) as nat);
    var p := OversamplingFromOrdinal(((b >> 2) & 7) as nat);
    var m := PowerModeFromOrdinal((b & 3) as nat);
    if t.Some? && p.Some? && m.Some? then Some(Measurement(t.value, p.value, m.value)) else None
  }

  /** The `int` never exceeds 0xB6 (= 5<<5 | 5<<2 | 2). */
  lemma CtrlMeasWordBound(tempOverSampling: Oversampling, pressOverSampling: Oversampling, pwrMode: PowerMode)
    ensures CtrlMeasWord(tempOverSampling, pressOverSampling, pwrMode) <= 0xB6
  {
    OversamplingFits(tempOverSampling);
    OversamplingFits(pressOverSampling);
    PowerModeFits(pwrMode);
    FieldsBound(Promote(OversamplingOrdinal(tempOverSampling)),
                Promote(OversamplingOrdinal(pressOverSampling)),
                Promote(PowerModeOrdinal(pwrMode)));
  }

  /** So storing the `int` in `uint8_t toSend` loses nothing: the byte is the whole word. */
  lemma CtrlMeasNoTruncation(tempOverSampling: Oversampling, pressOverSampling: Oversampling, pwrMode: PowerMode)
    ensures EncodeCtrlMeas(tempOverSampling, pressOverSampling, pwrMode) as bv32
         == CtrlMeasWord(tempOverSampling, pressOverSampling, pwrMode)
  {
    CtrlMeasWordBound(tempOverSampling, pressOverSampling, pwrMode);
  }

  /** An oversampling setting promoted to `int` is at most 5. */
  lemma OversamplingFits(o: Oversampling)
    ensures Promote(OversamplingOrdinal(o)) <= 5
  {
    match o
    case NoOversampling =>
    case OversamplingBy1 =>
    case OversamplingBy2 =>
    case OversamplingBy4 =>
    case OversamplingBy8 =>
    case OversamplingBy16 =>
  }

  /** A power mode promoted to `int` is at most 2. */
  lemma PowerModeFits(m: PowerMode)
    ensures Promote(PowerModeOrdinal(m)) <= 2
  {
    match m
    case Sleep =>
    case Forced =>
    case Normal =>
  }

  /** The largest word, 0xB6, is reached by the largest enumerants. */
  lemma CtrlMeasLargest()
    ensures CtrlMeasWord(OversamplingBy16, OversamplingBy16, Normal) == 0xB6
  {
  }

  /** Three fields of at most 5, 5 and 2 packed at bits 5, 2 and 0 stay at or below 0xB6. */
  lemma FieldsBound(t: bv32, p: bv32, m: bv32)
    requires t <= 5 && p <= 5 && m <= 2
    ensures (t << 5) | (p << 2) | m <= 0xB6
  {
  }

  /** Decoding an encoded ctrl_meas byte gives back the three settings. */
  lemma CtrlMeasRoundTrip(c: Measurement)
    ensures DecodeCtrlMeas(EncodeCtrlMeas(c.tempOversampling, c.pressOversampling, c.powerMode)) == Some(c)
  {
    var b := EncodeCtrlMeas(c.tempOversampling, c.pressOversampling, c.powerMode);
    OrdinalsRoundTrip(c.tempOversampling, c.powerMode, T0dot5, Coef1);
    OrdinalsRoundTrip(c.pressOversampling, c.powerMode, T0dot5, Coef1);
  }

  /** Every byte that decodes is the encoding of what it decodes to: the encoding is onto the decodable bytes. */
  lemma CtrlMeasCanonical(b: Byte)
    requires DecodeCtrlMeas(b).Some?
    ensures var c := DecodeCtrlMeas(b).value;
      EncodeCtrlMeas(c.tempOversampling, c.pressOversampling, c.powerMode) == b
  {
    var c := DecodeCtrlMeas(b).value;
    var e := EncodeCtrlMeas(c.tempOversampling, c.pressOversampling, c.powerMode);
    BytesEqualByFields(e, b);
  }

  /** Two bytes that agree in bits 7..5, 4..2 and 1..0 are equal. */
  lemma BytesEqualByFields(x: Byte, y: Byte)
    requires x >> 5 == y >> 5 && (x >> 2) & 7 == (y >> 2) & 7 && x & 3 == y & 3
    ensures x == y
  {
    assert x == ((x >> 5) << 5) | (((x >> 2) & 7) << 2) | (x & 3);
    assert y == ((y >> 5) << 5) | (((y >> 2) & 7) << 2) | (y & 3);
  }

  // ---------------------------------------------------------------------
  // config (BMP280/src/BMP280.C:163-174)
  // ---------------------------------------------------------------------

  /** The three settings the config byte carries; spiEnable is 1 to enable SPI, 0 otherwise. */
  datatype Filtering = Filtering(standby: StandbyTime, filter: IirFilter, spiEnable: Byte)

  /** The `int` the source computes before storing it in `uint8_t toSend`. */
  function ConfigWord(normalOpStandBy: StandbyTime, iirFilter: IirFilter, spiEnable: Byte): (w: bv32)
  {
    (Promote(StandbyOrdinal(normalOpStandBy)) << 5)
      | (Promote(FilterOrdinal(iirFilter)) << 2)
      | spiEnable as bv32
  }

  /**
   * BMP_Config's encoding: standby time in bits 7..5, filter coefficient in
   * bits 4..2, spiEnable OR-ed in unmasked. The source's `int` is never
   * truncated, bit 0 always carries spiEnable's bit 0, and with spiEnable
   * below 4 the three fields are exactly the inputs.
   */
  function EncodeConfig(normalOpStandBy: StandbyTime, iirFilter: IirFilter, spiEnable: Byte): (b: Byte)
    ensures b as bv32 == ConfigWord(normalOpStandBy, iirFilter, spiEnable)
    ensures b & spiEnable == spiEnable
    ensures b & 1 == spiEnable & 1
    ensures spiEnable < 4 ==>
      && b >> 5 == StandbyOrdinal(normalOpStandBy) as Byte
      && (b >> 2) & 7 == FilterOrdinal(iirFilter) as Byte
      && b & 3 == spiEnable
  {
    ToUint8(ConfigWord(normalOpStandBy, iirFilter, spiEnable))
  }

  /**
   * Reads the fields of a config byte; None when the filter field holds a
   * value no enumerant has or the unused bit 1 is set.
   */
  function DecodeConfig(b: Byte): (r: Option<Filtering>)
    ensures r.Some? <==> (b >> 2) & 7 < 5 && b & 2 == 0
    ensures r.Some? ==>
      && b >> 5 == StandbyOrdinal(r.value.standby) as Byte
      && (b >> 2) & 7 == FilterOrdinal(r.value.filter) as Byte
      && b & 3 == r.value.spiEnable
      && r.value.spiEnable <= 1
  {
    var s := StandbyFromOrdinal((b >> 5) as nat);
    var f := FilterFromOrdinal(((b >> 2) & 7) as nat);
    if s.Some? && f.Some? && b & 2 == 0 then Some(Filtering(s.value, f.value, b & 1)) else None
  }

  /** With spiEnable 0 or 1, as the source documents it, decoding an encoded config byte gives back the settings. */
  lemma ConfigRoundTrip(c: Filtering)
    requires c.spiEnable <= 1
    ensures DecodeConfig(EncodeConfig(c.standby, c.filter, c.spiEnable)) == Some(c)
  {
    OrdinalsRoundTrip(NoOversampling, Sleep, c.standby, c.filter);
  }

  /** Every byte that decodes is the encoding of what it decodes to. */
  lemma ConfigCanonical(b: Byte)
    requires DecodeConfig(b).Some?
    ensures var c := DecodeConfig(b).value;
      EncodeConfig(c.standby, c.filter, c.spiEnable) == b
  {
    var c := DecodeConfig(b).value;
    BytesEqualByFields(EncodeConfig(c.standby, c.filter, c.spiEnable), b);
  }

  /**
   * The precondition of the round trip is needed: an spiEnable of 4 is
   * OR-ed into the filter field and turns the filter coefficient 1 into 2.
   */
  lemma ConfigSpiEnableOverwritesFilter()
    ensures DecodeConfig(EncodeConfig(T0dot5, Coef1, 4)) == Some(Filtering(T0dot5, Coef2, 0))
  {
  }

  // ---------------------------------------------------------------------
  // status (BMP280/src/BMP280.C:136-145)
  // ---------------------------------------------------------------------

  /** The two flags BMP_Status writes through its out-pointers. */
  datatype StatusFlags = StatusFlags(measuring: Byte, imUpdate: Byte)

  /**
   * BMP_Status's bit extraction from the status byte read from the device:
   * measuring is bit 3 (a conversion is running), imUpdate is bit 0 (NVM data
   * are being copied to the image registers). Each flag is 0 or 1.
   */
  function DecodeStatus(status: Byte): (r: StatusFlags)
    ensures r.measuring <= 1 && r.imUpdate <= 1
    ensures r.measuring == 1 <==> status & 0x08 != 0
    ensures r.imUpdate == 1 <==> status & 0x01 != 0
  {
    StatusFlags((status >> 3) & 0x01, status & 0x01)
  }

  /** No bit of the status byte other than bits 3 and 0 affects either flag. */
  lemma StatusIgnoresOtherBits(status: Byte, noise: Byte)
    requires noise & 0x09 == 0
    ensures DecodeStatus(status ^ noise) == DecodeStatus(status)
  {
  }

  // ---------------------------------------------------------------------
  // raw pressure (BMP280/src/BMP280.C:181-191)
  // ---------------------------------------------------------------------

  /** An `int8_t` element promoted to `int`: the byte's two's-complement value, sign-extended to 32 bits. */
  function SignExtend(b: Byte): (w: bv32)
    ensures w & 0xFF == b as bv32
    ensures b < 0x80 ==> w == b as bv32
    ensures b >= 0x80 ==> w >> 8 == 0xFF_FFFF
  {
    if b < 0x80 then b as bv32 else b as bv32 | 0xFFFF_FF00
  }

  /**
   * BMP_ReadRawPress's assembly, as written: toRead holds the three bytes of
   * a burst read from PRESS_MSB, in the order read, as `int8_t`. The result
   * is the `int32_t` it returns; it lies in [0, 2^20) and its low four bits
   * are always 0.
   */
  function ReadRawPress(toRead: seq<Byte>): (r: bv32)
    requires |toRead| == 3
    ensures r < 0x10_0000
    ensures r & 0xF == 0
  {
    ((SignExtend(toRead[2]) << 12) | (SignExtend(toRead[1]) << 4) | (SignExtend(toRead[0]) & 0xF0)) & 0xF_FFFF
  }

  /**
   * What the expression computes, over the unsigned bytes: the first byte's
   * high nibble in bits 7..4, the second byte in bits 11..4 and the third
   * byte in bits 19..12 -- unless the second byte is negative as an
   * `int8_t`, whose sign extension then sets bits 19..12 and hides the third
   * byte. The signs of the first and third bytes never matter.
   */
  lemma ReadRawPressAsWritten(toRead: seq<Byte>)
    requires |toRead| == 3
    ensures ReadRawPress(toRead)
         == (if toRead[1] < 0x80 then (toRead[2] as bv32) << 12 else 0xF_F000)
              | ((toRead[1] as bv32) << 4)
              | (toRead[0] & 0xF0) as bv32
  {
    var b0, b1, b2 := toRead[0], toRead[1], toRead[2];
    assert (SignExtend(b2) << 12) & 0xF_FFFF == (b2 as bv32) << 12;
    assert (SignExtend(b0) & 0xF0) == (b0 & 0xF0) as bv32;
    if b1 < 0x80 {
      assert SignExtend(b1) << 4 == (b1 as bv32) << 4;
    } else {
      assert (SignExtend(b1) << 4) & 0xF_FFFF == 0xF_F000 | ((b1 as bv32) << 4);
    }
  }

  /**
   * The datasheet's assembly of the 20-bit raw pressure from the unsigned
   * bytes pressure MSB, LSB and XLSB (read in that order): MSB in bits
   * 19..12, LSB in bits 11..4, the XLSB's high nibble in bits 3..0. Every
   * one of the 20 bits is recovered from the result.
   */
  function RawPressure(msb: Byte, lsb: Byte, xlsb: Byte): (r: bv32)
    ensures r < 0x10_0000
    ensures r >> 12 == msb as bv32
    ensures (r >> 4) & 0xFF == lsb as bv32
    ensures r & 0xF == (xlsb >> 4) as bv32
  {
    ((msb as bv32) << 12) | ((lsb as bv32) << 4) | (xlsb >> 4) as bv32
  }

  /**
   * The source's order of the bytes differs from the datasheet's: the burst
   * read 0x12, 0x34, 0x50 is pressure 0x12345, and the source yields 0x50350.
   */
  lemma ReadRawPressByteOrder()
    ensures RawPressure(0x12, 0x34, 0x50) == 0x1_2345
    ensures ReadRawPress([0x12, 0x34, 0x50]) == 0x5_0350
  {
  }

  /**
   * The sign extension of the second byte loses the third: with a second
   * byte of 0x80, the burst reads ending in 0x12 and in 0x34 give the same
   * value, 0xFF800.
   */
  lemma ReadRawPressSignExtension()
    ensures ReadRawPress([0x00, 0x80, 0x12]) == 0xF_F800
    ensures ReadRawPress([0x00, 0x80, 0x34]) == 0xF_F800
  {
    ReadRawPressAsWritten([0x00, 0x80, 0x12]);
    ReadRawPressAsWritten([0x00, 0x80, 0x34]);
  }

  /** The datasheet's assembly is one-to-one on what it keeps: equal results mean equal MSB, LSB and XLSB high nibble. */
  lemma RawPressureInjective(msb: Byte, lsb: Byte, xlsb: Byte, msb': Byte, lsb': Byte, xlsb': Byte)
    requires RawPressure(msb, lsb, xlsb) == RawPressure(msb', lsb', xlsb')
    ensures msb == msb' && lsb == lsb' && xlsb >> 4 == xlsb' >> 4
  {
    var r := RawPressure(msb, lsb, xlsb);
    assert (msb as bv32) == r >> 12 == (msb' as bv32);
    assert (lsb as bv32) == (r >> 4) & 0xFF == (lsb' as bv32);
    assert (xlsb >> 4) as bv32 == r & 0xF == (xlsb' >> 4) as bv32;
  }

  // ---------------------------------------------------------------------
  // write buffer (BMP280/src/BMP280.C:99-111)
  // ---------------------------------------------------------------------

  /** The bytes of the frame sent for a register write: address, value, address, value, ... */
  function Interleave(reg: seq<Byte>, data: seq<Byte>): (frame: seq<Byte>)
    requires |reg| == |data|
    ensures |frame| == 2 * |reg|
    decreases |reg|
  {
    if reg == [] then [] else [reg[0], data[0]] + Interleave(reg[1..], data[1..])
  }

  /** The register addresses of a frame: its bytes at even positions. */
  function Addresses(frame: seq<Byte>): (reg: seq<Byte>)
    ensures |reg| == (|frame| + 1) / 2
    decreases |frame|
  {
    if frame == [] then [] else [frame[0]] + Addresses(if |frame| < 2 then [] else frame[2..])
  }

  /** The values of a frame: its bytes at odd positions. */
  function Values(frame: seq<Byte>): (data: seq<Byte>)
    ensures |data| == |frame| / 2
    decreases |frame|
  {
    if |frame| < 2 then [] else [frame[1]] + Values(frame[2..])
  }

  /** Pair i of the frame is reg[i] followed by data[i]. */
  lemma {:induction false} InterleaveAt(reg: seq<Byte>, data: seq<Byte>, i: nat)
    requires |reg| == |data| && i < |reg|
    ensures Interleave(reg, data)[2 * i] == reg[i]
    ensures Interleave(reg, data)[2 * i + 1] == data[i]
  {
    if i > 0 {
      InterleaveAt(reg[1..], data[1..], i - 1);
    }
  }

  /** The frame can be split back into the addresses and the values it was built from. */
  lemma {:induction false} InterleaveSplits(reg: seq<Byte>, data: seq<Byte>)
    requires |reg| == |data|
    ensures Addresses(Interleave(reg, data)) == reg
    ensures Values(Interleave(reg, data)) == data
    decreases |reg|
  {
    if reg != [] {
      var frame := Interleave(reg, data);
      assert frame[2..] == Interleave(reg[1..], data[1..]);
      InterleaveSplits(reg[1..], data[1..]);
    }
  }

  /**
   * __BMP_Write's buffer construction: toSend, declared as
   * `uint8_t toSend[count][2]`, is laid out row by row, so it is the flat
   * array of 2 * count bytes modelled here; row i holds reg[i] then data[i].
   * The transmit call that follows is not modelled. toSend is a new array,
   * distinct from reg and data; the method has no modifies clause, so reg
   * and data are left unchanged.
   */
  method Write(reg: array<Byte>, data: array<Byte>, count: Byte) returns (toSend: array<Byte>)
    requires count as int <= reg.Length && count as int <= data.Length
    ensures fresh(toSend)
    ensures toSend.Length == 2 * count as int
    ensures forall i :: 0 <= i < count as int ==> toSend[2 * i] == reg[i] && toSend[2 * i + 1] == data[i]
    ensures toSend[..] == Interleave(reg[..count], data[..count])
  {
    var n := count as int;
    toSend := new Byte[2 * n];
    var i := 0;
    while i < n
      invariant 0 <= i <= n
      invariant forall k :: 0 <= k < i ==> toSend[2 * k] == reg[k] && toSend[2 * k + 1] == data[k]
    {
      toSend[2 * i] := reg[i];
      toSend[2 * i + 1] := data[i];
      i := i + 1;
    }
    var frame := Interleave(reg[..n], data[..n]);
    forall j | 0 <= j < 2 * n
      ensures toSend[j] == frame[j]
    {
      InterleaveAt(reg[..n], data[..n], j / 2);
    }
  }
}

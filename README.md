# BMP280 driver: register bit fields

A Dafny model of the register handling in a small STM32 HAL driver for the
Bosch BMP280 pressure and temperature sensor. The driver encodes the sensor's
configuration into the `ctrl_meas` and `config` registers. It reads the two
flags of the `status` register and assembles the raw 20-bit pressure word from
a three-byte burst read. It also builds the address/value byte buffer that a
register write sends over I2C. The model has three modules:

- `Registers` (`registers.dfy`): the bus address and register map the driver
  defines. It proves that the six data registers are consecutive, with
  pressure first.
- `Bmp280Types` (`bmp280_types.dfy`): the four configuration enumerations of
  the header (oversampling, power mode, standby time, IIR filter). Each has
  the C ordinal of every enumerant and the inverse mapping.
- `Bmp280` (`bmp280.dfy`): the `ctrl_meas` and `config` encoders, with
  decoders and round-trip proofs in both directions. It also has the status
  decoder, the raw-pressure expression exactly as written, the datasheet's
  assembly beside it, and the write-buffer loop as a method proved against an
  interleaving function.

Bytes are `bv8`. C promotes the operands of `<<`, `|` and `&` to a 32-bit
`int`, which is modelled as `bv32`. Storing that `int` in a `uint8_t` keeps
its low eight bits (`ToUint8`), and lemmas show that neither encoder ever loses
a bit that way. The power mode `NORMAL` has the value 2 as the source declares
it, although the device's own encoding of normal mode is `0b11`. Bus transfers
are left out. Each operation takes the bytes the bus would have delivered, or
returns the bytes it would hand to the bus.

## Model

| member | source | states |
|---|---|---|
| `Registers.DataRegistersContiguous` | BMP280/src/BMP280.C:11-16 | the pressure MSB/LSB/XLSB registers (0xF7..0xF9) are followed immediately by temperature MSB/LSB/XLSB (0xFA..0xFC): six consecutive addresses from PRESS_MSB, pressure first |
| `Registers.RegisterMapWellFormed` | BMP280/src/BMP280.C:10-23 | every register address fits one byte, no two register names share an address, the calibration block FIRST_CALIB..LAST_CALIB spans 26 addresses, and the constant BMP280_ADDR (0x58, which the driver also names as the chip ID) fits 7 bits |
| `Bmp280Types.OversamplingOrdinal` | BMP280/src/BMP280.h:28-37 | the value of each BMP_Oversampling enumerant is its position in the declaration (NO_OVERSAMPLING = 0 … OVERSAMPLING_BY16 = 5), so every value fits 3 bits |
| `Bmp280Types.OversamplingFromOrdinal` | BMP280/src/BMP280.h:28-37 | an integer names an oversampling enumerant exactly when it is below 6, and that enumerant's value is the integer |
| `Bmp280Types.PowerModeOrdinal` | BMP280/src/BMP280.h:39-45 | SLEEP = 0, FORCED = 1, NORMAL = 2 in declaration order, so every value fits 2 bits |
| `Bmp280Types.PowerModeFromOrdinal` | BMP280/src/BMP280.h:39-45 | an integer names a power mode exactly when it is below 3, and that mode's value is the integer |
| `Bmp280Types.StandbyOrdinal` | BMP280/src/BMP280.h:47-57 | T_0dot5 … T_4000 have the values 0..7 in declaration order, filling the 3-bit field exactly |
| `Bmp280Types.StandbyFromOrdinal` | BMP280/src/BMP280.h:47-57 | an integer names a standby time exactly when it is below 8, and that time's value is the integer |
| `Bmp280Types.FilterOrdinal` | BMP280/src/BMP280.h:59-66 | F_COEF1 … F_COEF16 have the values 0..4 in declaration order, so every value fits 3 bits |
| `Bmp280Types.FilterFromOrdinal` | BMP280/src/BMP280.h:59-66 | an integer names a filter coefficient exactly when it is below 5, and that coefficient's value is the integer |
| `Bmp280Types.OrdinalsRoundTrip` | BMP280/src/BMP280.h:28-66 | each enumeration's values are distinct: mapping an enumerant to its value and back gives the enumerant |
| `Bmp280.ToUint8` | BMP280/src/BMP280.C:159 | storing an `int` below 256 in a `uint8_t` keeps its value |
| `Bmp280.EncodeCtrlMeas` | BMP280/src/BMP280.C:156-159 | the byte stored from the promoted `int` `CtrlMeasWord` (each enum promoted by `Promote`) holds the temperature oversampling in bits 7..5, the pressure oversampling in bits 4..2 and the power mode in bits 1..0 |
| `Bmp280.DecodeCtrlMeas` | BMP280/src/BMP280.C:159 | a ctrl_meas byte decodes exactly when its three fields hold enumerant values, and then each decoded setting's value is the corresponding field |
| `Bmp280.CtrlMeasWordBound` | BMP280/src/BMP280.C:159 | the `int` computed for ctrl_meas is at most 0xB6 for every setting |
| `Bmp280.CtrlMeasLargest` | BMP280/src/BMP280.C:159 | the bound is reached by OVERSAMPLING_BY16, OVERSAMPLING_BY16, NORMAL (5<<5 OR 5<<2 OR 2 = 0xB6) |
| `Bmp280.CtrlMeasNoTruncation` | BMP280/src/BMP280.C:159 | storing that `int` in `uint8_t toSend` never truncates: the byte equals the whole word |
| `Bmp280.CtrlMeasRoundTrip` | BMP280/src/BMP280.C:159 | decoding the encoded ctrl_meas byte recovers the temperature oversampling, the pressure oversampling and the power mode |
| `Bmp280.CtrlMeasCanonical` | BMP280/src/BMP280.C:159 | every decodable ctrl_meas byte is the encoding of its decoded settings (the other direction of the round trip) |
| `Bmp280.EncodeConfig` | BMP280/src/BMP280.C:166-172 | the config `int` `ConfigWord` (enums promoted by `Promote`, spiEnable zero-extended) is never truncated, every bit set in spiEnable is set in the byte, bit 0 is spiEnable's bit 0, and for spiEnable below 4 bits 7..5 hold the standby time, bits 4..2 the filter and bits 1..0 spiEnable |
| `Bmp280.DecodeConfig` | BMP280/src/BMP280.C:172 | a config byte decodes exactly when its filter field holds a coefficient value and the unused bit 1 is clear, and then the decoded settings match bits 7..5, 4..2 and 0 |
| `Bmp280.ConfigRoundTrip` | BMP280/src/BMP280.C:166-172 | with spiEnable 0 or 1, as documented, decoding the encoded config byte recovers standby time, filter and spiEnable |
| `Bmp280.ConfigCanonical` | BMP280/src/BMP280.C:172 | every decodable config byte is the encoding of its decoded settings |
| `Bmp280.ConfigSpiEnableOverwritesFilter` | BMP280/src/BMP280.C:168-172 | the spiEnable precondition is needed: spiEnable = 4 is OR-ed into the filter field and turns F_COEF1 into F_COEF2 |
| `Bmp280.DecodeStatus` | BMP280/src/BMP280.C:136-144 | measuring is 1 exactly when bit 3 of the status byte is set, imUpdate is 1 exactly when bit 0 is set, and each is 0 or 1 |
| `Bmp280.StatusIgnoresOtherBits` | BMP280/src/BMP280.C:143-144 | flipping any bits of the status byte other than bits 3 and 0 changes neither flag |
| `Bmp280.SignExtend` | BMP280/src/BMP280.C:185-188 | an `int8_t` byte promoted to `int` keeps its low eight bits, and its upper 24 bits are all zero or all one depending on the byte's sign |
| `Bmp280.ReadRawPress` | BMP280/src/BMP280.C:181-190 | the raw pressure returned is in [0, 2^20), and its low four bits are always 0 |
| `Bmp280.ReadRawPressAsWritten` | BMP280/src/BMP280.C:185-188 | over unsigned bytes, the result has the first byte's high nibble in bits 7..4 and the second byte in bits 11..4. Bits 19..12 hold the third byte, unless the second byte is negative as `int8_t`, in which case they are all ones |
| `Bmp280.ReadRawPressByteOrder` | BMP280/src/BMP280.C:187-188 | the burst read 0x12, 0x34, 0x50 yields 0x50350, where the datasheet's assembly gives 0x12345 |
| `Bmp280.ReadRawPressSignExtension` | BMP280/src/BMP280.C:185-188 | the burst reads 0x00, 0x80, 0x12 and 0x00, 0x80, 0x34 yield the same value 0xFF800: the third byte is lost |
| `Bmp280.RawPressure` | BMP280/src/BMP280.C:187-188 | the datasheet's assembly from pressure MSB, LSB and XLSB is below 2^20 and holds MSB in bits 19..12, LSB in bits 11..4 and the XLSB's high nibble in bits 3..0 |
| `Bmp280.RawPressureInjective` | BMP280/src/BMP280.C:187-188 | two burst reads give the same datasheet assembly only if they agree on MSB, LSB and the XLSB's high nibble |
| `Bmp280.Interleave` | BMP280/src/BMP280.C:102-108 | the write frame for count register/value pairs has exactly 2·count bytes |
| `Bmp280.Addresses` | BMP280/src/BMP280.C:95 | the even positions of a frame give one register address per pair |
| `Bmp280.Values` | BMP280/src/BMP280.C:95 | the odd positions of a frame give one value per pair |
| `Bmp280.InterleaveAt` | BMP280/src/BMP280.C:104-108 | pair i of the frame is reg[i] followed by data[i] |
| `Bmp280.InterleaveSplits` | BMP280/src/BMP280.C:95-108 | the frame splits back into exactly the register list and the value list it was built from |
| `Bmp280.Write` | BMP280/src/BMP280.C:99-108 | toSend is a new array, distinct from reg and data; after the loop it has 2·count bytes, row i (bytes 2i and 2i+1) holds reg[i] and data[i] for every i < count, and toSend is the interleaving of reg[..count] and data[..count]; reg and data are not modified |

## Findings

| source | as written | input that shows it | evidently intended | confidence | as-written member | corrected member |
|---|---|---|---|---|---|---|
| BMP280/src/BMP280.C:187-188 | the burst read from PRESS_MSB delivers MSB, LSB, XLSB into toRead[0..2], but the expression shifts toRead[2] (XLSB) by 12 and puts toRead[0] (MSB) masked with 0xF0 in bits 7..4 | toRead = 0x12, 0x34, 0x50 gives 0x50350 | MSB << 12 OR LSB << 4 OR XLSB >> 4 = 0x12345, the layout of section 4.3.6 of the BMP280 datasheet | not executed; high | `Bmp280.ReadRawPressByteOrder` | `Bmp280.RawPressure` |
| BMP280/src/BMP280.C:185-188 | toRead is `int8_t`, so a byte of 0x80 or more is sign-extended when promoted; in the second byte this sets bits 19..12 and erases the third byte. Shifting a negative value left is undefined behaviour in C; the model takes the two's-complement result that the target compiler produces in practice | toRead = 0x00, 0x80, 0x12 and 0x00, 0x80, 0x34 both give 0xFF800 | bytes read as `uint8_t` (the type `__BMP_Read` declares for its buffer), so every byte contributes only its own bits | not executed; high | `Bmp280.ReadRawPressSignExtension` | `Bmp280.RawPressure` |

`Bmp280.RawPressure` is proved to keep every one of the 20 bits it assembles
(`Bmp280.RawPressureInjective`). `Bmp280.ReadRawPress` stays the model of the
source line as written.

## Left out

- Peripheral setup: `BMP_I2C_Init` and `BMP_SPI_Init` (BMP280/src/BMP280.C:33-74) only fill HAL handle fields and call the HAL. There is no logic to model.
- Bus I/O: `__BMP_Read` (BMP280/src/BMP280.C:84-89) and the `HAL_I2C_Master_Transmit_IT` call in `__BMP_Write` (BMP280/src/BMP280.C:110) are interrupt-mode HAL calls that complete asynchronously. The model takes the bytes read as parameters (`DecodeStatus`, `ReadRawPress`) and returns the bytes to send (`Write`, the encoders).
- Interrupt callbacks: `HAL_I2C_MasterTxCpltCallback` and `HAL_I2C_MasterRxCpltCallback` (BMP280/src/BMP280.C:193-212) are empty.
- `BMP_WhoAmI` (BMP280/src/BMP280.C:118-122) returns the result of a `void` function, so it has no defined result to model.
- The register writes after encoding (BMP280/src/BMP280.C:160 and 173) pass scalars where `__BMP_Write` expects pointers. The model stops at the encoded byte.
- `BMP_ReadRaw`, `BMP_ReadTemperature` and `BMP_ReadPression` (BMP280/src/BMP280.h:75-77) are declared but have no body in this source, and they return floating point. Temperature and pressure compensation and the calibration constants are not part of this model for the same reason.
- `SPI_CHOOSE` and `I2C_CHOOSE` (BMP280/src/BMP280.h:13-26) only select a peripheral instance during setup.
- Write: `toSend` is declared as `uint8_t toSend[count][2]`. It is modelled as the flat array of 2·count bytes that this row-major layout occupies. The loop counter `uint8_t i` is modelled as an unbounded integer; it cannot wrap because it stays below `count`, which is at most 255. That reg and data are left unchanged follows from the method having no modifies clause and is not written as an ensures.
- ReadRawPress: when toRead[1] or toRead[2] is 0x80 or more, the source shifts a negative `int` left (`toRead[2] << 12`, `toRead[1] << 4`), which is undefined behaviour in C. The model gives these cases the two's-complement result: the sign-extended 32-bit pattern shifted as bits (`SignExtend` then a `bv32` shift). The second Findings row rests on that choice.
- Write: `uint8_t toSend[count][2]` is a variable-length array, and C requires its size to be greater than zero, so `count = 0` is undefined behaviour in the source. The model gives this case a defined result: an empty array, with nothing written or sent.

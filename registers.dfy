/**
 * The BMP280 register map and bus address as the driver defines them
 * (BMP280/src/BMP280.C:10-23). Addresses are register numbers on the
 * device's one-byte address space.
 */
module Registers {

  /**
   * The value the driver passes to the HAL as the device's bus address; the
   * driver's own comment also gives it as the expected chip ID.
   */
  const DeviceAddress: int := 0x58

  const TempXlsb: int := 0xFC
  const TempLsb: int := 0xFB
  const TempMsb: int := 0xFA
  const PressXlsb: int := 0xF9
  const PressLsb: int := 0xF8
  const PressMsb: int := 0xF7
  const Config: int := 0xF5
  const CtrlMeas: int := 0xF4
  const Status: int := 0xF3
  const Reset: int := 0xE0
  const Id: int := 0xD0
  const FirstCalib: int := 0x88
  const LastCalib: int := 0xA1

  /** The six data registers in the order a burst read starting at PressMsb visits them. */
  const DataRegisters: seq<int> := [PressMsb, PressLsb, PressXlsb, TempMsb, TempLsb, TempXlsb]

  /** Every register the driver names, as one list. */
  const Named: seq<int> :=
    [TempXlsb, TempLsb, TempMsb, PressXlsb, PressLsb, PressMsb,
     Config, CtrlMeas, Status, Reset, Id, FirstCalib, LastCalib]

  /**
   * The data registers are six consecutive addresses starting at PressMsb,
   * pressure first and temperature after it, so one burst read from PressMsb
   * covers both measurements.
   */
  lemma DataRegistersContiguous()
    ensures |DataRegisters| == 6
    ensures forall k :: 0 <= k < 6 ==> DataRegisters[k] == PressMsb + k
    ensures DataRegisters[..3] == [PressMsb, PressLsb, PressXlsb]
    ensures DataRegisters[3..] == [TempMsb, TempLsb, TempXlsb]
  {
  }

  /**
   * Every named register fits the one-byte address space, and no two names
   * share an address. The calibration block spans 26 addresses, and the
   * bus address constant fits 7 bits.
   */
  lemma RegisterMapWellFormed()
    ensures forall k :: 0 <= k < |Named| ==> 0 <= Named[k] < 256
    ensures forall j, k :: 0 <= j < k < |Named| ==> Named[j] != Named[k]
    ensures LastCalib - FirstCalib + 1 == 26
    ensures 0 <= DeviceAddress < 128
  {
  }
}

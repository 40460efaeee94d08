/**
 * The configuration enumerations of the driver's header
 * (BMP280/src/BMP280.h:28-66). Each C enum has implicit consecutive
 * ordinals starting at 0 in declaration order; the ordinal is what the
 * encoders shift into a register field. Each enumeration is modelled as a
 * datatype, the list of its enumerants in declaration order, an ordinal
 * function and its inverse.
 */
module Bmp280Types {
  import opened Wrappers

  /** BMP_Oversampling. */
  datatype Oversampling =
    | NoOversampling
    | OversamplingBy1
    | OversamplingBy2
    | OversamplingBy4
    | OversamplingBy8
    | OversamplingBy16

  const Oversamplings: seq<Oversampling> :=
    [NoOversampling, OversamplingBy1, OversamplingBy2, OversamplingBy4, OversamplingBy8, OversamplingBy16]

  /** The C value of an oversampling enumerant: its position in the declaration, 0..5, so it fits 3 bits. */
  function OversamplingOrdinal(o: Oversampling): (n: nat)
    ensures n < |Oversamplings| == 6 && Oversamplings[n] == o
  {
    match o
    case NoOversampling => 0
    case OversamplingBy1 => 1
    case OversamplingBy2 => 2
    case OversamplingBy4 => 3
    case OversamplingBy8 => 4
    case OversamplingBy16 => 5
  }

  /** The enumerant whose C value is n, if there is one. */
  function OversamplingFromOrdinal(n: nat): (r: Option<Oversampling>)
    ensures r.Some? <==> n < 6
    ensures r.Some? ==> OversamplingOrdinal(r.value) == n
  {
    if n < |Oversamplings| then Some(Oversamplings[n]) else None
  }

  /** BMP_PWRMode. The source gives NORMAL the value 2 (the device's own encoding is 0b11). */
  datatype PowerMode = Sleep | Forced | Normal

  const PowerModes: seq<PowerMode> := [Sleep, Forced, Normal]

  /** The C value of a power mode: 0..2, so it fits 2 bits. */
  function PowerModeOrdinal(m: PowerMode): (n: nat)
    ensures n < |PowerModes| == 3 && PowerModes[n] == m
  {
    match m
    case Sleep => 0
    case Forced => 1
    case Normal => 2
  }

  function PowerModeFromOrdinal(n: nat): (r: Option<PowerMode>)
    ensures r.Some? <==> n < 3
    ensures r.Some? ==> PowerModeOrdinal(r.value) == n
  {
    if n < |PowerModes| then Some(PowerModes[n]) else None
  }

  /** BMP_StandByTime: standby between measurements in normal mode, 0.5 ms to 4000 ms. */
  datatype StandbyTime = T0dot5 | T62dot5 | T125 | T250 | T500 | T1000 | T2000 | T4000

  const StandbyTimes: seq<StandbyTime> := [T0dot5, T62dot5, T125, T250, T500, T1000, T2000, T4000]

  /** The C value of a standby time: 0..7, filling the 3-bit field exactly. */
  function StandbyOrdinal(s: StandbyTime): (n: nat)
    ensures n < |StandbyTimes| == 8 && StandbyTimes[n] == s
  {
    match s
    case T0dot5 => 0
    case T62dot5 => 1
    case T125 => 2
    case T250 => 3
    case T500 => 4
    case T1000 => 5
    case T2000 => 6
    case T4000 => 7
  }

  function StandbyFromOrdinal(n: nat): (r: Option<StandbyTime>)
    ensures r.Some? <==> n < 8
    ensures r.Some? ==> StandbyOrdinal(r.value) == n
  {
    if n < |StandbyTimes| then Some(StandbyTimes[n]) else None
  }

  /** BMP_IIRFIlter: the IIR filter coefficient (1 means filter off). */
  datatype IirFilter = Coef1 | Coef2 | Coef4 | Coef8 | Coef16

  const IirFilters: seq<IirFilter> := [Coef1, Coef2, Coef4, Coef8, Coef16]

  /** The C value of a filter coefficient: 0..4, so it fits 3 bits. */
  function FilterOrdinal(f: IirFilter): (n: nat)
    ensures n < |IirFilters| == 5 && IirFilters[n] == f
  {
    match f
    case Coef1 => 0
    case Coef2 => 1
    case Coef4 => 2
    case Coef8 => 3
    case Coef16 => 4
  }

  function FilterFromOrdinal(n: nat): (r: Option<IirFilter>)
    ensures r.Some? <==> n < 5
    ensures r.Some? ==> FilterOrdinal(r.value) == n
  {
    if n < |IirFilters| then Some(IirFilters[n]) else None
  }

  /** Each enumeration's ordinal is one-to-one: FromOrdinal undoes Ordinal for every enumerant. */
  lemma OrdinalsRoundTrip(o: Oversampling, m: PowerMode, s: StandbyTime, f: IirFilter)
    ensures OversamplingFromOrdinal(OversamplingOrdinal(o)) == Some(o)
    ensures PowerModeFromOrdinal(PowerModeOrdinal(m)) == Some(m)
    ensures StandbyFromOrdinal(StandbyOrdinal(s)) == Some(s)
    ensures FilterFromOrdinal(FilterOrdinal(f)) == Some(f)
  {
  }
}

/** The data the sketch hands to the IR library: the protocol identifier and
    the AC command record `stdAc::state_t` that `IRac::sendAc` transmits.
    The library itself is not part of this model. */
module AcModel {

  /** `decode_type_t`: the distinguished UNKNOWN, or some vendor protocol
      identified by its enumeration code. Which codes exist, and what they
      mean, is the library's business. */
  datatype Protocol = Unknown | Proto(code: nat)

  /** `stdAc::opmode_t`. */
  datatype OpMode = ModeOff | ModeAuto | Cool | Heat | Dry | FanOnly

  /** `stdAc::fanspeed_t`. */
  datatype FanSpeed = FanAuto | FanMin | FanLow | FanMedium | FanHigh | FanMax

  /** `stdAc::swingv_t`. */
  datatype SwingV = SwingVOff | SwingVAuto | SwingVHighest | SwingVHigh | SwingVMiddle | SwingVLow | SwingVLowest

  /** `stdAc::swingh_t`. */
  datatype SwingH = SwingHOff | SwingHAuto | SwingHLeftMax | SwingHLeft | SwingHMiddle | SwingHRight | SwingHRightMax | SwingHWide

  /** The fields of `stdAc::state_t` that the sketch writes, plus `other`:
      every remaining setting of the record (quiet, turbo, clock, ...),
      which the sketch never touches and which is kept abstract. */
  datatype AcState<X> = AcState(
    protocol: Protocol,
    model: int,
    power: bool,
    degrees: int,
    mode: OpMode,
    fanspeed: FanSpeed,
    swingv: SwingV,
    swingh: SwingH,
    other: X)

  const DefaultModel: int := 1
  const DefaultDegrees: int := 24
  const MinDegrees: int := 16
  const MaxDegrees: int := 30

  /** Whether a requested temperature passes the sketch's range check. */
  predicate InRange(degrees: int) {
    MinDegrees <= degrees <= MaxDegrees
  }

  /** The seeded command record: only the protocol varies with the detection,
      and the untouched settings are carried over from the previous record. */
  predicate IsSeeded<X>(s: AcState<X>, p: Protocol) {
    && s.protocol == p
    && s.model == DefaultModel
    && s.mode == Cool
    && s.fanspeed == FanAuto
    && s.swingv == SwingVAuto
    && s.swingh == SwingHAuto
  }

  /** The record written when a supported protocol `p` is detected. */
  function Defaults<X>(p: Protocol, previous: AcState<X>): (s: AcState<X>)
    ensures IsSeeded(s, p)
    ensures s.power && s.degrees == DefaultDegrees && InRange(s.degrees)
    ensures s.other == previous.other
  {
    AcState(p, DefaultModel, true, DefaultDegrees, Cool, FanAuto, SwingVAuto, SwingHAuto, previous.other)
  }
}

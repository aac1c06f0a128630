/** The pure decision engine: one tick's inputs and the previous position to the next decision. */
module Policy {
  import opened Config

  datatype State = Idle | SurplusPending | Charging | StopPending | SocReached | FailSafe

  datatype Override = Auto | ForceOn | ForceOff

  datatype ReasonCode =
    | StaleOff | OverrideOff | OverrideOn | AwaitingData | NoVehicle | SoCCapHit | SoCLatch
    | SurplusDwellStart | SurplusCharging | SurplusDwellPending | SurplusBelowStart
    | StopDwellStart | StopLow | StopDwellPending | StillCharging
    | LatchStart | LatchCharging | LatchBelowStart

  /** One tick's view of the world. Power is signed: grid + is import, battery + is discharge. */
  datatype Inputs = Inputs(
    gridW: real, pvW: real, homeW: real, batteryW: real, chargeW: real,
    batterySoC: int, vehicleSoC: int, vehicleSoCKnown: bool,
    charging: bool, connected: bool, ready: bool, stale: bool,
    override: Override, overrideUntil: Time, capBypass: bool, capBypassSoC: int,
    chargePower: Option<PowerMode>, autoProfile: Option<Profile>,
    startThresholdW: real, targetSoC: int)

  datatype Timers = Timers(crossedUpAt: Time, crossedDownAt: Time)

  const NO_TIMERS := Timers(0, 0)

  datatype Decision = Decision(state: State, timers: Timers, mode: Mode, reason: ReasonCode)

  function SurplusW(inp: Inputs): real {
    inp.chargeW - inp.gridW - (if inp.batteryW < 0.0 then 0.0 else inp.batteryW)
  }

  function EffectiveMode(inp: Inputs, cfg: Control): Mode {
    On(if inp.chargePower.Some? then inp.chargePower.value else cfg.enableMode)
  }

  function EffectiveProfile(inp: Inputs, cfg: Control): Profile {
    if inp.autoProfile.Some? then inp.autoProfile.value else cfg.autoProfile
  }

  function EffectiveStartThreshold(inp: Inputs, cfg: Control): real {
    if inp.startThresholdW != 0.0 then inp.startThresholdW else cfg.startThresholdW
  }

  function EffectiveTargetSoC(inp: Inputs, cfg: Control): int {
    if inp.targetSoC != 0 then inp.targetSoC else cfg.socCap
  }

  /** A manual override is in force; a zero expiry never runs out. */
  predicate OverrideActive(now: Time, inp: Inputs) {
    inp.override != Auto && (inp.overrideUntil == 0 || now < inp.overrideUntil)
  }

  predicate CapBypassActive(now: Time, inp: Inputs) {
    inp.override == ForceOn && inp.capBypass && OverrideActive(now, inp)
  }

  /** The SoC limit evcc is asked to enforce on its own. */
  function LimitSoCTarget(now: Time, inp: Inputs, cfg: Control): int {
    if CapBypassActive(now, inp) then
      if inp.capBypassSoC > 0 then
        var atLeast := if inp.capBypassSoC < cfg.socCap + 1 then cfg.socCap + 1 else inp.capBypassSoC;
        if atLeast > cfg.socMax then cfg.socMax else atLeast
      else cfg.socMax
    else if EffectiveProfile(inp, cfg) != SurplusProfile then EffectiveTargetSoC(inp, cfg)
    else cfg.socCap
  }

  /** The SoC at which automatic charging stops. */
  function TargetSoC(inp: Inputs, cfg: Control): int {
    if EffectiveProfile(inp, cfg) != SurplusProfile then EffectiveTargetSoC(inp, cfg) else cfg.socCap
  }

  /** A reached target is latched until the SoC falls below this. */
  function ResumeBelow(inp: Inputs, cfg: Control): int {
    TargetSoC(inp, cfg) - (cfg.socCap - cfg.socResumeBelow)
  }

  function Decide(now: Time, inp: Inputs, st: State, timers: Timers, cfg: Control): Decision {
    if inp.stale then Decision(FailSafe, NO_TIMERS, Off, StaleOff)
    else if OverrideActive(now, inp) && inp.override == ForceOff then
      Decision(Idle, NO_TIMERS, Off, OverrideOff)
    else if OverrideActive(now, inp) && inp.override == ForceOn then
      Decision(Charging, NO_TIMERS, EffectiveMode(inp, cfg), OverrideOn)
    else if !inp.ready then Decision(Idle, NO_TIMERS, Off, AwaitingData)
    else if !inp.connected then Decision(Idle, NO_TIMERS, Off, NoVehicle)
    else if inp.vehicleSoC >= TargetSoC(inp, cfg) then
      Decision(SocReached, NO_TIMERS, Off, SoCCapHit)
    else if st == SocReached && inp.vehicleSoC >= ResumeBelow(inp, cfg) then
      Decision(SocReached, NO_TIMERS, Off, SoCLatch)
    else if EffectiveProfile(inp, cfg) != SurplusProfile then
      DecideLatch(now, inp, st, timers, cfg)
    else if st == Charging || st == StopPending then
      DecideFromCharging(now, SurplusW(inp), timers, cfg, EffectiveMode(inp, cfg))
    else
      DecideFromIdle(now, SurplusW(inp), timers, cfg, EffectiveMode(inp, cfg))
  }

  function DecideLatch(now: Time, inp: Inputs, st: State, timers: Timers, cfg: Control): Decision {
    if st == Charging || st == StopPending then
      Decision(Charging, NO_TIMERS, On(Now), LatchCharging)
    else
      var trigger := if EffectiveProfile(inp, cfg) == PowerLatch then inp.pvW else SurplusW(inp);
      if trigger >= EffectiveStartThreshold(inp, cfg) then
        if timers.crossedUpAt == 0 then Decision(SurplusPending, Timers(now, 0), Off, LatchStart)
        else if now - timers.crossedUpAt >= cfg.startDwell then
          Decision(Charging, NO_TIMERS, On(Now), LatchCharging)
        else Decision(SurplusPending, Timers(timers.crossedUpAt, 0), Off, SurplusDwellPending)
      else Decision(Idle, NO_TIMERS, Off, LatchBelowStart)
  }

  function DecideFromIdle(now: Time, s: real, timers: Timers, cfg: Control, enable: Mode): Decision {
    if s >= cfg.startThresholdW then
      if timers.crossedUpAt == 0 then Decision(SurplusPending, Timers(now, 0), Off, SurplusDwellStart)
      else if now - timers.crossedUpAt >= cfg.startDwell then
        Decision(Charging, NO_TIMERS, enable, SurplusCharging)
      else Decision(SurplusPending, Timers(timers.crossedUpAt, 0), Off, SurplusDwellPending)
    else Decision(Idle, NO_TIMERS, Off, SurplusBelowStart)
  }

  function DecideFromCharging(now: Time, s: real, timers: Timers, cfg: Control, enable: Mode): Decision {
    if s < cfg.stopThresholdW then
      if timers.crossedDownAt == 0 then Decision(StopPending, Timers(0, now), enable, StopDwellStart)
      else if now - timers.crossedDownAt >= cfg.stopDwell then
        Decision(Idle, NO_TIMERS, Off, StopLow)
      else Decision(StopPending, Timers(0, timers.crossedDownAt), enable, StopDwellPending)
    else Decision(Charging, NO_TIMERS, enable, StillCharging)
  }

  // ----- vocabulary for what a tick looked like, independent of how it was decided

  /** Rules 1 to 4 do not apply: fresh data, no override, all metrics seen, a vehicle plugged in. */
  predicate Automatic(now: Time, inp: Inputs) {
    !inp.stale && !OverrideActive(now, inp) && inp.ready && inp.connected
  }

  /** The power the active profile starts on has reached that profile's own threshold. */
  predicate StartTrigger(inp: Inputs, cfg: Control) {
    match EffectiveProfile(inp, cfg)
    case SurplusProfile => SurplusW(inp) >= cfg.startThresholdW
    case PowerLatch => inp.pvW >= EffectiveStartThreshold(inp, cfg)
    case SurplusLatch => SurplusW(inp) >= EffectiveStartThreshold(inp, cfg)
  }

  /** Surplus below the stop threshold; only the surplus profile ever looks at this. */
  predicate LowSurplus(inp: Inputs, cfg: Control) {
    EffectiveProfile(inp, cfg) == SurplusProfile && SurplusW(inp) < cfg.stopThresholdW
  }

  predicate IsCharging(st: State) {
    st == Charging || st == StopPending
  }

  // ----- single-tick laws

  /** Tick inputs that the profile's own rule decides, given the state before the tick. */
  predicate ByProfile(now: Time, inp: Inputs, st: State, cfg: Control) {
    && Automatic(now, inp)
    && inp.vehicleSoC < TargetSoC(inp, cfg)
    && !(st == SocReached && inp.vehicleSoC >= ResumeBelow(inp, cfg))
  }

  /** A dwell timer runs exactly in its pending state. */
  predicate Coherent(st: State, timers: Timers) {
    && (timers.crossedUpAt != 0 <==> st == SurplusPending)
    && (timers.crossedDownAt != 0 <==> st == StopPending)
  }

  /** One tick as a reader of the state diagram would give it: the next state by the previous one
      and by what the tick saw, independent of how the rules are ordered. */
  predicate Transition(now: Time, inp: Inputs, st: State, timers: Timers, cfg: Control, d: Decision) {
    && Coherent(d.state, d.timers)
    && (d.mode.On? <==> IsCharging(d.state))
    && (!Automatic(now, inp) ==> d.mode.Off? || d.reason == OverrideOn)
    && (Automatic(now, inp) ==> d.reason != OverrideOn)
    && (d.state == SocReached <==> Automatic(now, inp) && !ByProfile(now, inp, st, cfg))
    // into and through the start dwell
    && (d.state == SurplusPending <==>
          && ByProfile(now, inp, st, cfg) && StartTrigger(inp, cfg) && !IsCharging(st)
          && (st == SurplusPending ==> now - timers.crossedUpAt < cfg.startDwell))
    && (d.state == SurplusPending ==>
          d.timers.crossedUpAt == if st == SurplusPending then timers.crossedUpAt else now)
    // an automatic start ends a start dwell
    && (d.mode.On? && d.reason != OverrideOn && !IsCharging(st) <==>
          && ByProfile(now, inp, st, cfg) && StartTrigger(inp, cfg)
          && st == SurplusPending && now - timers.crossedUpAt >= cfg.startDwell)
    // into, through and out of the stop dwell
    && (d.state == StopPending <==>
          && ByProfile(now, inp, st, cfg) && LowSurplus(inp, cfg) && IsCharging(st)
          && (st == StopPending ==> now - timers.crossedDownAt < cfg.stopDwell))
    && (d.state == StopPending ==>
          d.timers.crossedDownAt == if st == StopPending then timers.crossedDownAt else now)
    && (IsCharging(st) && !d.mode.On? && ByProfile(now, inp, st, cfg) <==>
          && ByProfile(now, inp, st, cfg) && LowSurplus(inp, cfg)
          && st == StopPending && now - timers.crossedDownAt >= cfg.stopDwell)
    && (d.reason == StopLow <==> IsCharging(st) && !d.mode.On? && ByProfile(now, inp, st, cfg))
    // charging under a latch profile
    && (d.reason == LatchCharging ==> d.state == Charging && d.mode == On(Now))
    && (IsCharging(st) && EffectiveProfile(inp, cfg) != SurplusProfile ==>
          (d.reason == LatchCharging <==> ByProfile(now, inp, st, cfg)))
  }

  /** Where the readings balance (production, import and battery discharge feed the house and the car),
      surplus is the production the house and a charging battery leave over: it does not depend on what
      the car draws already, and battery discharge never counts as surplus. */
  lemma SurplusIsSolar(inp: Inputs)
    requires inp.pvW + inp.gridW + inp.batteryW == inp.homeW + inp.chargeW
    ensures SurplusW(inp) == inp.pvW - inp.homeW - (if inp.batteryW < 0.0 then -inp.batteryW else 0.0)
  {
  }

  /** Surplus reads neither production nor the house: readings that do not balance, or never came, do not
      matter. With SurplusIsSolar this fixes it for all inputs. */
  lemma SurplusIgnoresProduction(inp: Inputs, pvW: real, homeW: real)
    ensures SurplusW(inp.(pvW := pvW, homeW := homeW)) == SurplusW(inp)
  {
  }

  lemma DecideStep(now: Time, inp: Inputs, st: State, timers: Timers, cfg: Control)
    requires now > 0 && Coherent(st, timers)
    ensures Transition(now, inp, st, timers, cfg, Decide(now, inp, st, timers, cfg))
  {
  }

  /** The gates before the profile's own rule, whatever the state: staleness beats the operator, the
      operator beats everything else. And the power charged with: the operator's choice unless a latch
      profile charges, which is always at full power. */
  lemma GatesComeFirst(now: Time, inp: Inputs, st: State, timers: Timers, cfg: Control)
    ensures var d := Decide(now, inp, st, timers, cfg);
            && (d.state == FailSafe <==> inp.stale)
            && (d.reason == OverrideOn <==> !inp.stale && OverrideActive(now, inp) && inp.override == ForceOn)
            && (d.reason == OverrideOn ==> d.state == Charging && d.mode.On?)
            && (!Automatic(now, inp) ==> d.timers == NO_TIMERS)
            && (!Automatic(now, inp) && !inp.stale && d.reason != OverrideOn ==> d.state == Idle && d.mode == Off)
            && (d.mode.On? ==> d.mode == if Automatic(now, inp) && EffectiveProfile(inp, cfg) != SurplusProfile
                                         then On(Now) else EffectiveMode(inp, cfg))
  {
  }

  /** What a tick left to itself does, spelled out on its inputs. */
  lemma LeftToItselfRules(now: Time, inp: Inputs, st: State, timers: Timers, cfg: Control)
    requires !inp.stale && inp.ready && inp.connected
    requires inp.override == Auto || (inp.overrideUntil != 0 && now >= inp.overrideUntil)
    ensures var d := Decide(now, inp, st, timers, cfg);
            var p := if inp.autoProfile.Some? then inp.autoProfile.value else cfg.autoProfile;
            var target := if p != SurplusProfile && inp.targetSoC != 0 then inp.targetSoC else cfg.socCap;
            var start := if p != SurplusProfile && inp.startThresholdW != 0.0 then inp.startThresholdW else cfg.startThresholdW;
            var spare := inp.chargeW - inp.gridW - if inp.batteryW > 0.0 then inp.batteryW else 0.0;
            var full := inp.vehicleSoC >= target
                        || (st == SocReached && inp.vehicleSoC >= target - (cfg.socCap - cfg.socResumeBelow));
            var triggered := if p == PowerLatch then inp.pvW >= start else spare >= start;
            && (d.state == SocReached <==> full)
            && (!full && IsCharging(st) && p != SurplusProfile ==> d.state == Charging)
            && (!full && IsCharging(st) && p == SurplusProfile ==> (d.state == Charging <==> spare >= cfg.stopThresholdW))
            && (!full && !IsCharging(st) ==> (d.state == Idle <==> !triggered))
            && (!full && !IsCharging(st) && triggered ==> d.state == SurplusPending || d.state == Charging)
  {
  }

  /** The limit stays in range, and only the operator's bypass or a latch profile moves it off the cap. */
  lemma LimitBounds(now: Time, inp: Inputs, cfg: Control)
    requires cfg.Valid()
    requires inp.targetSoC == 0 || 50 <= inp.targetSoC <= 100
    ensures 1 <= LimitSoCTarget(now, inp, cfg) <= 100
    ensures CapBypassActive(now, inp) ==> cfg.socCap < LimitSoCTarget(now, inp, cfg) <= cfg.socMax
    ensures CapBypassActive(now, inp) && cfg.socCap < inp.capBypassSoC <= cfg.socMax ==>
              LimitSoCTarget(now, inp, cfg) == inp.capBypassSoC
    ensures !CapBypassActive(now, inp) && EffectiveProfile(inp, cfg) == SurplusProfile ==>
              LimitSoCTarget(now, inp, cfg) == cfg.socCap
    ensures LimitSoCTarget(now, inp, cfg) > cfg.socMax <==>
              !CapBypassActive(now, inp) && EffectiveProfile(inp, cfg) != SurplusProfile && inp.targetSoC > cfg.socMax
  {
  }

  /** evcc is asked to stop at exactly the SoC where the engine stops, so no automatic charging
      tick is already at the limit requested in that tick. */
  lemma BackstopAgrees(now: Time, inp: Inputs, st: State, timers: Timers, cfg: Control)
    ensures !CapBypassActive(now, inp) ==> LimitSoCTarget(now, inp, cfg) == TargetSoC(inp, cfg)
    ensures var d := Decide(now, inp, st, timers, cfg);
            && (Automatic(now, inp) && inp.vehicleSoC >= LimitSoCTarget(now, inp, cfg) <==> d.reason == SoCCapHit)
            && (d.mode.On? && d.reason != OverrideOn ==> inp.vehicleSoC < LimitSoCTarget(now, inp, cfg))
  {
  }
}

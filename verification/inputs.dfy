/** From raw evcc state and operator settings to the engine's inputs: readiness and staleness. */
module InputsMapping {
  import opened Config
  import opened Policy
  import Evcc

  /** The operator-settable runtime state. */
  datatype ControlState = ControlState(
    override: Override, overrideUntil: Time, capBypass: bool, capBypassSoC: int,
    chargePower: Option<PowerMode>, autoProfile: Option<Profile>,
    startThresholdW: map<Profile, real>, targetSoC: map<Profile, int>)
  {
    function ActiveProfile(cfg: Control): Profile {
      if autoProfile.Some? then autoProfile.value else cfg.autoProfile
    }

    /** The active profile's own start threshold and target; a missing entry reads as zero. */
    function LatchOverrides(cfg: Control): (real, int) {
      var p := ActiveProfile(cfg);
      (if p in startThresholdW then startThresholdW[p] else 0.0, if p in targetSoC then targetSoC[p] else 0)
    }
  }

  /** Round half away from zero. */
  function Round(x: real): int {
    if x >= 0.0 then (x + 0.5).Floor else -((-x + 0.5).Floor)
  }

  predicate Fresh(now: Time, m: Evcc.Metric<real>, cfg: Control) {
    m.seen && now - m.at <= cfg.staleTimeout
  }

  function InputsFromSnapshot(now: Time, s: Evcc.Snapshot, cfg: Control, ctrl: ControlState): Inputs {
    var (thresholdW, targetSoC) := ctrl.LatchOverrides(cfg);
    Inputs(
      s.grid.value, s.pv.value, s.home.value, s.batteryPower.value, s.chargePower.value,
      Round(s.batterySoC.value), Round(s.vehicleSoC.value), s.vehicleSoC.seen,
      s.charging.value, s.connected.value,
      s.grid.seen && s.pv.seen && s.vehicleSoC.seen && s.connected.seen,
      !s.brokerConnected || (s.online.seen && !s.online.value) || !Fresh(now, s.grid, cfg) || !Fresh(now, s.pv, cfg),
      ctrl.override, ctrl.overrideUntil, ctrl.capBypass, ctrl.capBypassSoC,
      ctrl.chargePower, ctrl.autoProfile, thresholdW, targetSoC)
  }

  // ----- the same, in terms of what arrived on the wire

  /** The last well-formed message on `c` is stamped no earlier than `since`. */
  predicate HeardSince(f: Evcc.Feed, c: Evcc.Channel, since: Time) {
    f.Last(c).Some? && f.Last(c).value.at >= since
  }

  /** evcc has not told us it is gone. */
  predicate NotOffline(f: Evcc.Feed) {
    f.Last(Evcc.Status).Some? ==> f.Last(Evcc.Status).value.payload == "online"
  }

  /** Rounding goes to the nearest integer, halves away from zero. */
  lemma RoundsToNearest(x: real)
    ensures -0.5 <= Round(x) as real - x <= 0.5
    ensures Round(-x) == -Round(x)
    ensures x >= 0.0 ==> Round(x) as real - x > -0.5
  {
  }

  /** The engine sees, of each metric, the last well-formed message on that metric's own channel, and is
      ready exactly when the four it cannot do without have all been heard. */
  lemma InputsAreLastMessages(now: Time, s: Evcc.Snapshot, f: Evcc.Feed, cfg: Control, ctrl: ControlState)
    requires Evcc.Reflects(s, f)
    ensures var inp := InputsFromSnapshot(now, s, cfg, ctrl);
            && inp.gridW == f.FloatOf(Evcc.Grid).value && inp.pvW == f.FloatOf(Evcc.PVPower).value
            && inp.homeW == f.FloatOf(Evcc.Home).value && inp.batteryW == f.FloatOf(Evcc.BatteryPower).value
            && inp.chargeW == f.FloatOf(Evcc.ChargePower).value
            && inp.batterySoC == Round(f.FloatOf(Evcc.BatterySoC).value)
            && inp.vehicleSoC == Round(f.FloatOf(Evcc.VehicleSoC).value)
            && (inp.vehicleSoCKnown <==> f.Last(Evcc.VehicleSoC).Some?)
            && inp.charging == f.BoolOf(Evcc.Charging).value && inp.connected == f.BoolOf(Evcc.Connected).value
            && (inp.ready <==> f.Last(Evcc.Grid).Some? && f.Last(Evcc.PVPower).Some?
                               && f.Last(Evcc.VehicleSoC).Some? && f.Last(Evcc.Connected).Some?)
  {
    assert Evcc.Agrees(s, f, Evcc.Grid) && Evcc.Agrees(s, f, Evcc.PVPower) && Evcc.Agrees(s, f, Evcc.Home);
    assert Evcc.Agrees(s, f, Evcc.BatteryPower) && Evcc.Agrees(s, f, Evcc.BatterySoC) && Evcc.Agrees(s, f, Evcc.ChargePower);
    assert Evcc.Agrees(s, f, Evcc.VehicleSoC) && Evcc.Agrees(s, f, Evcc.Charging) && Evcc.Agrees(s, f, Evcc.Connected);
  }

  /** The threshold and target in force are the active profile's own, else the configured ones, and
      nothing stored for another profile has any influence. */
  lemma OnlyActiveProfileMatters(now: Time, s: Evcc.Snapshot, cfg: Control, ctrl: ControlState, q: Profile, w: real, pct: int)
    ensures var inp, p := InputsFromSnapshot(now, s, cfg, ctrl), ctrl.ActiveProfile(cfg);
            && EffectiveProfile(inp, cfg) == p == (if ctrl.autoProfile.Some? then ctrl.autoProfile.value else cfg.autoProfile)
            && EffectiveStartThreshold(inp, cfg)
               == (if p in ctrl.startThresholdW && ctrl.startThresholdW[p] != 0.0 then ctrl.startThresholdW[p] else cfg.startThresholdW)
            && EffectiveTargetSoC(inp, cfg)
               == (if p in ctrl.targetSoC && ctrl.targetSoC[p] != 0 then ctrl.targetSoC[p] else cfg.socCap)
            && (q != p ==> InputsFromSnapshot(now, s, cfg, ctrl.(startThresholdW := ctrl.startThresholdW[q := w],
                                                                 targetSoC := ctrl.targetSoC[q := pct])) == inp)
  {
  }

  /** Staleness is a property of the message history alone, and fresh is exactly: link up, evcc not
      offline, and both power metrics heard within the timeout. */
  lemma StaleExactlyWhenUnheard(now: Time, s: Evcc.Snapshot, f: Evcc.Feed, cfg: Control, ctrl: ControlState)
    requires Evcc.Reflects(s, f)
    ensures !InputsFromSnapshot(now, s, cfg, ctrl).stale <==>
            && f.Up() && NotOffline(f)
            && HeardSince(f, Evcc.Grid, now - cfg.staleTimeout)
            && HeardSince(f, Evcc.PVPower, now - cfg.staleTimeout)
  {
    assert Evcc.Agrees(s, f, Evcc.Grid) && Evcc.Agrees(s, f, Evcc.PVPower) && Evcc.Agrees(s, f, Evcc.Status);
  }

  /** End-to-end fail-safe: whatever messages and connection changes came before, and whatever the
      operator set, charging is commanded only on fresh data. */
  lemma ChargingNeedsFreshData(now: Time, s: Evcc.Snapshot, f: Evcc.Feed, cfg: Control, ctrl: ControlState,
                               st: State, timers: Timers)
    requires Evcc.Reflects(s, f)
    requires Decide(now, InputsFromSnapshot(now, s, cfg, ctrl), st, timers, cfg).mode.On?
    ensures f.Up() && NotOffline(f)
    ensures HeardSince(f, Evcc.Grid, now - cfg.staleTimeout)
    ensures HeardSince(f, Evcc.PVPower, now - cfg.staleTimeout)
  {
    StaleExactlyWhenUnheard(now, s, f, cfg, ctrl);
  }

  /** When well-formed messages of either power metric stop at `t`, data is stale past the timeout. */
  lemma SilenceIsStale(now: Time, s: Evcc.Snapshot, f: Evcc.Feed, cfg: Control, ctrl: ControlState,
                       c: Evcc.Channel, t: Time)
    requires Evcc.Reflects(s, f) && (c == Evcc.Grid || c == Evcc.PVPower)
    requires forall e :: e in f.events && f.Accepted(e, c) ==> e.at <= t
    requires now > t + cfg.staleTimeout
    ensures InputsFromSnapshot(now, s, cfg, ctrl).stale
  {
    f.LastIsFromHistory(c);
    StaleExactlyWhenUnheard(now, s, f, cfg, ctrl);
  }

  // ----- what a tick does, in terms of what the operator set and what arrived on the wire

  /** Link up, evcc not offline, both power metrics heard within the timeout. */
  predicate FreshAt(f: Evcc.Feed, now: Time, cfg: Control) {
    && f.Up() && NotOffline(f)
    && HeardSince(f, Evcc.Grid, now - cfg.staleTimeout) && HeardSince(f, Evcc.PVPower, now - cfg.staleTimeout)
  }

  /** The decision and the limit follow an override: on fresh data one in force switches off or on, one
      that is not in force does neither, and a bypass in force lifts the limit to the operator's figure,
      held between one above the cap and the maximum; no figure means the maximum. */
  ghost predicate Obeys(d: Decision, limit: int, now: Time, f: Evcc.Feed, cfg: Control, ctrl: ControlState,
                        mode: Override, until: Time, bypass: bool, bypassSoC: int) {
    var inForce := mode != Override.Auto && (until == 0 || now < until);
    var profile := if ctrl.autoProfile.Some? then ctrl.autoProfile.value else cfg.autoProfile;
    && (!FreshAt(f, now, cfg) ==> d.state == FailSafe && d.mode == Off)
    && (FreshAt(f, now, cfg) && inForce && mode == ForceOff ==> d.state == Idle && d.mode == Off && d.reason == OverrideOff)
    && (FreshAt(f, now, cfg) && inForce && mode == ForceOn ==> d.state == Charging && d.mode.On? && d.reason == OverrideOn)
    && (!inForce ==> d.reason != OverrideOff && d.reason != OverrideOn)
    && (d.mode.On? ==>
          d.mode == if inForce || profile == SurplusProfile
                    then On(if ctrl.chargePower.Some? then ctrl.chargePower.value else cfg.enableMode) else On(Now))
    && limit == (if inForce && mode == ForceOn && bypass then
                   if bypassSoC <= 0 || bypassSoC >= cfg.socMax then cfg.socMax
                   else if bypassSoC <= cfg.socCap then cfg.socCap + 1 else bypassSoC
                 else TargetOf(cfg, ctrl))
  }

  /** The active latch profile's own target, if it has one, else the cap. */
  function TargetOf(cfg: Control, ctrl: ControlState): int {
    var p := if ctrl.autoProfile.Some? then ctrl.autoProfile.value else cfg.autoProfile;
    if p != SurplusProfile && p in ctrl.targetSoC && ctrl.targetSoC[p] != 0 then ctrl.targetSoC[p] else cfg.socCap
  }

  /** Every tick follows the override it finds. */
  lemma OperatorIsObeyed(now: Time, s: Evcc.Snapshot, f: Evcc.Feed, cfg: Control, ctrl: ControlState, st: State, timers: Timers)
    requires Evcc.Reflects(s, f) && cfg.Valid()
    ensures var inp := InputsFromSnapshot(now, s, cfg, ctrl);
            Obeys(Decide(now, inp, st, timers, cfg), LimitSoCTarget(now, inp, cfg), now, f, cfg, ctrl,
                  ctrl.override, ctrl.overrideUntil, ctrl.capBypass, ctrl.capBypassSoC)
  {
    hide Evcc.Reflects, Round, HeardSince, NotOffline;
    StaleExactlyWhenUnheard(now, s, f, cfg, ctrl);
  }

  /** An override that is no longer in force binds no more than none. */
  lemma ExpiredObliges(d: Decision, limit: int, now: Time, f: Evcc.Feed, cfg: Control, ctrl: ControlState,
                       mode: Override, until: Time, bypass: bool, bypassSoC: int)
    requires Obeys(d, limit, now, f, cfg, ctrl, Override.Auto, 0, false, 0)
    requires mode == Override.Auto || (until != 0 && now >= until)
    ensures Obeys(d, limit, now, f, cfg, ctrl, mode, until, bypass, bypassSoC)
  {
  }

  /** All that a tick left to itself needs has been heard and a vehicle is plugged in. */
  predicate LeftToItself(f: Evcc.Feed, now: Time, cfg: Control, ctrl: ControlState) {
    && FreshAt(f, now, cfg) && (ctrl.override == Override.Auto || (ctrl.overrideUntil != 0 && now >= ctrl.overrideUntil))
    && f.Last(Evcc.VehicleSoC).Some? && f.Last(Evcc.Connected).Some? && f.BoolOf(Evcc.Connected).value
  }

  /** The power that starts the active profile has reached that profile's own threshold: production for
      one latch profile, for the other two what the car draws and the grid takes, less what the battery
      gives. */
  predicate Triggered(f: Evcc.Feed, cfg: Control, ctrl: ControlState) {
    var p := if ctrl.autoProfile.Some? then ctrl.autoProfile.value else cfg.autoProfile;
    var own := if p != SurplusProfile && p in ctrl.startThresholdW && ctrl.startThresholdW[p] != 0.0
               then ctrl.startThresholdW[p] else cfg.startThresholdW;
    if p == PowerLatch then f.FloatOf(Evcc.PVPower).value >= own else Spare(f) >= own
  }

  function Spare(f: Evcc.Feed): real {
    var battery := f.FloatOf(Evcc.BatteryPower).value;
    f.FloatOf(Evcc.ChargePower).value - f.FloatOf(Evcc.Grid).value - if battery > 0.0 then battery else 0.0
  }

  /** The rules of a tick left to itself, on what was heard and set: the target and its latch first; below
      it a charging wallbox goes on, except that low surplus winds down the surplus profile, and one that
      is off starts up exactly on its profile's trigger. */
  lemma RulesOnReadings(now: Time, s: Evcc.Snapshot, f: Evcc.Feed, cfg: Control, ctrl: ControlState, st: State, timers: Timers)
    requires Evcc.Reflects(s, f) && LeftToItself(f, now, cfg, ctrl)
    ensures var d := Decide(now, InputsFromSnapshot(now, s, cfg, ctrl), st, timers, cfg);
            var soc, target := Round(f.FloatOf(Evcc.VehicleSoC).value), TargetOf(cfg, ctrl);
            var p := if ctrl.autoProfile.Some? then ctrl.autoProfile.value else cfg.autoProfile;
            var full := soc >= target || (st == SocReached && soc >= target - (cfg.socCap - cfg.socResumeBelow));
            && (d.state == SocReached <==> full)
            && (!full && IsCharging(st) && p != SurplusProfile ==> d.state == Charging)
            && (!full && IsCharging(st) && p == SurplusProfile ==> (d.state == Charging <==> Spare(f) >= cfg.stopThresholdW))
            && (!full && !IsCharging(st) ==> (d.state == Idle <==> !Triggered(f, cfg, ctrl)))
            && (!full && !IsCharging(st) && Triggered(f, cfg, ctrl) ==> d.state == SurplusPending || d.state == Charging)
  {
    hide Evcc.Reflects, Round, HeardSince, NotOffline, Decide;
    StaleExactlyWhenUnheard(now, s, f, cfg, ctrl);
    InputsAreLastMessages(now, s, f, cfg, ctrl);
    GridAndPVHeard(f, now, cfg);
    LeftToItselfRules(now, InputsFromSnapshot(now, s, cfg, ctrl), st, timers, cfg);
  }

  lemma GridAndPVHeard(f: Evcc.Feed, now: Time, cfg: Control)
    requires FreshAt(f, now, cfg)
    ensures f.Last(Evcc.Grid).Some? && f.Last(Evcc.PVPower).Some?
  {
  }
}

/** The control loop: one object shared by the loop goroutine and the web layer.

    Every method keeps `Valid`, which ties the object's small state to the ghost histories of what it
    has seen and done. The laws about whole histories in the other modules therefore hold of every
    controller that these methods can produce. */
module ControlLoop {
  import opened Config
  import opened Policy
  import opened Runs
  import opened InputsMapping
  import opened Publish
  import Evcc
  import OverrideProtocol
  import Metering
  import Sessions
  import Settings
  import FailSafeRuns

  /** Audit events of the loop. */
  datatype Event =
    | StateChange(at: Time, from: State, to: State)
    | ModeCommand(at: Time, mode: Mode)
    | LimitCommand(at: Time, pct: int)

  /** What one tick computed between its two critical sections. */
  datatype Frame = Frame(now: Time, snap: Evcc.Snapshot, ctrl: ControlState, prevState: State,
                         inp: Inputs, dec: Decision, limitTarget: int, expire: bool)

  function TickOf(f: Frame): Runs.Tick {
    Runs.Tick.Tick(f.now, f.inp, f.dec)
  }

  /** An edge that makes the tick send whether or not anything changed: the broker link is back, or evcc
      is. */
  predicate Forced(snap: Evcc.Snapshot, wasConnected: bool, wasOnline: bool) {
    (snap.brokerConnected && !wasConnected) || (snap.online.value && !wasOnline)
  }

  datatype Phase = Resting | Deciding(f: Frame) | Publishing(f: Frame)

  /** Which of a tick's outside calls succeed. */
  datatype Outcomes = Outcomes(modeOk: bool, limitOk: bool, faults: Metering.Faults)

  function StoredOf(c: ControlState): OverrideProtocol.Stored {
    OverrideProtocol.Stored(c.override, c.overrideUntil, c.capBypass, c.capBypassSoC)
  }

  function LiveOf(c: ControlState): Settings.Live
    requires c.chargePower.Some? && c.autoProfile.Some?
  {
    Settings.Live(c.chargePower.value, c.autoProfile.value, c.startThresholdW, c.targetSoC)
  }

  /** Hours between ticks. */
  function DtHours(cfg: Control): real {
    cfg.decisionInterval as real / 3_600_000_000_000.0
  }

  /** The nanoseconds of an hour. */
  const NANOS_PER_HOUR := 60.0 * 60.0 * 1_000_000_000.0

  lemma HoursFromNanos(cfg: Control, energy: real, w: real)
    requires energy == w * DtHours(cfg)
    ensures energy * NANOS_PER_HOUR == w * (cfg.decisionInterval as real)
  {
    var dt := DtHours(cfg);
    assert dt * NANOS_PER_HOUR == cfg.decisionInterval as real;
    assert (w * dt) * NANOS_PER_HOUR == w * (dt * NANOS_PER_HOUR);
  }

  /** A row's totals are those of the first `n` of some powers, each for an interval of so many
      nanoseconds, the energy in watt-hours. */
  predicate InWattHours(r: Sessions.Session, own: seq<real>, n: nat, nanos: int) {
    && n <= |own| && r.energyWh * NANOS_PER_HOUR == Metering.Sum(own[..n]) * (nanos as real)
    && r.peakW == Metering.Top(own[..n]) && (n > 0 ==> r.avgW == Metering.Sum(own[..n]) / (n as real))
  }

  /** The totals are those of some first few, and of all of them if `exact`. */
  ghost predicate CoversInWattHours(r: Sessions.Session, own: seq<real>, nanos: int, exact: bool) {
    exists n: nat :: InWattHours(r, own, n, nanos) && (exact ==> n == |own|)
  }

  lemma ShownInWattHours(cfg: Control, r: Sessions.Session, own: seq<real>, n: nat)
    requires Metering.ShowsFirst(r, own, n, DtHours(cfg))
    ensures InWattHours(r, own, n, cfg.decisionInterval)
  {
    HoursFromNanos(cfg, r.energyWh, Metering.Sum(own[..n]));
  }

  // ----- the audit log, by kind

  function ModesIn(es: seq<Event>): seq<Said<Mode>> {
    if es == [] then []
    else
      var e := es[|es| - 1];
      ModesIn(es[..|es| - 1]) + if e.ModeCommand? then [Said(e.at, e.mode)] else []
  }

  function LimitsIn(es: seq<Event>): seq<Said<int>> {
    if es == [] then []
    else
      var e := es[|es| - 1];
      LimitsIn(es[..|es| - 1]) + if e.LimitCommand? then [Said(e.at, e.pct)] else []
  }

  function ChangesIn(es: seq<Event>): seq<Change> {
    if es == [] then []
    else
      var e := es[|es| - 1];
      ChangesIn(es[..|es| - 1]) + if e.StateChange? then [Change(e.at, e.from, e.to)] else []
  }

  lemma Logged(es: seq<Event>, e: Event)
    ensures ModesIn(es + [e]) == ModesIn(es) + if e.ModeCommand? then [Said(e.at, e.mode)] else []
    ensures LimitsIn(es + [e]) == LimitsIn(es) + if e.LimitCommand? then [Said(e.at, e.pct)] else []
    ensures ChangesIn(es + [e]) == ChangesIn(es) + if e.StateChange? then [Change(e.at, e.from, e.to)] else []
  {
    assert (es + [e])[..|es|] == es;
  }

  lemma {:induction false} InItsLog(es: seq<Event>, e: Event)
    requires e in es
    ensures match e
            case ModeCommand(at, m) => Said(at, m) in ModesIn(es)
            case LimitCommand(at, pct) => Said(at, pct) in LimitsIn(es)
            case StateChange(at, from, to) => Change(at, from, to) in ChangesIn(es)
  {
    if e != es[|es| - 1] { InItsLog(es[..|es| - 1], e); }
  }

  // ----- growing a history by one tick

  lemma RunGrows(r: Run, t: Tick)
    requires r.Valid() && t.now > 0 && (r.ticks != [] ==> r.ticks[|r.ticks| - 1].now <= t.now)
    requires var p := r.At(|r.ticks|); t.dec == Decide(t.now, t.inp, p.state, p.timers, r.cfg)
    ensures var r' := Run(r.cfg, r.ticks + [t]);
            && r'.Valid() && r'.At(|r'.ticks|) == Position(t.dec.state, t.dec.timers)
            && StateChanges(r', |r'.ticks|) == StateChanges(r, |r.ticks|)
                 + if r.At(|r.ticks|).state != t.dec.state then [Change(t.now, r.At(|r.ticks|).state, t.dec.state)] else []
  {
    var r' := Run(r.cfg, r.ticks + [t]);
    var n := |r.ticks|;
    forall i | 0 <= i <= n ensures r'.At(i) == r.At(i) {}
    forall i | 0 <= i <= n ensures r'.Decided(i) {
      if i < n { assert r.Decided(i); }
    }
    SameChanges(r, r', n);
  }

  lemma {:induction false} SameChanges(r: Run, r': Run, i: nat)
    requires i <= |r.ticks| <= |r'.ticks| && forall k :: 0 <= k < |r.ticks| ==> r'.ticks[k] == r.ticks[k]
    ensures StateChanges(r', i) == StateChanges(r, i)
  {
    if i > 0 { SameChanges(r, r', i - 1); }
  }

  lemma {:induction false} SameLedgers(h: Metering.History, g: Metering.History, i: nat)
    requires h.dt == g.dt && i <= |h.steps| <= |g.steps| && g.steps[..|h.steps|] == h.steps
    ensures g.At(i) == h.At(i)
  {
    if i > 0 {
      SameLedgers(h, g, i - 1);
      assert g.steps[i - 1] == g.steps[..|h.steps|][i - 1];
    }
  }

  lemma HistoryGrows(h: Metering.History, step: Metering.Step)
    ensures var g := Metering.History(h.dt, h.steps + [step]);
            g.At(|g.steps|) == Metering.Apply(h.At(|h.steps|), h.dt, step)
  {
    var g := Metering.History(h.dt, h.steps + [step]);
    assert g.steps[..|h.steps|] == h.steps;
    SameLedgers(h, g, |h.steps|);
  }

  /** Every change starts where the one before ended. */
  ghost predicate Linked(e: seq<Change>) {
    forall k :: 0 < k < |e| ==> e[k - 1].to == e[k].from
  }

  function StartReason(now: Time, inp: Inputs): string {
    if OverrideActive(now, inp) then "override" else "surplus"
  }

  function StopReason(now: Time, st: State, inp: Inputs): string {
    match st
    case SocReached => "soc_cap"
    case FailSafe => "stale"
    case _ => if OverrideActive(now, inp) then "override" else "surplus_low"
  }

  function SampleOf(now: Time, inp: Inputs, st: State): Metering.Sample {
    Metering.Sample(now, inp.charging, inp.stale, inp.chargeW,
                    if inp.vehicleSoCKnown then Some(inp.vehicleSoC) else None,
                    StartReason(now, inp), StopReason(now, st, inp))
  }

  /** The first sends of both publishers are those of the first ticks: the mode decided there, and the
      limit that tick's inputs ask for. */
  ghost predicate Matched(cfg: Control, ticks: seq<Runs.Tick>, ms: seq<Send<Mode>>, ls: seq<Send<int>>) {
    && |ls| == |ms| <= |ticks|
    && forall i :: 0 <= i < |ms| ==>
         && ms[i].now == ticks[i].now == ls[i].now && ms[i].want == ticks[i].dec.mode && ms[i].up
         && ls[i].want == LimitSoCTarget(ticks[i].now, ticks[i].inp, cfg)
  }

  lemma MatchedGrows(cfg: Control, ticks: seq<Runs.Tick>, t: Runs.Tick, ms: seq<Send<Mode>>, ls: seq<Send<int>>)
    requires Matched(cfg, ticks, ms, ls)
    ensures Matched(cfg, ticks + [t], ms, ls)
  {
  }

  lemma MatchedSends(cfg: Control, ticks: seq<Runs.Tick>, ms: seq<Send<Mode>>, ls: seq<Send<int>>, m: Send<Mode>, l: Send<int>)
    requires Matched(cfg, ticks, ms, ls) && |ticks| == |ms| + 1
    requires var t := ticks[|ms|];
             && m.now == t.now == l.now && m.want == t.dec.mode && m.up
             && l.want == LimitSoCTarget(t.now, t.inp, cfg)
    ensures Matched(cfg, ticks, ms + [m], ls + [l])
  {
  }

  /** The row of a tick in the samples table. */
  datatype StoredSample = StoredSample(
    at: Time, gridW: real, pvW: real, homeW: real, batterySoC: int, batteryW: real, chargeW: real,
    vehicleSoC: int, charging: bool, mode: Mode, surplusW: real, state: State)

  function StoredSampleOf(t: Runs.Tick): StoredSample {
    StoredSample(t.now, t.inp.gridW, t.inp.pvW, t.inp.homeW, t.inp.batterySoC, t.inp.batteryW, t.inp.chargeW,
                 t.inp.vehicleSoC, t.inp.charging, t.dec.mode, SurplusW(t.inp), t.dec.state)
  }

  class Controller {
    const cfg: Control
    const other: Settings.OtherForms
    const rec: Sessions.SessionTable
    const settings: Settings.SettingsTable

    // shared with the web layer
    var state: State
    var timers: Timers
    var ctrl: ControlState

    // owned by the loop
    var lastMode: Option<Mode>
    var lastPublishAt: Time
    var limitSoCSet: bool
    var lastLimitSoC: int
    var lastLimitPublishAt: Time
    var prevBrokerConnected: bool
    var prevOnline: bool
    var prevCharging: bool
    var sessionID: int
    var sessionPeakW: real
    var sessionEnWh: real
    var sessionSumW: real
    var sessionTicks: nat

    /** Every event and every sample handed to the recorder, oldest first. */
    var events: seq<Event>
    var samples: seq<StoredSample>

    // ghost histories
    ghost var run: Run
    ghost var modes: Link<Mode>
    ghost var limits: Link<int>
    ghost var meter: Metering.History
    ghost var ops: seq<OverrideProtocol.Op>
    ghost var base: Settings.Table
    ghost var calls: seq<Settings.Step>
    ghost var phase: Phase

    /** The engine's position is where the run of all ticks ends. */
    ghost predicate EngineOk() reads this`state, this`timers, this`run {
      run.cfg == cfg && run.Valid() && run.At(|run.ticks|) == Position(state, timers)
    }

    /** The publishers' memories are where their send histories end. */
    ghost predicate ModeOk() reads this`lastMode, this`lastPublishAt, this`modes {
      modes.republish == cfg.republish && modes.At(|modes.sends|) == Pub(lastMode, lastPublishAt)
    }

    ghost predicate LimitOk() reads this`limitSoCSet, this`lastLimitSoC, this`lastLimitPublishAt, this`limits {
      limits.republish == cfg.republish
      && limits.At(|limits.sends|) == Pub(if limitSoCSet then Some(lastLimitSoC) else None, lastLimitPublishAt)
    }

    ghost function Totals(): Metering.Meter
      reads this`prevCharging, this`sessionID, this`sessionPeakW, this`sessionEnWh, this`sessionSumW, this`sessionTicks
    {
      Metering.Meter(prevCharging, sessionID, sessionPeakW, sessionEnWh, sessionSumW, sessionTicks)
    }

    /** The running totals and the session table are where the metering history ends. */
    ghost predicate MeterOk()
      reads this`prevCharging, this`sessionID, this`sessionPeakW, this`sessionEnWh, this`sessionSumW, this`sessionTicks
      reads this`meter, rec
    {
      meter.dt == DtHours(cfg) && meter.At(|meter.steps|) == Metering.Ledger(Totals(), rec.rows)
    }

    /** The override is where the interleaving of ticks and operator calls ends. */
    ghost predicate OverrideOk() reads this`ctrl, this`ops, this`phase, this`state, this`timers {
      var s := OverrideProtocol.After(ops);
      && s.stored == StoredOf(ctrl)
      && (phase.Deciding? <==> s.frame.Some?)
      && (phase.Deciding? ==>
            && s.frame.value == OverrideProtocol.Frame(StoredOf(phase.f.ctrl), phase.f.now)
            && Computed(phase.f) && phase.f.prevState == state
            && phase.f.dec == Decide(phase.f.now, phase.f.inp, state, timers, cfg))
      && (phase.Publishing? ==> Computed(phase.f))
    }

    /** No tick has read the override at a time still to come. */
    ghost predicate ReadsPast() reads this`ops, this`phase, this`run {
      forall i :: 0 <= i < |ops| && ops[i].Read? ==>
        || (phase.Deciding? && ops[i].now <= phase.f.now)
        || (run.ticks != [] && ops[i].now <= run.ticks[|run.ticks| - 1].now)
    }

    /** The settings calls and what became of them, as the settings module has it. */
    ghost function Calls(): Settings.State reads this`base, this`calls {
      Settings.System(cfg, other).After(base, calls)
    }

    /** Memory and table are where the interleaving of settings calls ends. */
    ghost predicate SettingsOk() reads this`ctrl, this`base, this`calls, settings {
      ctrl.chargePower.Some? && ctrl.autoProfile.Some?
      && Calls().live == LiveOf(ctrl) && Calls().table == settings.rows
    }

    /** The commands in the audit log are those the publishers had acknowledged. */
    ghost predicate CommandsLogged() reads this`events, this`modes, this`limits {
      ModesIn(events) == modes.Events(|modes.sends|, true) && LimitsIn(events) == limits.Events(|limits.sends|, false)
    }

    /** The state changes in the audit log are those of the run; the last one may still be due. */
    ghost predicate ChangesLogged() reads this`events, this`run, this`phase {
      StateChanges(run, |run.ticks|)
      == ChangesIn(events)
         + if phase.Publishing? && phase.f.prevState != phase.f.dec.state then [Change(phase.f.now, phase.f.prevState, phase.f.dec.state)] else []
    }

    /** Each decision is handed to the publishers in its own tick. */
    ghost predicate InStep() reads this`run, this`modes, this`limits, this`phase {
      && Matched(cfg, run.ticks, modes.sends, limits.sends)
      && |run.ticks| == |modes.sends| + (if phase.Publishing? then 1 else 0)
      && (phase.Publishing? ==> run.ticks[|run.ticks| - 1] == TickOf(phase.f))
      && (phase.Deciding? && run.ticks != [] ==> run.ticks[|run.ticks| - 1].now <= phase.f.now)
    }

    /** One sample per completed tick, with what that tick saw and decided. */
    ghost predicate SamplesOk() reads this`samples, this`run, this`phase {
      |run.ticks| == |samples| + (if phase.Publishing? then 1 else 0) && Sampled()
    }

    ghost predicate Sampled() reads this`samples, this`run {
      |samples| <= |run.ticks| && forall i :: 0 <= i < |samples| ==> samples[i] == StoredSampleOf(run.ticks[i])
    }

    predicate Computed(f: Frame) {
      && f.now > 0
      && f.inp == InputsFromSnapshot(f.now, f.snap, cfg, f.ctrl)
      && f.limitTarget == LimitSoCTarget(f.now, f.inp, cfg)
      && (f.expire <==> f.ctrl.override != Auto && !OverrideActive(f.now, f.inp))
    }

    ghost predicate Valid() reads this, rec, settings {
      EngineOk() && ModeOk() && LimitOk() && MeterOk() && OverrideOk() && SettingsOk()
      && CommandsLogged() && ChangesLogged() && InStep() && SamplesOk() && ReadsPast()
    }

    // ----- startup

    /** A controller that has not started yet: nothing seen, nothing done, configured defaults. */
    ghost predicate New() reads this {
      && EngineOk() && ModeOk() && LimitOk() && OverrideOk()
      && CommandsLogged() && ChangesLogged() && InStep() && SamplesOk() && ReadsPast()
      && run.ticks == [] && modes.sends == [] && events == [] && ops == [] && phase == Resting
      && Totals() == Metering.IDLE_METER && !prevBrokerConnected && !prevOnline
      && ctrl == ControlState(Auto, 0, false, 0, Some(cfg.enableMode), Some(cfg.autoProfile), map[], map[])
    }

    constructor (cfg: Control, other: Settings.OtherForms, rec: Sessions.SessionTable, settings: Settings.SettingsTable)
      requires cfg.Valid()
      ensures New() && this.cfg == cfg && this.rec == rec && this.settings == settings && this.other == other
    {
      this.cfg, this.other, this.rec, this.settings := cfg, other, rec, settings;
      state, timers := Idle, NO_TIMERS;
      ctrl := ControlState(Auto, 0, false, 0, Some(cfg.enableMode), Some(cfg.autoProfile), map[], map[]);
      lastMode, lastPublishAt := None, 0;
      limitSoCSet, lastLimitSoC, lastLimitPublishAt := false, 0, 0;
      prevBrokerConnected, prevOnline, prevCharging := false, false, false;
      sessionID, sessionPeakW, sessionEnWh, sessionSumW, sessionTicks := 0, 0.0, 0.0, 0.0, 0;
      events, samples, ops, base, calls, phase := [], [], [], map[], [], Resting;
      run, modes, limits := Run(cfg, []), Link(cfg.republish, []), Link(cfg.republish, []);
    }

    /** What the loop does before its first tick, over a database with any history. `past` is what the
        session table has been through; `torn` is the session edge of a tick the previous process did
        not survive, if any. Reading the `failed` settings fails. */
    method Start(now: Time, recoverOk: bool, failed: set<Settings.Key>,
                 ghost past: Metering.History, ghost torn: Option<(Metering.Sample, Metering.Faults)>)
      requires New() && past.dt == DtHours(cfg)
      requires var l := past.At(|past.steps|);
               rec.rows == if torn.Some? then Metering.Edge(l, torn.value.0, torn.value.1).rows else l.rows
      modifies this`ctrl, this`meter, this`base, this`calls, rec
      ensures Valid()
      ensures meter.steps == past.steps + [Metering.Restarted(torn, now, recoverOk)]
      ensures base == settings.rows && calls == [Settings.Restart(failed)]
      ensures LiveOf(ctrl) == Settings.Loaded(cfg, Settings.Readable(settings.rows, failed), other)
    {
      hide EngineOk, ModeOk, LimitOk, MeterOk, OverrideOk, SettingsOk, CommandsLogged, ChangesLogged, InStep, SamplesOk, ReadsPast;
      RecoverDanglingSession(now, recoverOk, past, torn);
      LoadSettings(failed);
    }

    /** Closes the session a previous process left open. */
    method RecoverDanglingSession(now: Time, ok: bool,
                                  ghost past: Metering.History, ghost torn: Option<(Metering.Sample, Metering.Faults)>)
      requires Totals() == Metering.IDLE_METER && past.dt == DtHours(cfg)
      requires var l := past.At(|past.steps|);
               rec.rows == if torn.Some? then Metering.Edge(l, torn.value.0, torn.value.1).rows else l.rows
      modifies this`meter, rec
      ensures MeterOk() && meter.steps == past.steps + [Metering.Restarted(torn, now, ok)]
      ensures rec.rows == Metering.Recovered(old(rec.rows), now, ok)
    {
      meter := Metering.History(past.dt, past.steps + [Metering.Restarted(torn, now, ok)]);
      HistoryGrows(past, Metering.Restarted(torn, now, ok));
      var open := rec.OpenSession();
      if open != 0 {
        var row := rec.rows[open - 1];
        var done := rec.EndSession(open, now, "restart", None, row.energyWh, row.avgW, row.peakW, ok);
      }
    }

    /** Puts the accepted stored settings over the configured defaults. */
    method LoadSettings(failed: set<Settings.Key>)
      requires ctrl.chargePower == Some(cfg.enableMode) && ctrl.autoProfile == Some(cfg.autoProfile)
      requires ctrl.startThresholdW == map[] && ctrl.targetSoC == map[]
      requires OverrideOk()
      modifies this`ctrl, this`base, this`calls
      ensures SettingsOk() && OverrideOk()
      ensures base == settings.rows && calls == [Settings.Restart(failed)]
      ensures LiveOf(ctrl) == Settings.Loaded(cfg, Settings.Readable(settings.rows, failed), other)
    {
      LoadAll(failed);
      base, calls := settings.rows, [];
      Settings.System(cfg, other).AfterOneMore(base, calls, Settings.Restart(failed));
      assert calls + [Settings.Restart(failed)] == [Settings.Restart(failed)];
      calls := [Settings.Restart(failed)];
    }

    method LoadAll(failed: set<Settings.Key>)
      requires ctrl.chargePower == Some(cfg.enableMode) && ctrl.autoProfile == Some(cfg.autoProfile)
      requires ctrl.startThresholdW == map[] && ctrl.targetSoC == map[]
      modifies this`ctrl
      ensures ctrl.chargePower.Some? && ctrl.autoProfile.Some? && StoredOf(ctrl) == old(StoredOf(ctrl))
      ensures LiveOf(ctrl) == Settings.Loaded(cfg, Settings.Readable(settings.rows, failed), other)
    {
      LoadChargePower(failed);
      LoadAutoProfile(failed);
      LoadStartThreshold(PowerLatch, failed);
      LoadStartThreshold(SurplusLatch, failed);
      LoadTargetSoC(PowerLatch, failed);
      LoadTargetSoC(SurplusLatch, failed);
    }

    /** The entry a startup accepts for one setting. */
    function Accepted(k: Settings.Key, failed: set<Settings.Key>): (e: Option<Settings.Entry>)
      reads settings
      ensures e.Some? ==> Settings.KeyOf(e.value) == k
    {
      Settings.ReadEntry(cfg, Settings.Readable(settings.rows, failed), other, k)
    }

    method LoadChargePower(failed: set<Settings.Key>)
      requires ctrl.chargePower == Some(cfg.enableMode)
      modifies this`ctrl
      ensures ctrl == old(ctrl).(chargePower := Some(Settings.OrPower(Accepted(Settings.ChargePowerKey, failed), cfg.enableMode)))
    {
      var k := Settings.ChargePowerKey;
      Settings.ReadableRow(settings.rows, failed, k);
      var mode, found := settings.GetSetting(Settings.KeyText(k), k !in failed);
      if !found || Settings.ParsePower(mode).None? { return; }
      ctrl := ctrl.(chargePower := Settings.ParsePower(mode));
    }

    method LoadAutoProfile(failed: set<Settings.Key>)
      requires ctrl.autoProfile == Some(cfg.autoProfile)
      modifies this`ctrl
      ensures ctrl == old(ctrl).(autoProfile := Some(Settings.OrActive(Accepted(Settings.AutoProfileKey, failed), cfg.autoProfile)))
    {
      var k := Settings.AutoProfileKey;
      Settings.ReadableRow(settings.rows, failed, k);
      var profile, found := settings.GetSetting(Settings.KeyText(k), k !in failed);
      if !found || Settings.ParseProfile(profile).None? { return; }
      ctrl := ctrl.(autoProfile := Settings.ParseProfile(profile));
    }

    /** One latch profile's stored start threshold, ignored if missing or invalid. */
    method LoadStartThreshold(p: Profile, failed: set<Settings.Key>)
      requires Settings.IsLatch(p)
      modifies this`ctrl
      ensures ctrl == old(ctrl).(startThresholdW :=
                Settings.AddWatts(old(ctrl).startThresholdW, Accepted(Settings.StartThresholdKey(p), failed)))
    {
      var k := Settings.StartThresholdKey(p);
      Settings.ReadableRow(settings.rows, failed, k);
      var raw, found := settings.GetSetting(Settings.KeyText(k), k !in failed);
      if !found { return; }
      var w := Settings.ParseWatts(raw, other);
      if w.None? || !Settings.ValidWatts(cfg, w.value) { return; }
      ctrl := ctrl.(startThresholdW := ctrl.startThresholdW[p := w.value]);
    }

    /** One latch profile's stored target, ignored if missing or invalid. */
    method LoadTargetSoC(p: Profile, failed: set<Settings.Key>)
      requires Settings.IsLatch(p)
      modifies this`ctrl
      ensures ctrl == old(ctrl).(targetSoC :=
                Settings.AddTarget(old(ctrl).targetSoC, Accepted(Settings.TargetSoCKey(p), failed)))
    {
      var k := Settings.TargetSoCKey(p);
      Settings.ReadableRow(settings.rows, failed, k);
      var raw, found := settings.GetSetting(Settings.KeyText(k), k !in failed);
      if !found { return; }
      var pct := Settings.ParseInt(raw);
      if pct.None? || !Settings.ValidTarget(pct.value) { return; }
      ctrl := ctrl.(targetSoC := ctrl.targetSoC[p := pct.value]);
    }

    // ----- the web layer's side

    method SetOverride(mode: Override, until: Time, capBypass: bool, capBypassSoC: int)
      requires Valid()
      modifies this`ctrl, this`ops
      ensures Valid()
      ensures ops == old(ops) + [OverrideProtocol.Set(mode, until, capBypass, capBypassSoC)]
      ensures ctrl.override == mode && ctrl.overrideUntil == until && ctrl.capBypass == (capBypass && mode == ForceOn)
      ensures ctrl.capBypassSoC == if ctrl.capBypass then capBypassSoC else 0
    {
      hide EngineOk, ModeOk, LimitOk, MeterOk, CommandsLogged, ChangesLogged, InStep, SamplesOk, ReadsPast;
      var bypass, soc := capBypass, capBypassSoC;
      if mode != ForceOn { bypass := false; }
      if !bypass { soc := 0; }
      WriteOverride(mode, until, bypass, soc, OverrideProtocol.Set(mode, until, capBypass, capBypassSoC));
    }

    /** The critical section of SetOverride. */
    method WriteOverride(mode: Override, until: Time, bypass: bool, soc: int, ghost op: OverrideProtocol.Op)
      requires OverrideOk() && SettingsOk() && ReadsPast()
      requires op.Set? && OverrideProtocol.Normalized(op) == OverrideProtocol.Stored(mode, until, bypass, soc)
      modifies this`ctrl, this`ops
      ensures OverrideOk() && SettingsOk() && ReadsPast() && ops == old(ops) + [op]
      ensures StoredOf(ctrl) == OverrideProtocol.Stored(mode, until, bypass, soc)
    {
      hide Decide, Computed, OverrideProtocol.After;
      ctrl := ctrl.(override := mode);
      ctrl := ctrl.(overrideUntil := until);
      ctrl := ctrl.(capBypass := bypass);
      ctrl := ctrl.(capBypassSoC := soc);
      OverrideProtocol.AfterOneMore(ops, op);
      ops := ops + [op];
    }

    // Each settings call is three atomic parts: validation against the active profile, the table, memory.
    // Other calls and the loop may run in between; `id` tells the calls in flight apart.

    ghost predicate InFlight(id: nat, e: Settings.Entry, persisted: bool) reads this`base, this`calls {
      id in Calls().pending && Calls().pending[id] == Settings.Pending(e, persisted)
    }

    /** The call was validated: what it asks for, if accepted, is in flight. */
    twostate predicate Began(id: nat, c: Settings.Call, new e: Option<Settings.Entry>)
      requires old(SettingsOk())
      reads this
    {
      && e == Settings.Accept(cfg, old(ctrl).autoProfile.value, c)
      && base == old(base) && calls == old(calls) + [Settings.Begin(id, c)]
      && (e.Some? ==> InFlight(id, e.value, false))
    }

    ghost method BeginCall(id: nat, c: Settings.Call)
      requires SettingsOk() && id !in Calls().pending
      modifies this`calls
      ensures SettingsOk() && Began(id, c, Settings.Accept(cfg, ctrl.autoProfile.value, c))
    {
      Settings.System(cfg, other).AfterOneMore(base, calls, Settings.Begin(id, c));
      calls := calls + [Settings.Begin(id, c)];
    }

    method CheckChargePower(mode: string, ghost id: nat) returns (e: Option<Settings.Entry>)
      requires SettingsOk() && id !in Calls().pending
      modifies this`calls
      ensures SettingsOk() && Began(id, Settings.SetChargePower(mode), e)
    {
      BeginCall(id, Settings.SetChargePower(mode));
      var m := Settings.ParsePower(mode);
      if m.None? { return None; }
      e := Some(Settings.Power(m.value));
    }

    method CheckAutoProfile(profile: string, ghost id: nat) returns (e: Option<Settings.Entry>)
      requires SettingsOk() && id !in Calls().pending
      modifies this`calls
      ensures SettingsOk() && Began(id, Settings.SetAutoProfile(profile), e)
    {
      BeginCall(id, Settings.SetAutoProfile(profile));
      var p := Settings.ParseProfile(profile);
      if p.None? { return None; }
      e := Some(Settings.Active(p.value));
    }

    method CheckStartThreshold(w: real, ghost id: nat) returns (e: Option<Settings.Entry>)
      requires SettingsOk() && id !in Calls().pending
      modifies this`calls
      ensures SettingsOk() && Began(id, Settings.SetStartThreshold(w), e)
    {
      BeginCall(id, Settings.SetStartThreshold(w));
      if !Settings.ValidWatts(cfg, w) { return None; }
      var profile := ctrl.ActiveProfile(cfg);
      if !Settings.IsLatch(profile) { return None; }
      e := Some(Settings.Watts(profile, w));
    }

    method CheckTargetSoC(pct: int, ghost id: nat) returns (e: Option<Settings.Entry>)
      requires SettingsOk() && id !in Calls().pending
      modifies this`calls
      ensures SettingsOk() && Began(id, Settings.SetTargetSoC(pct), e)
    {
      BeginCall(id, Settings.SetTargetSoC(pct));
      if !Settings.ValidTarget(pct) { return None; }
      var profile := ctrl.ActiveProfile(cfg);
      if !Settings.IsLatch(profile) { return None; }
      e := Some(Settings.Target(profile, pct));
    }

    /** The table first; a failed write ends the call and leaves memory alone. */
    method PersistSetting(e: Settings.Entry, ok: bool, ghost id: nat)
      requires SettingsOk() && Settings.ValidEntry(cfg, e) && InFlight(id, e, false)
      modifies this`calls, settings
      ensures SettingsOk() && base == old(base) && calls == old(calls) + [Settings.Persist(id, ok)]
      ensures settings.rows == if ok then Settings.Written(cfg, old(settings.rows), e) else old(settings.rows)
      ensures if ok then InFlight(id, e, true) else id !in Calls().pending
    {
      settings.SetSetting(Settings.KeyText(Settings.KeyOf(e)), Settings.TextOf(cfg, e), ok);
      Settings.System(cfg, other).AfterOneMore(base, calls, Settings.Persist(id, ok));
      calls := calls + [Settings.Persist(id, ok)];
    }

    /** Then memory. */
    method CommitSetting(e: Settings.Entry, ghost id: nat)
      requires SettingsOk() && InFlight(id, e, true)
      modifies this`ctrl, this`calls
      ensures SettingsOk() && base == old(base) && calls == old(calls) + [Settings.Commit(id)]
      ensures StoredOf(ctrl) == old(StoredOf(ctrl)) && LiveOf(ctrl) == Settings.Put(old(LiveOf(ctrl)), e)
      ensures id !in Calls().pending
    {
      match e {
        case Power(m) => ctrl := ctrl.(chargePower := Some(m));
        case Active(a) => ctrl := ctrl.(autoProfile := Some(a));
        case Watts(p, w) => ctrl := ctrl.(startThresholdW := ctrl.startThresholdW[p := w]);
        case Target(p, pct) => ctrl := ctrl.(targetSoC := ctrl.targetSoC[p := pct]);
      }
      Settings.System(cfg, other).AfterOneMore(base, calls, Settings.Commit(id));
      calls := calls + [Settings.Commit(id)];
    }

    /** A validated call's other two parts. */
    method Finish(e: Settings.Entry, ok: bool, ghost id: nat)
      requires Valid() && Settings.ValidEntry(cfg, e) && InFlight(id, e, false)
      modifies this`ctrl, this`calls, settings
      ensures Valid() && base == old(base) && id !in Calls().pending
      ensures calls == old(calls) + [Settings.Persist(id, ok)] + if ok then [Settings.Commit(id)] else []
      ensures LiveOf(ctrl) == if ok then Settings.Put(old(LiveOf(ctrl)), e) else old(LiveOf(ctrl))
      ensures settings.rows == if ok then Settings.Written(cfg, old(settings.rows), e) else old(settings.rows)
    {
      hide EngineOk, ModeOk, LimitOk, MeterOk, CommandsLogged, ChangesLogged, InStep, SamplesOk, ReadsPast, InFlight;
      PersistSetting(e, ok, id);
      if ok { CommitSetting(e, id); }
    }

    /** An undisturbed call changed table and memory together, or nothing. */
    twostate predicate Changed(c: Settings.Call, done: bool)
      requires old(SettingsOk()) && SettingsOk()
      reads this, settings
    {
      var e := Settings.Accept(cfg, old(ctrl).autoProfile.value, c);
      && (done ==> e.Some?)
      && LiveOf(ctrl) == (if done then Settings.Put(LiveOf(old(ctrl)), e.value) else LiveOf(old(ctrl)))
      && settings.rows == (if done then Settings.Written(cfg, old(settings.rows), e.value) else old(settings.rows))
    }

    method SetChargePower(mode: string, ok: bool, ghost id: nat) returns (done: bool)
      requires Valid() && id !in Calls().pending
      modifies this`ctrl, this`calls, settings
      ensures Valid() && Changed(Settings.SetChargePower(mode), done)
      ensures done <==> ok && Settings.Accept(cfg, old(ctrl).autoProfile.value, Settings.SetChargePower(mode)).Some?
    {
      hide EngineOk, ModeOk, LimitOk, MeterOk, OverrideOk, CommandsLogged, ChangesLogged, InStep, SamplesOk, ReadsPast, InFlight;
      var e := CheckChargePower(mode, id);
      if e.None? { return false; }
      Finish(e.value, ok, id);
      done := ok;
    }

    method SetAutoProfile(profile: string, ok: bool, ghost id: nat) returns (done: bool)
      requires Valid() && id !in Calls().pending
      modifies this`ctrl, this`calls, settings
      ensures Valid() && Changed(Settings.SetAutoProfile(profile), done)
      ensures done <==> ok && Settings.Accept(cfg, old(ctrl).autoProfile.value, Settings.SetAutoProfile(profile)).Some?
    {
      hide EngineOk, ModeOk, LimitOk, MeterOk, OverrideOk, CommandsLogged, ChangesLogged, InStep, SamplesOk, ReadsPast, InFlight;
      var e := CheckAutoProfile(profile, id);
      if e.None? { return false; }
      Finish(e.value, ok, id);
      done := ok;
    }

    method SetStartThreshold(w: real, ok: bool, ghost id: nat) returns (done: bool)
      requires Valid() && id !in Calls().pending
      modifies this`ctrl, this`calls, settings
      ensures Valid() && Changed(Settings.SetStartThreshold(w), done)
      ensures done <==> ok && Settings.Accept(cfg, old(ctrl).autoProfile.value, Settings.SetStartThreshold(w)).Some?
    {
      hide EngineOk, ModeOk, LimitOk, MeterOk, OverrideOk, CommandsLogged, ChangesLogged, InStep, SamplesOk, ReadsPast, InFlight;
      var e := CheckStartThreshold(w, id);
      if e.None? { return false; }
      Finish(e.value, ok, id);
      done := ok;
    }

    method SetTargetSoC(pct: int, ok: bool, ghost id: nat) returns (done: bool)
      requires Valid() && id !in Calls().pending
      modifies this`ctrl, this`calls, settings
      ensures Valid() && Changed(Settings.SetTargetSoC(pct), done)
      ensures done <==> ok && Settings.Accept(cfg, old(ctrl).autoProfile.value, Settings.SetTargetSoC(pct)).Some?
    {
      hide EngineOk, ModeOk, LimitOk, MeterOk, OverrideOk, CommandsLogged, ChangesLogged, InStep, SamplesOk, ReadsPast, InFlight;
      var e := CheckTargetSoC(pct, id);
      if e.None? { return false; }
      Finish(e.value, ok, id);
      done := ok;
    }

    // ----- the loop's side: one tick in three parts, operator calls may run in between

    /** What a frame promises. Whatever the operator and the wire did, charging is decided only on fresh
        data, and the limit requested is in range and not yet reached. */
    ghost predicate Safe(f: Frame, feed: Evcc.Feed) {
      && (f.dec.mode.On? ==>
            && feed.Up() && NotOffline(feed)
            && HeardSince(feed, Evcc.Grid, f.now - cfg.staleTimeout)
            && HeardSince(feed, Evcc.PVPower, f.now - cfg.staleTimeout))
      && 1 <= f.limitTarget <= 100
      && (CapBypassActive(f.now, f.inp) ==> cfg.socCap < f.limitTarget <= cfg.socMax)
      && (!CapBypassActive(f.now, f.inp) && EffectiveProfile(f.inp, cfg) == SurplusProfile ==> f.limitTarget == cfg.socCap)
      && (f.dec.mode.On? && f.dec.reason != OverrideOn ==> f.inp.vehicleSoC < f.limitTarget)
    }

    /** In every reachable state the active profile's target is unset or within range. */
    lemma TargetsInRange()
      requires SettingsOk()
      ensures var pct := ctrl.LatchOverrides(cfg).1; pct == 0 || 50 <= pct <= 100
    {
      Settings.System(cfg, other).AlwaysValuesOk(base, calls);
      var p := ctrl.ActiveProfile(cfg);
      assert p in ctrl.targetSoC ==>
          Settings.Get(Calls().live, Settings.TargetSoCKey(p)) == Some(Settings.Target(p, ctrl.targetSoC[p]));
    }

    lemma FramesAreSafe(f: Frame, store: Evcc.Store)
      requires SettingsOk() && store.Valid() && cfg.Valid()
      requires Computed(f) && f.snap == store.snap && f.ctrl == ctrl
      requires f.dec == Decide(f.now, f.inp, state, timers, cfg)
      ensures Safe(f, store.feed)
    {
      if f.dec.mode.On? { ChargingNeedsFreshData(f.now, f.snap, store.feed, cfg, ctrl, state, timers); }
      BackstopAgrees(f.now, f.inp, state, timers, cfg);
      TargetsInRange();
      LimitBounds(f.now, f.inp, cfg);
    }

    /** What a tick at `now` computes from the snapshot, the settings and the engine's position. */
    predicate FrameOf(f: Frame, now: Time, snap: Evcc.Snapshot, ctrl: ControlState, st: State, tm: Timers) {
      && f.now == now && f.snap == snap && f.ctrl == ctrl && f.prevState == st
      && f.inp == InputsFromSnapshot(now, snap, cfg, ctrl)
      && f.dec == Decide(now, f.inp, st, tm, cfg)
      && f.limitTarget == LimitSoCTarget(now, f.inp, cfg)
    }

    /** The frame follows an override, whatever is stored by now. */
    ghost predicate Follows(f: Frame, o: OverrideProtocol.Stored, feed: Evcc.Feed) {
      Obeys(f.dec, f.limitTarget, f.now, feed, cfg, f.ctrl, o.mode, o.until, o.bypass, o.bypassSoC)
    }

    /** Every frame follows the last override the operator set. */
    lemma FollowsLastSet(f: Frame, now: Time, store: Evcc.Store)
      requires OverrideOk() && ReadsPast() && phase == Resting && store.Valid() && cfg.Valid()
      requires FrameOf(f, now, store.snap, ctrl, state, timers)
      requires run.ticks != [] ==> run.ticks[|run.ticks| - 1].now <= now
      ensures Follows(f, OverrideProtocol.LastSet(ops), store.feed)
    {
      var o := OverrideProtocol.LastSet(ops);
      OperatorIsObeyed(now, store.snap, store.feed, cfg, ctrl, state, timers);
      OverrideProtocol.StoredWhileInForce(ops, now);
      if StoredOf(ctrl) != o {
        ExpiredObliges(f.dec, f.limitTarget, now, store.feed, cfg, ctrl, o.mode, o.until, o.bypass, o.bypassSoC);
      }
    }

    /** First critical section and the pure decision. */
    method BeginTick(now: Time, store: Evcc.Store) returns (f: Frame)
      requires Valid() && store.Valid() && phase == Resting && cfg.Valid()
      requires now > 0 && (run.ticks != [] ==> run.ticks[|run.ticks| - 1].now <= now)
      modifies this`ops, this`phase
      ensures Valid() && phase == Deciding(f) && FrameOf(f, now, store.snap, ctrl, state, timers)
      ensures ops == old(ops) + [OverrideProtocol.Read(now)]
      ensures Safe(f, store.feed) && Follows(f, OverrideProtocol.LastSet(old(ops)), store.feed)
    {
      hide Safe, Follows, EngineOk, ModeOk, LimitOk, MeterOk, SettingsOk, OverrideOk, ReadsPast, CommandsLogged, Decide;
      var snap := store.snap;
      var inp := InputsFromSnapshot(now, snap, cfg, ctrl);
      var dec := Decide(now, inp, state, timers, cfg);
      var target := LimitSoCTarget(now, inp, cfg);
      f := Frame(now, snap, ctrl, state, inp, dec, target, ctrl.override != Auto && !OverrideActive(now, inp));
      FramesAreSafe(f, store);
      FollowsLastSet(f, now, store);
      ReadOverride(f);
    }

    ghost method ReadOverride(f: Frame)
      requires OverrideOk() && InStep() && SamplesOk() && ReadsPast() && phase == Resting
      requires Computed(f) && f.ctrl == ctrl && f.prevState == state && f.dec == Decide(f.now, f.inp, state, timers, cfg)
      requires run.ticks != [] ==> run.ticks[|run.ticks| - 1].now <= f.now
      modifies this`ops, this`phase
      ensures OverrideOk() && InStep() && SamplesOk() && ReadsPast() && phase == Deciding(f) && ops == old(ops) + [OverrideProtocol.Read(f.now)]
    {
      var op := OverrideProtocol.Read(f.now);
      OverrideProtocol.AfterOneMore(ops, op);
      ops := ops + [op];
      phase := Deciding(f);
    }

    /** Second critical section: publish the decision to the web layer and expire the override, unless
        it was replaced since the first one. */
    method CommitTick(f: Frame)
      requires Valid() && phase == Deciding(f)
      modifies this`state, this`timers, this`ctrl, this`ops, this`phase, this`run
      ensures Valid() && phase == Publishing(f)
      ensures run.ticks == old(run.ticks) + [TickOf(f)]
      ensures ops == old(ops) + [OverrideProtocol.WriteBack]
      ensures state == f.dec.state && timers == f.dec.timers
    {
      hide EngineOk, ModeOk, LimitOk, MeterOk, CommandsLogged, ChangesLogged, InStep, SamplesOk, ReadsPast;
      hide SettingsOk, Decide;
      ExpireOverride(f);
      Advance(f);
    }

    /** The engine's part of the second critical section. */
    method Advance(f: Frame)
      requires EngineOk() && ChangesLogged() && InStep() && SamplesOk() && ReadsPast() && phase == Deciding(f)
      requires Computed(f) && f.prevState == state && f.dec == Decide(f.now, f.inp, state, timers, cfg)
      requires OverrideProtocol.After(ops) == OverrideProtocol.Shared(StoredOf(ctrl), None)
      modifies this`state, this`timers, this`phase, this`run
      ensures EngineOk() && ChangesLogged() && InStep() && SamplesOk() && ReadsPast() && OverrideOk() && phase == Publishing(f)
      ensures run.ticks == old(run.ticks) + [TickOf(f)]
      ensures state == f.dec.state && timers == f.dec.timers
    {
      hide ChangesIn, Matched, StoredSampleOf, LiveOf, Decide, InputsFromSnapshot, LimitSoCTarget, OverrideProtocol.After, Runs.StateChanges;
      ghost var t := TickOf(f);
      RunGrows(run, t);
      MatchedGrows(cfg, run.ticks, t, modes.sends, limits.sends);
      state := f.dec.state;
      timers := f.dec.timers;
      run := Run(cfg, run.ticks + [t]);
      phase := Publishing(f);
    }

    method ExpireOverride(f: Frame)
      requires OverrideOk() && SettingsOk() && ReadsPast() && phase == Deciding(f)
      modifies this`ctrl, this`ops
      ensures SettingsOk() && ReadsPast() && LiveOf(ctrl) == old(LiveOf(ctrl))
      ensures ops == old(ops) + [OverrideProtocol.WriteBack]
      ensures OverrideProtocol.After(ops) == OverrideProtocol.Shared(StoredOf(ctrl), None)
    {
      if f.expire && ctrl.override == f.ctrl.override && ctrl.overrideUntil == f.ctrl.overrideUntil
         && ctrl.capBypass == f.ctrl.capBypass {
        ctrl := ctrl.(override := Auto);
        ctrl := ctrl.(overrideUntil := 0);
        ctrl := ctrl.(capBypass := false);
        ctrl := ctrl.(capBypassSoC := 0);
      }
      OverrideProtocol.AfterOneMore(ops, OverrideProtocol.WriteBack);
      ops := ops + [OverrideProtocol.WriteBack];
    }

    /** Everything after the locks: audit, commands, session accounting. */
    method FinishTick(f: Frame, o: Outcomes)
      requires Valid() && phase == Publishing(f)
      modifies this`prevBrokerConnected, this`prevOnline, this`events, this`phase
      modifies this`lastMode, this`lastPublishAt, this`modes
      modifies this`limitSoCSet, this`lastLimitSoC, this`lastLimitPublishAt, this`limits
      modifies this`prevCharging, this`sessionID, this`sessionPeakW, this`sessionEnWh, this`sessionSumW, this`sessionTicks
      modifies this`meter, this`samples, rec
      ensures Valid() && phase == Resting
      ensures var force := Forced(f.snap, old(prevBrokerConnected), old(prevOnline));
              && modes == Link(old(modes).republish, old(modes.sends) + [Send(f.now, f.dec.mode, true, force, o.modeOk)])
              && limits == Link(old(limits).republish, old(limits.sends) + [Send(f.now, f.limitTarget, f.snap.brokerConnected, force, o.limitOk)])
      ensures meter.steps == old(meter.steps) + [Metering.Ticked(SampleOf(f.now, f.inp, f.dec.state), o.faults)]
      ensures samples == old(samples) + [StoredSampleOf(TickOf(f))]
      ensures prevBrokerConnected == f.snap.brokerConnected && prevOnline == f.snap.online.value
    {
      hide EngineOk, ModeOk, LimitOk, MeterOk, OverrideOk, SettingsOk, CommandsLogged, ChangesLogged, InStep, SamplesOk, ReadsPast;
      hide SampleDue, Forced, SampleOf, StoredSampleOf, Decide, InputsFromSnapshot, LimitSoCTarget, TickOf, StoredOf, LiveOf, Calls;
      SampleIsDue(f);
      ConcludeTick(f, o);
      TrackSession(f.now, f.inp, f.dec.state, o.faults);
      RecordSample(f);
    }

    /** The tick is in the run but not yet among the samples. */
    ghost predicate SampleDue(f: Frame) reads this`samples, this`run {
      Sampled() && |run.ticks| == |samples| + 1 && run.ticks[|samples|] == TickOf(f)
    }

    lemma SampleIsDue(f: Frame)
      requires SamplesOk() && InStep() && phase == Publishing(f)
      ensures SampleDue(f)
    {
    }

    method RecordSample(f: Frame)
      requires SampleDue(f) && phase == Resting
      modifies this`samples
      ensures SamplesOk() && samples == old(samples) + [StoredSampleOf(TickOf(f))]
    {
      samples := samples + [StoredSample(f.now, f.inp.gridW, f.inp.pvW, f.inp.homeW, f.inp.batterySoC, f.inp.batteryW,
                                         f.inp.chargeW, f.inp.vehicleSoC, f.inp.charging, f.dec.mode,
                                         SurplusW(f.inp), f.dec.state)];
    }

    method ConcludeTick(f: Frame, o: Outcomes)
      requires ModeOk() && LimitOk() && CommandsLogged() && ChangesLogged() && InStep() && OverrideOk() && ReadsPast() && phase == Publishing(f)
      modifies this`prevBrokerConnected, this`prevOnline, this`events, this`phase
      modifies this`lastMode, this`lastPublishAt, this`modes
      modifies this`limitSoCSet, this`lastLimitSoC, this`lastLimitPublishAt, this`limits
      ensures ModeOk() && LimitOk() && CommandsLogged() && ChangesLogged() && InStep() && OverrideOk() && ReadsPast() && phase == Resting
      ensures var force := Forced(f.snap, old(prevBrokerConnected), old(prevOnline));
              && modes == Link(old(modes).republish, old(modes.sends) + [Send(f.now, f.dec.mode, true, force, o.modeOk)])
              && limits == Link(old(limits).republish, old(limits.sends) + [Send(f.now, f.limitTarget, f.snap.brokerConnected, force, o.limitOk)])
      ensures prevBrokerConnected == f.snap.brokerConnected && prevOnline == f.snap.online.value
    {
      PublishTick(f, o);
      Rest(f);
    }

    /** The tick's audit entry and commands are out; only the phase is left to change. */
    ghost predicate Settled() reads this`events, this`run, this`modes, this`limits {
      && StateChanges(run, |run.ticks|) == ChangesIn(events)
      && Matched(cfg, run.ticks, modes.sends, limits.sends) && |run.ticks| == |modes.sends|
    }

    ghost method Rest(f: Frame)
      requires OverrideOk() && ReadsPast() && Settled() && phase == Publishing(f)
      modifies this`phase
      ensures OverrideOk() && ReadsPast() && ChangesLogged() && InStep() && phase == Resting
    {
      phase := Resting;
    }

    method PublishTick(f: Frame, o: Outcomes)
      requires ModeOk() && LimitOk() && CommandsLogged() && ChangesLogged() && InStep() && phase == Publishing(f)
      requires f.limitTarget == LimitSoCTarget(f.now, f.inp, cfg)
      modifies this`prevBrokerConnected, this`prevOnline, this`events
      modifies this`lastMode, this`lastPublishAt, this`modes
      modifies this`limitSoCSet, this`lastLimitSoC, this`lastLimitPublishAt, this`limits
      ensures ModeOk() && LimitOk() && CommandsLogged() && Settled()
      ensures var force := Forced(f.snap, old(prevBrokerConnected), old(prevOnline));
              && modes == Link(old(modes).republish, old(modes.sends) + [Send(f.now, f.dec.mode, true, force, o.modeOk)])
              && limits == Link(old(limits).republish, old(limits.sends) + [Send(f.now, f.limitTarget, f.snap.brokerConnected, force, o.limitOk)])
      ensures prevBrokerConnected == f.snap.brokerConnected && prevOnline == f.snap.online.value
    {
      ghost var ms, ls := modes.sends, limits.sends;
      RecordStateChange(f);
      PublishBoth(f, o);
      MatchedSends(cfg, run.ticks, ms, ls, modes.sends[|ms|], limits.sends[|ls|]);
    }

    /** The edges that force a send, then both sends. */
    method PublishBoth(f: Frame, o: Outcomes)
      requires ModeOk() && LimitOk() && CommandsLogged()
      modifies this`prevBrokerConnected, this`prevOnline, this`events
      modifies this`lastMode, this`lastPublishAt, this`modes
      modifies this`limitSoCSet, this`lastLimitSoC, this`lastLimitPublishAt, this`limits
      ensures ModeOk() && LimitOk() && CommandsLogged() && ChangesIn(events) == old(ChangesIn(events))
      ensures var force := Forced(f.snap, old(prevBrokerConnected), old(prevOnline));
              && modes == Link(old(modes).republish, old(modes.sends) + [Send(f.now, f.dec.mode, true, force, o.modeOk)])
              && limits == Link(old(limits).republish, old(limits.sends) + [Send(f.now, f.limitTarget, f.snap.brokerConnected, force, o.limitOk)])
      ensures prevBrokerConnected == f.snap.brokerConnected && prevOnline == f.snap.online.value
    {
      hide ModeOk, LimitOk;
      var reconnected := f.snap.brokerConnected && !prevBrokerConnected;
      prevBrokerConnected := f.snap.brokerConnected;
      var onlineEdge := f.snap.online.value && !prevOnline;
      prevOnline := f.snap.online.value;
      var force := reconnected || onlineEdge;
      PublishMode(f.now, f.dec.mode, force, o.modeOk);
      PublishLimitSoC(f.now, f.limitTarget, f.snap.brokerConnected, force, o.limitOk);
    }

    method RecordStateChange(f: Frame)
      modifies this`events
      ensures ModesIn(events) == old(ModesIn(events)) && LimitsIn(events) == old(LimitsIn(events))
      ensures ChangesIn(events) == old(ChangesIn(events))
                + if f.prevState != f.dec.state then [Change(f.now, f.prevState, f.dec.state)] else []
    {
      if f.dec.state != f.prevState {
        var e := StateChange(f.now, f.prevState, f.dec.state);
        Logged(events, e);
        events := events + [e];
      }
    }

    /** Sends the mode when it changes, when forced, or on the republish cadence. */
    method PublishMode(now: Time, want: Mode, force: bool, ok: bool)
      requires ModeOk() && ModesIn(events) == modes.Events(|modes.sends|, true)
      modifies this`lastMode, this`lastPublishAt, this`modes, this`events
      ensures ModeOk() && modes == Link(old(modes).republish, old(modes.sends) + [Send(now, want, true, force, ok)])
      ensures ModesIn(events) == modes.Events(|modes.sends|, true)
      ensures LimitsIn(events) == old(LimitsIn(events)) && ChangesIn(events) == old(ChangesIn(events))
    {
      LinkGrows(modes, Send(now, want, true, force, ok));
      modes := Link(modes.republish, modes.sends + [Send(now, want, true, force, ok)]);
      if Some(want) == lastMode && !force && now - lastPublishAt < cfg.republish { return; }
      var changed := Some(want) != lastMode;
      if !ok { return; }
      if changed {
        Logged(events, ModeCommand(now, want));
        events := events + [ModeCommand(now, want)];
      }
      lastMode := Some(want);
      lastPublishAt := now;
    }

    /** Keeps evcc's own limit set, while the broker is connected. */
    method PublishLimitSoC(now: Time, target: int, connected: bool, force: bool, ok: bool)
      requires LimitOk() && LimitsIn(events) == limits.Events(|limits.sends|, false)
      modifies this`limitSoCSet, this`lastLimitSoC, this`lastLimitPublishAt, this`limits, this`events
      ensures LimitOk() && limits == Link(old(limits).republish, old(limits.sends) + [Send(now, target, connected, force, ok)])
      ensures LimitsIn(events) == limits.Events(|limits.sends|, false)
      ensures ModesIn(events) == old(ModesIn(events)) && ChangesIn(events) == old(ChangesIn(events))
    {
      LinkGrows(limits, Send(now, target, connected, force, ok));
      limits := Link(limits.republish, limits.sends + [Send(now, target, connected, force, ok)]);
      if !connected { return; }
      var changed := target != lastLimitSoC;
      if limitSoCSet && !changed && !force && now - lastLimitPublishAt < cfg.republish { return; }
      if !ok { return; }
      if changed && limitSoCSet {
        Logged(events, LimitCommand(now, target));
        events := events + [LimitCommand(now, target)];
      }
      limitSoCSet := true;
      lastLimitSoC := target;
      lastLimitPublishAt := now;
    }

    /** Opens and closes sessions on the charging edge and accumulates energy on fresh data. */
    method TrackSession(now: Time, inp: Inputs, st: State, faults: Metering.Faults)
      requires MeterOk()
      modifies this`prevCharging, this`sessionID, this`sessionPeakW, this`sessionEnWh, this`sessionSumW, this`sessionTicks
      modifies this`meter, rec
      ensures MeterOk() && meter.steps == old(meter.steps) + [Metering.Ticked(SampleOf(now, inp, st), faults)]
    {
      ghost var s := SampleOf(now, inp, st);
      HistoryGrows(meter, Metering.Ticked(s, faults));
      meter := Metering.History(meter.dt, meter.steps + [Metering.Ticked(s, faults)]);
      SessionEdge(now, inp, st, faults);
      AccrueEnergy(inp, s, faults);
    }

    method SessionEdge(now: Time, inp: Inputs, st: State, faults: Metering.Faults)
      modifies this`sessionID, this`sessionPeakW, this`sessionEnWh, this`sessionSumW, this`sessionTicks, rec
      ensures Metering.Ledger(Totals(), rec.rows)
              == Metering.Edge(old(Metering.Ledger(Totals(), rec.rows)), SampleOf(now, inp, st), faults)
    {
      var soc := if inp.vehicleSoCKnown then Some(inp.vehicleSoC) else None;
      if inp.charging && !prevCharging {
        sessionPeakW, sessionEnWh, sessionSumW, sessionTicks := 0.0, 0.0, 0.0, 0;
        var id := rec.StartSession(now, StartReason(now, inp), soc, faults.startOk);
        if faults.startOk { sessionID := id; }
      } else if !inp.charging && prevCharging {
        CloseSession(now, StopReason(now, st, inp), soc, faults.endOk);
      }
    }

    method CloseSession(now: Time, reason: string, soc: Option<int>, ok: bool)
      modifies this`sessionID, rec
      ensures old(sessionID) == 0 ==> rec.rows == old(rec.rows)
      ensures old(sessionID) != 0 && !ok ==> rec.rows == old(rec.rows)
      ensures old(sessionID) != 0 && ok ==>
                rec.rows == Sessions.Ended(old(rec.rows), old(sessionID), now, reason, soc, sessionEnWh, Totals().AvgW(), sessionPeakW)
      ensures sessionID == 0
    {
      if sessionID == 0 { return; }
      var avg := 0.0;
      if sessionTicks > 0 { avg := sessionSumW / (sessionTicks as real); }
      var done := rec.EndSession(sessionID, now, reason, soc, sessionEnWh, avg, sessionPeakW, ok);
      sessionID := 0;
    }

    method AccrueEnergy(inp: Inputs, ghost s: Metering.Sample, faults: Metering.Faults)
      requires s.charging == inp.charging && s.stale == inp.stale && s.chargeW == inp.chargeW
      modifies this`prevCharging, this`sessionPeakW, this`sessionEnWh, this`sessionSumW, this`sessionTicks, rec
      ensures Metering.Ledger(Totals(), rec.rows)
              == Metering.Accrue(old(Metering.Ledger(Totals(), rec.rows)), DtHours(cfg), s, faults)
    {
      if inp.charging && !inp.stale {
        sessionEnWh := sessionEnWh + inp.chargeW * DtHours(cfg);
        sessionSumW := sessionSumW + inp.chargeW;
        sessionTicks := sessionTicks + 1;
        if inp.chargeW > sessionPeakW { sessionPeakW := inp.chargeW; }
        if sessionID != 0 {
          var avg := sessionSumW / (sessionTicks as real);
          var done := rec.UpdateSessionMetrics(sessionID, sessionEnWh, avg, sessionPeakW, faults.updateOk);
        }
      }
      prevCharging := inp.charging;
    }

    /** Both critical sections with no call in between. */
    method DecideTick(now: Time, store: Evcc.Store) returns (f: Frame)
      requires Valid() && store.Valid() && phase == Resting && cfg.Valid()
      requires now > 0 && (run.ticks != [] ==> run.ticks[|run.ticks| - 1].now <= now)
      modifies this`state, this`timers, this`ctrl, this`ops, this`phase, this`run
      ensures Valid() && phase == Publishing(f)
      ensures FrameOf(f, now, store.snap, old(ctrl), old(state), old(timers))
      ensures Safe(f, store.feed) && Follows(f, OverrideProtocol.LastSet(old(ops)), store.feed)
      ensures run.ticks == old(run.ticks) + [TickOf(f)]
      ensures ops == old(ops) + [OverrideProtocol.Read(now), OverrideProtocol.WriteBack]
      ensures state == f.dec.state && timers == f.dec.timers
    {
      hide EngineOk, ModeOk, LimitOk, MeterOk, OverrideOk, CommandsLogged, ChangesLogged, InStep, SamplesOk, ReadsPast;
      hide FrameOf, Safe, Follows;
      f := BeginTick(now, store);
      CommitTick(f);
    }

    /** A controller and a store that change as one undisturbed Tick makes them change have made one tick
        of the pipeline: the laws about pipelines are laws about these two objects. */
    lemma TickIsPipelineStep(p: FailSafeRuns.Plant, q: FailSafeRuns.Plant, f: Frame, step: FailSafeRuns.Step,
                             wasConnected: bool, wasOnline: bool)
      requires step.Cycle? && FrameOf(f, step.now, p.snap, step.ctrl, p.state, p.timers) && Evcc.Reflects(p.snap, p.feed)
      requires wasConnected == p.heard.Up() && wasOnline == FailSafeRuns.Online(p.heard)
      requires q.snap == p.snap && q.feed == p.feed && q.heard == p.feed && q.state == f.dec.state && q.timers == f.dec.timers
      requires var force := Forced(f.snap, wasConnected, wasOnline);
               && q.link == Link(p.link.republish, p.link.sends + [Send(f.now, f.dec.mode, true, force, step.ok)])
               && q.limits == Link(p.limits.republish,
                                   p.limits.sends + [Send(f.now, f.limitTarget, f.snap.brokerConnected, force, step.limitOk)])
      ensures q == FailSafeRuns.Advance(p, cfg, step)
      ensures f.snap.brokerConnected == q.heard.Up() && f.snap.online.value == FailSafeRuns.Online(q.heard)
    {
      hide Decide, InputsFromSnapshot, LimitSoCTarget;
      assert Evcc.Agrees(p.snap, p.feed, Evcc.Status);
    }

    /** One undisturbed decision cycle: one tick of the pipeline, metered and recorded. */
    method Tick(now: Time, store: Evcc.Store, o: Outcomes) returns (f: Frame)
      requires Valid() && store.Valid() && phase == Resting && cfg.Valid()
      requires now > 0 && (run.ticks != [] ==> run.ticks[|run.ticks| - 1].now <= now)
      modifies this, rec
      ensures Valid() && phase == Resting
      ensures FrameOf(f, now, store.snap, old(ctrl), old(state), old(timers))
      ensures Safe(f, store.feed) && Follows(f, OverrideProtocol.LastSet(old(ops)), store.feed)
      ensures run.ticks == old(run.ticks) + [TickOf(f)] && samples == old(samples) + [StoredSampleOf(TickOf(f))]
      ensures ops == old(ops) + [OverrideProtocol.Read(now), OverrideProtocol.WriteBack]
      ensures meter.steps == old(meter.steps) + [Metering.Ticked(SampleOf(f.now, f.inp, f.dec.state), o.faults)]
      ensures var force := Forced(f.snap, old(prevBrokerConnected), old(prevOnline));
              && modes == Link(old(modes).republish, old(modes.sends) + [Send(f.now, f.dec.mode, true, force, o.modeOk)])
              && limits == Link(old(limits).republish, old(limits.sends) + [Send(f.now, f.limitTarget, f.snap.brokerConnected, force, o.limitOk)])
      ensures prevBrokerConnected == f.snap.brokerConnected && prevOnline == f.snap.online.value
      ensures state == f.dec.state && timers == f.dec.timers && base == old(base) && calls == old(calls)
    {
      hide *;
      f := DecideTick(now, store);
      FinishTick(f, o);
    }

    // ----- what the small state says about everything that happened

    /** The commands in the audit log are the acknowledged ones with consecutive repeats removed (for
        the limit, minus the first). */
    lemma CommandLogReplays()
      requires CommandsLogged()
      ensures Values(ModesIn(events)) == Dedup(modes.Deliveries(|modes.sends|))
      ensures Values(LimitsIn(events)) == Publish.Rest(Dedup(limits.Deliveries(|limits.sends|)))
    {
      EventsReplaySends(modes, |modes.sends|);
      EventsReplaySends(limits, |limits.sends|);
    }

    /** The state changes in the audit log lead from idle to the current state without a gap. */
    lemma StateLogReplays()
      requires EngineOk() && ChangesLogged() && phase == Resting
      ensures var e := ChangesIn(events);
              if e == [] then state == Idle
              else e[0].from == Idle && e[|e| - 1].to == state && Linked(e)
    {
      StateChangesReplay(run, |run.ticks|);
      assert ChangesIn(events) == StateChanges(run, |run.ticks|);
    }

    /** Every entry of the audit log is stamped with the time of the tick it tells of: a command with that
        of the tick that had it acknowledged, a change with that of the tick that changed the state. */
    lemma EventsTellTicks(e: Event)
      requires Valid() && phase == Resting && e in events
      ensures match e
              case ModeCommand(at, m) =>
                exists k :: 0 <= k < |modes.sends| && modes.Delivered(k) && modes.sends[k].now == at && modes.sends[k].want == m
              case LimitCommand(at, pct) =>
                exists k :: 0 <= k < |limits.sends| && limits.Delivered(k) && limits.sends[k].now == at && limits.sends[k].want == pct
              case StateChange(at, from, to) =>
                exists k :: 0 <= k < |run.ticks| && run.ticks[k].now == at && run.At(k).state == from && run.Dec(k).state == to
    {
      InItsLog(events, e);
      match e
      case ModeCommand(at, m) => EventsTellDeliveries(modes, |modes.sends|, true, Said(at, m));
      case LimitCommand(at, pct) => EventsTellDeliveries(limits, |limits.sends|, false, Said(at, pct));
      case StateChange(at, from, to) => StateChangesTellTicks(run, |run.ticks|, Change(at, from, to));
    }

    /** After tick `i` evcc was last told that tick's decision, or an attempt failed in that very tick. */
    lemma DecisionDeliveredOrFailing(i: nat)
      requires Valid() && i < |modes.sends|
      ensures i < |run.ticks|
      ensures LastOf(modes.Deliveries(i + 1)) == Some(run.ticks[i].dec.mode) || (modes.Tried(i) && !modes.sends[i].ok)
    {
      DeliveredOrFailedNow(modes, i);
    }

    /** The same for the limit while the broker is connected: the limit that tick's inputs ask for. */
    lemma LimitDeliveredOrFailing(i: nat)
      requires Valid() && i < |limits.sends| && limits.sends[i].up
      ensures i < |run.ticks|
      ensures LastOf(limits.Deliveries(i + 1)) == Some(LimitSoCTarget(run.ticks[i].now, run.ticks[i].inp, cfg))
              || (limits.Tried(i) && !limits.sends[i].ok)
    {
      DeliveredOrFailedNow(limits, i);
    }

    /** Whatever evcc forgets at any time `t`, it is told the mode decided in some tick after `t` and no
        later than a republish interval and a gap after it. */
    lemma ModeReasserted(t: Time, gap: Time, n: nat) returns (k: nat)
      requires Valid() && cfg.Valid() && n < |modes.sends| && Attentive(modes, t, gap)
      requires modes.sends[0].now <= t && t + cfg.republish <= modes.sends[n].now
      ensures k < |modes.sends| <= |run.ticks| && t < run.ticks[k].now <= t + cfg.republish + gap
      ensures modes.Delivered(k) && modes.sends[k].want == run.ticks[k].dec.mode
    {
      assert forall i :: 0 <= i < |modes.sends| ==> modes.sends[i].now == run.ticks[i].now;
      k := ReassertedInTime(modes, t, gap, n);
    }

    /** The same for the limit. */
    lemma LimitReasserted(t: Time, gap: Time, n: nat) returns (k: nat)
      requires Valid() && cfg.Valid() && n < |limits.sends| && Attentive(limits, t, gap)
      requires limits.sends[0].now <= t && t + cfg.republish <= limits.sends[n].now
      ensures k < |limits.sends| <= |run.ticks| && t < run.ticks[k].now <= t + cfg.republish + gap
      ensures limits.Delivered(k) && limits.sends[k].want == LimitSoCTarget(run.ticks[k].now, run.ticks[k].inp, cfg)
    {
      assert forall i :: 0 <= i < |limits.sends| ==> limits.sends[i].now == run.ticks[i].now;
      k := ReassertedInTime(limits, t, gap, n);
    }

    /** A restart now would find exactly the live settings, if calls for one key did not overlap, none is
        between its write and its memory update, and everything was read at startup or set since. */
    lemma RestartFindsSettings()
      requires Valid() && Settings.System(cfg, other).AllSerialised(base, calls)
      requires (forall k: Settings.Key :: !Settings.System(cfg, other).Busy(Calls(), k)) && Calls().unread == {}
      ensures LiveOf(ctrl) == Settings.Loaded(cfg, settings.rows, other)
    {
      Settings.System(cfg, other).RestartFindsLiveSettings(base, calls);
    }

    /** The override in force is the last one the operator set, unless that very one ran out. */
    lemma OverrideIsLastSet()
      requires Valid()
      ensures StoredOf(ctrl) == OverrideProtocol.LastSet(ops)
              || (StoredOf(ctrl) == OverrideProtocol.AUTO && OverrideProtocol.RanOut(ops))
      ensures ctrl.capBypass ==> ctrl.override == ForceOn
    {
      OverrideProtocol.NoLostOverride(ops);
      OverrideProtocol.BypassBelongsToForceOn(ops);
    }

    /** The session id in memory, if any, is that of an open row showing the totals in memory, as long
        as no database call of this or an earlier process failed; and the table holds, in watt-hours, the
        powers of all fresh charging ticks, each for one decision interval. */
    lemma OpenRowMirrorsTotals()
      requires Valid() && forall k :: 0 <= k < |meter.steps| ==> Metering.FaultFree(meter.steps[k])
      ensures Metering.Mirrored(Metering.Ledger(Totals(), rec.rows)) && (sessionID != 0 <==> prevCharging)
      ensures Metering.TotalEnergy(rec.rows) * NANOS_PER_HOUR
              == Metering.PowerSum(meter, |meter.steps|) * (cfg.decisionInterval as real)
    {
      hide DtHours, EngineOk, ModeOk, LimitOk, OverrideOk, SettingsOk, CommandsLogged, ChangesLogged, InStep, SamplesOk, ReadsPast;
      hide Metering.PowerSum, Metering.Mirrored, Metering.TotalEnergy;
      Metering.EnergyIsPowerTimesInterval(meter);
      HoursFromNanos(cfg, Metering.TotalEnergy(rec.rows), Metering.PowerSum(meter, |meter.steps|));
    }

    /** Any row's energy, in watt-hours, is that of the first so many of its session's own ticks, each for
        one decision interval; its average and peak are those of these ticks. If the running totals were
        always written, these are all its ticks. */
    lemma RowsInWattHours(id: int)
      requires Valid() && Sessions.HasRow(rec.rows, id)
      ensures CoversInWattHours(rec.rows[id - 1], Metering.OwnPowers(meter, |meter.steps|, id), cfg.decisionInterval,
                                Metering.AllUpdatesWork(meter, |meter.steps|))
    {
      hide Metering.ShowsFirst, InWattHours, DtHours, EngineOk, ModeOk, LimitOk, OverrideOk, SettingsOk, CommandsLogged, ChangesLogged, InStep, SamplesOk, ReadsPast, Metering.AllUpdatesWork, Metering.OwnPowers;
      Metering.RowsArePlausible(meter, |meter.steps|, id);
      var r, own := rec.rows[id - 1], Metering.OwnPowers(meter, |meter.steps|, id);
      var n: nat :| Metering.ShowsFirst(r, own, n, DtHours(cfg)) && (Metering.AllUpdatesWork(meter, |meter.steps|) ==> n == |own|);
      ShownInWattHours(cfg, r, own, n);
    }

    /** A row is stamped with the time, the reason and the SoC of the tick that saw charging begin, and of
        the one that saw it end. */
    lemma RowTellsItsEdges(id: int)
      requires Valid() && id >= 1
      ensures Metering.Tells(rec.rows, id, Metering.OpenedBy(meter, |meter.steps|, id), Metering.EndedBy(meter, |meter.steps|, id))
    {
      Metering.RowsTellTheirEdges(meter, |meter.steps|, id);
    }

    /** The reasons in a sample: an override in force is the reason to start; a reached target and
        fail-safe are reasons to stop, then an override in force, then low surplus. */
    lemma ReasonsTell(now: Time, inp: Inputs, st: State)
      ensures var inForce := inp.override != Auto && (inp.overrideUntil == 0 || now < inp.overrideUntil);
              var m := SampleOf(now, inp, st);
              && m.startReason == (if inForce then "override" else "surplus")
              && m.stopReason == (if st == SocReached then "soc_cap" else if st == FailSafe then "stale"
                                  else if inForce then "override" else "surplus_low")
              && m.now == now && m.charging == inp.charging && m.stale == inp.stale && m.chargeW == inp.chargeW
              && m.soc == (if inp.vehicleSoCKnown then Some(inp.vehicleSoC) else None)
    {
    }

    /** A sample shows what its tick saw and decided. */
    lemma SamplesTell(i: nat)
      requires Valid() && i < |samples|
      ensures i < |run.ticks|
      ensures var m, t := samples[i], run.ticks[i];
              && m.at == t.now && m.gridW == t.inp.gridW && m.pvW == t.inp.pvW && m.homeW == t.inp.homeW
              && m.batterySoC == t.inp.batterySoC && m.batteryW == t.inp.batteryW && m.chargeW == t.inp.chargeW
              && m.vehicleSoC == t.inp.vehicleSoC && m.charging == t.inp.charging
              && m.surplusW == t.inp.chargeW - t.inp.gridW - (if t.inp.batteryW > 0.0 then t.inp.batteryW else 0.0)
              && m.mode == t.dec.mode && m.state == t.dec.state
    {
    }
  }
}

/** Laws about whole runs of the decision engine: any number of ticks, any inputs, from startup. */
module Runs {
  import opened Config
  import opened Policy

  /** One tick: when it ran, what it saw, what was decided. */
  datatype Tick = Tick(now: Time, inp: Inputs, dec: Decision)

  datatype Position = Position(state: State, timers: Timers)

  const START := Position(Idle, NO_TIMERS)

  datatype Run = Run(cfg: Control, ticks: seq<Tick>)
  {
    /** The position the engine holds before tick `i`. */
    function At(i: nat): Position
      requires i <= |ticks|
    {
      if i == 0 then START else Position(Dec(i - 1).state, Dec(i - 1).timers)
    }

    function Dec(i: nat): Decision requires i < |ticks| {
      ticks[i].dec
    }

    predicate Decided(i: nat) requires i < |ticks| {
      Dec(i) == Decide(ticks[i].now, ticks[i].inp, At(i).state, At(i).timers, cfg)
    }

    /** A run from startup: every decision is the engine's, and the clock is set and never runs back. */
    ghost predicate Valid() {
      && (forall i :: 0 <= i < |ticks| ==> Decided(i))
      && (forall i :: 0 <= i < |ticks| ==> ticks[i].now > 0)
      && (forall i, j :: 0 <= i <= j < |ticks| ==> ticks[i].now <= ticks[j].now)
    }

    predicate Auto(i: nat) requires i < |ticks| {
      Automatic(ticks[i].now, ticks[i].inp)
    }

    /** Tick `i` is decided by the profile's own rule: not diverted, below target and not latched. */
    predicate ProfileRules(i: nat) requires i < |ticks| {
      ByProfile(ticks[i].now, ticks[i].inp, At(i).state, cfg)
    }

    /** Nothing but the dwell stands between tick `i` and charging. */
    predicate WantsStart(i: nat) requires i < |ticks| {
      ProfileRules(i) && StartTrigger(ticks[i].inp, cfg)
    }

    predicate WantsStop(i: nat) requires i < |ticks| {
      ProfileRules(i) && LowSurplus(ticks[i].inp, cfg)
    }

    /** An off-to-on step that no operator asked for. */
    predicate AutoStart(i: nat) requires i < |ticks| {
      !IsCharging(At(i).state) && Dec(i).mode.On? && Dec(i).reason != OverrideOn
    }

    /** An on-to-off step taken by the profile itself. */
    predicate AutoStop(i: nat) requires i < |ticks| {
      IsCharging(At(i).state) && !Dec(i).mode.On? && ProfileRules(i)
    }

    /** The first tick of the uninterrupted stretch of one state that tick `i` belongs to. */
    function RunStart(i: nat): (j: nat)
      requires i < |ticks|
      ensures j <= i
      ensures forall k :: j <= k <= i ==> Dec(k).state == Dec(i).state
      ensures j == 0 || Dec(j - 1).state != Dec(i).state
    {
      if i == 0 || Dec(i - 1).state != Dec(i).state then i else RunStart(i - 1)
    }

    function Starts(i: nat): nat requires i <= |ticks| {
      if i == 0 then 0 else Starts(i - 1) + if AutoStart(i - 1) then 1 else 0
    }

    function Stops(i: nat): nat requires i <= |ticks| {
      if i == 0 then 0 else Stops(i - 1) + if AutoStop(i - 1) then 1 else 0
    }
  }

  /** One step of a run in terms of the tick and the position before it. */
  lemma {:induction false} Step(r: Run, i: nat)
    requires r.Valid() && i < |r.ticks|
    ensures Transition(r.ticks[i].now, r.ticks[i].inp, r.At(i).state, r.At(i).timers, r.cfg, r.Dec(i))
    ensures Coherent(r.At(i).state, r.At(i).timers)
    ensures 0 <= r.At(i).timers.crossedUpAt <= r.ticks[i].now
    ensures 0 <= r.At(i).timers.crossedDownAt <= r.ticks[i].now
    ensures 0 <= r.Dec(i).timers.crossedUpAt <= r.ticks[i].now
    ensures 0 <= r.Dec(i).timers.crossedDownAt <= r.ticks[i].now
  {
    if i > 0 { Step(r, i - 1); }
    assert r.Decided(i);
    DecideStep(r.ticks[i].now, r.ticks[i].inp, r.At(i).state, r.At(i).timers, r.cfg);
  }

  // ----- the two timers are a faithful summary of the history

  /** A timer is set exactly while its pending state lasts. It holds the time of the first tick of
      that stretch, and every tick of the stretch met its own trigger and threshold. */
  lemma {:induction false} TimersRefineHistory(r: Run, i: nat)
    requires r.Valid() && i < |r.ticks|
    ensures r.Dec(i).timers.crossedUpAt != 0 <==> r.Dec(i).state == SurplusPending
    ensures r.Dec(i).timers.crossedDownAt != 0 <==> r.Dec(i).state == StopPending
    ensures r.Dec(i).state == SurplusPending ==>
              var j := r.RunStart(i);
              && r.Dec(i).timers.crossedUpAt == r.ticks[j].now
              && forall k :: j <= k <= i ==> r.WantsStart(k)
    ensures r.Dec(i).state == StopPending ==>
              var j := r.RunStart(i);
              && r.Dec(i).timers.crossedDownAt == r.ticks[j].now
              && forall k :: j <= k <= i ==> r.WantsStop(k)
  {
    hide StartTrigger, LowSurplus, Automatic;
    Step(r, i);
    if i > 0 { TimersRefineHistory(r, i - 1); }
  }

  /** Every automatic start has a full start dwell of sustained trigger behind it. */
  lemma StartAfterDwell(r: Run, i: nat) returns (j: nat)
    requires r.Valid() && i < |r.ticks| && r.AutoStart(i)
    ensures j < i && r.ticks[i].now - r.ticks[j].now >= r.cfg.startDwell
    ensures forall k :: j <= k <= i ==> r.WantsStart(k)
    ensures forall k :: j <= k < i ==> r.Dec(k).state == SurplusPending
    ensures j == 0 || r.Dec(j - 1).state != SurplusPending
  {
    Step(r, i);
    TimersRefineHistory(r, i - 1);
    j := r.RunStart(i - 1);
  }

  /** Every stop taken by the profile has a full stop dwell of low surplus behind it, and those are
      exactly the stops reported as such. */
  lemma StopAfterDwell(r: Run, i: nat) returns (j: nat)
    requires r.Valid() && i < |r.ticks| && (r.AutoStop(i) || r.Dec(i).reason == StopLow)
    ensures r.AutoStop(i) && r.Dec(i).reason == StopLow
    ensures j < i && r.ticks[i].now - r.ticks[j].now >= r.cfg.stopDwell
    ensures forall k :: j <= k <= i ==> r.WantsStop(k)
    ensures forall k :: j <= k < i ==> r.Dec(k).state == StopPending
    ensures j == 0 || r.Dec(j - 1).state != StopPending
  {
    hide StartTrigger, LowSurplus, Automatic;
    Step(r, i);
    TimersRefineHistory(r, i - 1);
    j := r.RunStart(i - 1);
  }

  // ----- contactor wear

  /** Dwell time accounted for by the first `i` ticks: completed dwells plus the one in progress. */
  function DwellSpent(r: Run, i: nat): int
    requires i < |r.ticks|
  {
    r.Starts(i + 1) * r.cfg.startDwell + r.Stops(i + 1) * r.cfg.stopDwell
    + (if r.Dec(i).state == SurplusPending then r.ticks[i].now - r.Dec(i).timers.crossedUpAt else 0)
    + (if r.Dec(i).state == StopPending then r.ticks[i].now - r.Dec(i).timers.crossedDownAt else 0)
  }

  lemma OneMore(n: int, d: int)
    ensures (n + 1) * d == n * d + d
  {
  }

  lemma {:induction false} DwellsAreDisjoint(r: Run, i: nat)
    requires r.cfg.Valid() && r.Valid() && i < |r.ticks|
    ensures DwellSpent(r, i) <= r.ticks[i].now - r.ticks[0].now
  {
    Step(r, i);
    if i == 0 {
      assert r.Starts(1) == r.Stops(1) == 0;
    } else {
      DwellsAreDisjoint(r, i - 1);
      Step(r, i - 1);
      OneMore(r.Starts(i), r.cfg.startDwell);
      OneMore(r.Stops(i), r.cfg.stopDwell);
      assert r.Starts(i + 1) == if r.AutoStart(i) then r.Starts(i) + 1 else r.Starts(i);
      assert r.Stops(i + 1) == if r.AutoStop(i) then r.Stops(i) + 1 else r.Stops(i);
    }
  }

  /** Contactor wear is bounded under arbitrary faults, overrides and profile switches: the automatic
      starts and stops of any run need that many whole dwells of real time. */
  lemma WearBound(r: Run)
    requires r.cfg.Valid() && r.Valid() && |r.ticks| > 0
    ensures r.Starts(|r.ticks|) * r.cfg.startDwell + r.Stops(|r.ticks|) * r.cfg.stopDwell
            <= r.ticks[|r.ticks| - 1].now - r.ticks[0].now
  {
    var n := |r.ticks| - 1;
    DwellsAreDisjoint(r, n);
    TimersRefineHistory(r, n);
    if r.Dec(n).state == SurplusPending || r.Dec(n).state == StopPending {
      var j := r.RunStart(n);
      assert r.ticks[j].now <= r.ticks[n].now;
    }
  }

  /** While the profile alone decides, starts and stops alternate. */
  lemma {:induction false} StartsAndStopsAlternate(r: Run, i: nat)
    requires r.Valid() && i <= |r.ticks| && forall k :: 0 <= k < i ==> r.ProfileRules(k)
    ensures r.Starts(i) == r.Stops(i) + if IsCharging(r.At(i).state) then 1 else 0
  {
    if i > 0 {
      StartsAndStopsAlternate(r, i - 1);
      Step(r, i - 1);
      assert r.ProfileRules(i - 1);
    }
  }

  /** With the profile alone deciding, n starts need n start dwells and n-1 stop dwells. */
  lemma WearBoundUndisturbed(r: Run)
    requires r.cfg.Valid() && r.Valid() && r.Starts(|r.ticks|) > 0
    requires forall k :: 0 <= k < |r.ticks| ==> r.ProfileRules(k)
    ensures var n := r.Starts(|r.ticks|);
            n * r.cfg.startDwell + (n - 1) * r.cfg.stopDwell <= r.ticks[|r.ticks| - 1].now - r.ticks[0].now
  {
    WearBound(r);
    StartsAndStopsAlternate(r, |r.ticks|);
    var n, m := r.Starts(|r.ticks|), r.Stops(|r.ticks|);
    assert n - 1 <= m;
    assert (n - 1) * r.cfg.stopDwell <= m * r.cfg.stopDwell;
  }

  // ----- the SoC latch

  /** The SoC of tick `m` lets a latched controller go, or the tick was decided by rules 1 to 4. */
  ghost predicate Releases(r: Run, m: nat)
    requires m < |r.ticks|
  {
    !r.Auto(m) || r.ticks[m].inp.vehicleSoC < ResumeBelow(r.ticks[m].inp, r.cfg)
  }

  lemma {:induction false} LatchPersists(r: Run, i: nat, k: nat)
    requires r.Valid() && i <= k < |r.ticks| && r.Dec(i).state == SocReached
    requires forall m :: i < m <= k ==> !Releases(r, m)
    ensures r.Dec(k).state == SocReached
  {
    if i < k {
      LatchPersists(r, i, k - 1);
      Step(r, k);
      assert !Releases(r, k);
    }
  }

  /** No tick after `i` and up to `k` was switched on by the operator. */
  ghost predicate NotForced(r: Run, i: nat, k: nat)
    requires k < |r.ticks|
  {
    forall m :: i < m <= k ==> r.Dec(m).reason != OverrideOn
  }

  lemma {:induction false} LastStart(r: Run, i: nat, k: nat) returns (s: nat)
    requires r.Valid() && i < k < |r.ticks| && !r.Dec(i).mode.On? && r.Dec(k).mode.On? && NotForced(r, i, k)
    ensures i < s <= k && r.AutoStart(s)
  {
    Step(r, k - 1);
    Step(r, k);
    assert r.Dec(k).reason != OverrideOn;
    if r.Dec(k - 1).mode.On? {
      s := LastStart(r, i, k - 1);
    } else {
      s := k;
    }
  }

  /** Between an off tick and a later charging one lies an automatic start with its whole dwell, whatever
      else happened in between, unless the operator switched charging on. */
  lemma StartBetween(r: Run, i: nat, k: nat) returns (j: nat, s: nat)
    requires r.Valid() && i < k < |r.ticks| && !r.Dec(i).mode.On? && r.Dec(k).mode.On? && NotForced(r, i, k)
    ensures j < s && i < s <= k && r.AutoStart(s) && r.ticks[s].now - r.ticks[j].now >= r.cfg.startDwell
    ensures forall q :: j <= q <= s ==> r.WantsStart(q)
    ensures r.Dec(i).state != SurplusPending ==> i < j
  {
    s := LastStart(r, i, k);
    j := StartAfterDwell(r, s);
    if j <= i { assert r.Dec(i).state == SurplusPending; }
  }

  /** Between reaching the target and any later automatic charging some tick released the latch. Unless
      the operator switched charging on in between, a fresh start dwell lies in between as well, also
      when the vehicle was unplugged or data went stale on the way. */
  lemma LatchReleasedBeforeCharging(r: Run, i: nat, k: nat) returns (m: nat, j: nat, s: nat)
    requires r.Valid() && i < k < |r.ticks| && r.Dec(i).state == SocReached
    requires r.Dec(k).mode.On? && r.Dec(k).reason != OverrideOn
    ensures i < m < k && Releases(r, m)
    ensures NotForced(r, i, k) ==>
              && i < j < s <= k && r.AutoStart(s) && r.ticks[s].now - r.ticks[j].now >= r.cfg.startDwell
              && forall q :: j <= q <= s ==> r.WantsStart(q)
  {
    Step(r, k);
    if forall m :: i < m < k ==> !Releases(r, m) {
      LatchPersists(r, i, k - 1);
      assert false;
    }
    m :| i < m < k && Releases(r, m);
    j, s := 0, 0;
    if NotForced(r, i, k) {
      Step(r, i);
      j, s := StartBetween(r, i, k);
    }
  }

  // ----- progress, with exact bounds

  /** Sustained favourable conditions from tick `a` on, whatever the position before it. */
  ghost predicate Favourable(r: Run, a: nat, i: nat)
    requires a <= i < |r.ticks|
  {
    forall k :: a <= k <= i ==>
      && r.Auto(k) && StartTrigger(r.ticks[k].inp, r.cfg)
      && r.ticks[k].inp.vehicleSoC < TargetSoC(r.ticks[k].inp, r.cfg)
      && r.ticks[k].inp.vehicleSoC < ResumeBelow(r.ticks[k].inp, r.cfg)
  }

  lemma {:induction false} StartingUp(r: Run, a: nat, i: nat)
    requires r.cfg.Valid() && r.Valid() && a <= i < |r.ticks| && Favourable(r, a, i)
    ensures r.Dec(i).state == Charging || r.Dec(i).state == SurplusPending
    ensures r.Dec(i).state == SurplusPending ==> 0 < r.Dec(i).timers.crossedUpAt <= r.ticks[a].now
    ensures r.At(a).timers.crossedUpAt == 0 && !IsCharging(r.At(a).state) && r.Dec(i).state == SurplusPending ==>
              r.Dec(i).timers.crossedUpAt == r.ticks[a].now
    ensures r.At(a).timers.crossedUpAt == 0 && !IsCharging(r.At(a).state) && r.Dec(i).state == Charging ==>
              a < i && r.ticks[i].now >= r.ticks[a].now + r.cfg.startDwell
  {
    Step(r, i);
    if a < i {
      StartingUp(r, a, i - 1);
    }
    assert r.Auto(i);
  }

  /** Progress: from any reachable position, sustained favourable conditions end in charging at every
      tick after the first that is a start dwell or more past the first. From a position with no dwell
      running and no charging the bound is exact. */
  lemma StartsExactlyAfterDwell(r: Run, a: nat, i: nat)
    requires r.cfg.Valid() && r.Valid() && a <= i < |r.ticks| && Favourable(r, a, i)
    ensures a < i && r.ticks[i].now >= r.ticks[a].now + r.cfg.startDwell ==>
              r.Dec(i).state == Charging && r.Dec(i).mode.On?
    ensures !IsCharging(r.At(a).state) && r.At(a).state != SurplusPending ==>
              (r.Dec(i).mode.On? <==> a < i && r.ticks[i].now >= r.ticks[a].now + r.cfg.startDwell)
  {
    StartingUp(r, a, i);
    Step(r, a);
    Step(r, i);
    if a < i { StartingUp(r, a, i - 1); }
  }

  /** Sustained low surplus under the surplus profile from tick `a` on. */
  ghost predicate Starved(r: Run, a: nat, i: nat)
    requires a <= i < |r.ticks|
  {
    forall k :: a <= k <= i ==> r.Auto(k) && LowSurplus(r.ticks[k].inp, r.cfg)
  }

  lemma {:induction false} WindingDown(r: Run, a: nat, i: nat)
    requires r.cfg.Valid() && r.Valid() && a <= i < |r.ticks| && Starved(r, a, i)
    ensures r.Dec(i).state == StopPending || !r.Dec(i).mode.On?
    ensures r.Dec(i).state == StopPending ==> 0 < r.Dec(i).timers.crossedDownAt <= r.ticks[a].now
    ensures r.At(a).state == Charging && (forall k :: a <= k <= i ==> r.ProfileRules(k)) ==>
              if i == a || r.ticks[i].now < r.ticks[a].now + r.cfg.stopDwell
              then r.Dec(i).state == StopPending && r.Dec(i).timers.crossedDownAt == r.ticks[a].now
              else !r.Dec(i).mode.On?
  {
    Step(r, i);
    if a < i {
      WindingDown(r, a, i - 1);
      Step(r, i - 1);
    }
    assert (forall k :: a <= k <= i ==> r.ProfileRules(k)) ==> r.ProfileRules(i);
    assert r.Auto(i) && LowSurplus(r.ticks[i].inp, r.cfg);
  }

  /** Dually, sustained low surplus under the surplus profile ends in off; starting from undisturbed
      charging below the target the bound is exact. */
  lemma StopsExactlyAfterDwell(r: Run, a: nat, i: nat)
    requires r.cfg.Valid() && r.Valid() && a <= i < |r.ticks| && Starved(r, a, i)
    ensures a < i && r.ticks[i].now >= r.ticks[a].now + r.cfg.stopDwell ==> !r.Dec(i).mode.On?
    ensures r.At(a).state == Charging && (forall k :: a <= k <= i ==> r.ProfileRules(k)) ==>
              (r.Dec(i).mode.On? <==> i == a || r.ticks[i].now < r.ticks[a].now + r.cfg.stopDwell)
  {
    WindingDown(r, a, i);
    Step(r, i);
    assert r.Auto(i);
    if a < i {
      WindingDown(r, a, i - 1);
      Step(r, i - 1);
    }
  }

  // ----- charge to completion

  ghost predicate OnLatchProfile(r: Run, k: nat)
    requires k < |r.ticks|
  {
    EffectiveProfile(r.ticks[k].inp, r.cfg) != SurplusProfile
  }

  /** Under a latch profile charging runs at full power whatever the power metrics do, and ends exactly
      at the first tick that is diverted by rules 1 to 4 or at or above its target. */
  lemma {:induction false} ChargesToCompletion(r: Run, i: nat, k: nat)
    requires r.Valid() && i < k < |r.ticks| && IsCharging(r.Dec(i).state)
    requires forall m :: i < m <= k ==> OnLatchProfile(r, m)
    requires forall m :: i < m < k ==> r.Auto(m) && r.ticks[m].inp.vehicleSoC < TargetSoC(r.ticks[m].inp, r.cfg)
    ensures r.Dec(k).state != StopPending
    ensures r.Dec(k).reason == LatchCharging <==>
              r.Auto(k) && r.ticks[k].inp.vehicleSoC < TargetSoC(r.ticks[k].inp, r.cfg)
    ensures r.Dec(k).reason == LatchCharging ==> r.Dec(k).state == Charging && r.Dec(k).mode == On(Now)
  {
    Step(r, k);
    assert OnLatchProfile(r, k);
    if i + 1 < k {
      ChargesToCompletion(r, i, k - 1);
      assert r.Auto(k - 1);
    }
  }

  // ----- the state-change audit trail

  datatype Change = Change(at: Time, from: State, to: State)

  /** The state_change events of the first `i` ticks, each with its tick's time. */
  function StateChanges(r: Run, i: nat): seq<Change>
    requires i <= |r.ticks|
  {
    if i == 0 then []
    else if r.At(i).state != r.At(i - 1).state then
      StateChanges(r, i - 1) + [Change(r.ticks[i - 1].now, r.At(i - 1).state, r.At(i).state)]
    else StateChanges(r, i - 1)
  }

  /** Replaying the events leads from idle to the current state without a gap. */
  lemma {:induction false} StateChangesReplay(r: Run, i: nat)
    requires i <= |r.ticks|
    ensures var e := StateChanges(r, i);
            && (if e == [] then r.At(i).state == Idle else e[0].from == Idle && e[|e| - 1].to == r.At(i).state)
            && (forall k :: 0 <= k < |e| ==> e[k].from != e[k].to)
            && (forall k :: 0 < k < |e| ==> e[k - 1].to == e[k].from)
  {
    if i > 0 { StateChangesReplay(r, i - 1); }
  }

  /** Every event tells a tick that changed the state so, by its very time. */
  lemma {:induction false} StateChangesTellTicks(r: Run, i: nat, e: Change)
    requires i <= |r.ticks| && e in StateChanges(r, i)
    ensures exists k :: 0 <= k < i && r.ticks[k].now == e.at && r.At(k).state == e.from && r.Dec(k).state == e.to
  {
    if i > 1 && e in StateChanges(r, i - 1) {
      StateChangesTellTicks(r, i - 1, e);
    } else {
      assert r.Dec(i - 1).state == e.to;
    }
  }
}

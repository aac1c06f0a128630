/** The store and the controller at work together. Messages, connection changes, ticks and operator calls
    come in any order; the ghost history ties the two objects to the pipeline they form, so that its laws
    are laws about them. */
module Station {
  import opened Config
  import opened Policy
  import opened Publish
  import opened InputsMapping
  import opened FailSafeRuns
  import opened ControlLoop
  import Evcc

  class Station {
    const store: Evcc.Store
    const loop: Controller
    ghost var history: History

    ghost predicate Valid() reads this, store, loop, loop.rec, loop.settings {
      loop.Valid() && store.Valid() && loop.phase == Resting && loop.cfg.Valid() && InHistory()
    }

    ghost predicate InHistory() reads this, store, loop {
      && history.cfg == loop.cfg && history.topics == store.topics && history.parse == store.parse
      && history.At(|history.steps|) == Live(history.At(|history.steps|).heard)
      && loop.prevBrokerConnected == history.At(|history.steps|).heard.Up()
      && loop.prevOnline == Online(history.At(|history.steps|).heard)
    }

    /** The pipeline these two objects form, if the last tick found `heard`. */
    ghost function Live(heard: Evcc.Feed): Plant reads store, loop {
      Plant(store.snap, store.feed, heard, loop.state, loop.timers, loop.modes, loop.limits)
    }

    /** A store that has seen nothing and a controller that has started and not yet ticked. */
    constructor (store: Evcc.Store, loop: Controller)
      requires store.Valid() && store.feed == Evcc.Feed(store.topics, store.parse, []) && store.snap == Evcc.NOTHING_SEEN
      requires loop.Valid() && loop.phase == Resting && loop.cfg.Valid() && loop.run.ticks == []
      requires !loop.prevBrokerConnected && !loop.prevOnline
      ensures Valid() && this.store == store && this.loop == loop && history.steps == []
    {
      this.store, this.loop := store, loop;
      history := History(loop.cfg, store.topics, store.parse, []);
    }

    ghost method Log(step: Step)
      requires history.cfg == loop.cfg && history.topics == store.topics && history.parse == store.parse
      requires var q := Advance(history.At(|history.steps|), loop.cfg, step);
               q == Live(q.heard) && loop.prevBrokerConnected == q.heard.Up() && loop.prevOnline == Online(q.heard)
      modifies this`history
      ensures InHistory() && history.steps == old(history.steps) + [step]
    {
      FailSafeRuns.HistoryGrows(history, step);
      history := history.(steps := history.steps + [step]);
    }

    method Receive(topic: string, payload: string, at: Time) returns (ok: bool)
      requires Valid()
      modifies this`history, store
      ensures Valid() && history.steps == old(history.steps) + [Wire(Evcc.Message(topic, payload, at))]
    {
      ok := store.Apply(topic, payload, at);
      Log(Wire(Evcc.Message(topic, payload, at)));
    }

    method SetBrokerConnected(up: bool)
      requires Valid()
      modifies this`history, store
      ensures Valid() && history.steps == old(history.steps) + [Wire(Evcc.Connection(up))]
    {
      store.SetBrokerConnected(up);
      Log(Wire(Evcc.Connection(up)));
    }

    /** One tick, on the settings of the moment. */
    method RunTick(now: Time, o: Outcomes)
      requires Valid() && now > 0 && (loop.run.ticks != [] ==> loop.run.ticks[|loop.run.ticks| - 1].now <= now)
      modifies this`history, loop, loop.rec
      ensures Valid() && history.steps == old(history.steps) + [Cycle(now, old(loop.ctrl), o.modeOk, o.limitOk)]
    {
      hide Decide, Evcc.Reflects, Controller.Valid, Advance, History.At, LimitSoCTarget, InputsFromSnapshot, Online, Forced;
      ghost var p, step := history.At(|history.steps|), Cycle(now, loop.ctrl, o.modeOk, o.limitOk);
      ghost var wasConnected, wasOnline := loop.prevBrokerConnected, loop.prevOnline;
      var f := loop.Tick(now, store, o);
      loop.TickIsPipelineStep(p, Live(store.feed), f, step, wasConnected, wasOnline);
      Log(step);
    }

    /** An operator call; like all of them it touches nothing the history is about. */
    method SetOverride(mode: Override, until: Time, capBypass: bool, capBypassSoC: int)
      requires Valid()
      modifies loop`ctrl, loop`ops
      ensures Valid() && loop.ctrl.override == mode
    {
      loop.SetOverride(mode, until, capBypass, capBypassSoC);
    }

    // ----- the laws of the pipeline, on these two objects

    /** The mode the controller remembers is the mode evcc was last told. */
    lemma RemembersLastTold()
      requires Valid()
      ensures loop.lastMode == history.LastTold(|history.steps|)
    {
      MemoryIsLastDelivery(loop.modes, |loop.modes.sends|);
    }

    /** Right after a tick the controller is charging only on fresh data, override included. */
    lemma ChargesOnFreshDataOnly()
      requires Valid() && history.steps != [] && history.steps[|history.steps| - 1].Cycle? && IsCharging(loop.state)
      ensures var since := history.steps[|history.steps| - 1].now - loop.cfg.staleTimeout;
              && store.feed.Up() && NotOffline(store.feed)
              && HeardSince(store.feed, Evcc.Grid, since) && HeardSince(store.feed, Evcc.PVPower, since)
    {
      hide Decide, History.At, Controller.Valid, Online, HeardSince, NotOffline;
      ChargingStateIsFresh(history, |history.steps| - 1);
    }

    /** When well-formed messages of a power metric have stopped at `t`, the tick just run, if past the
        timeout, has put the controller in fail-safe, and evcc was last told off or this tick's attempt to
        tell it was not acknowledged. */
    lemma FailsSafeInSilence(c: Evcc.Channel, t: Time)
      requires Valid() && (c == Evcc.Grid || c == Evcc.PVPower)
      requires Overdue(history, c, t, |history.steps| - 1)
      ensures loop.state == FailSafe
      ensures loop.lastMode == Some(Off) || history.JustFailed()
    {
      hide Controller.Valid, History.At, History.Decision, History.LastTold, History.AttemptFailed, History.SilentSince, Online;
      SilenceStopsCharging(history, c, t, |history.steps| - 1);
      TickDecides(history, |history.steps| - 1);
      RemembersLastTold();
    }

    /** Once evcc was told off during the silence, nothing else was told it since. */
    lemma StaysOffInSilence(c: Evcc.Channel, t: Time, i: nat)
      requires Valid() && (c == Evcc.Grid || c == Evcc.PVPower)
      requires i <= |history.steps| && history.SilentSince(c, t, |history.steps|) && history.LastTold(i) == Some(Off)
      requires forall k :: i <= k < |history.steps| && history.steps[k].Cycle? ==>
                             history.steps[k].now > t + loop.cfg.staleTimeout
      ensures loop.lastMode == Some(Off)
    {
      StaysOff(history, c, t, i, |history.steps|);
      RemembersLastTold();
    }

    /** The tick at step `i`, the one before it being step `j`, tried to tell evcc the mode exactly if in
        between the broker link came up or evcc came online, or else if evcc was last told another mode or
        this one a republish interval ago or more; the same of the limit, while the link is up. */
    lemma EdgesAreTold(j: int, i: nat)
      requires Valid() && i < |history.steps| && history.steps[i].Cycle? && TickBefore(history, j, i)
      ensures var f, n := history.At(i).feed, |history.At(i).link.sends|;
              var was := if j < 0 then Evcc.Feed(store.topics, store.parse, []) else history.At(j).feed;
              var linkCameUp := f.Up() && !was.Up();
              var evccCameOnline := Online(f) && !Online(was);
              && n < |loop.modes.sends| == |loop.limits.sends|
              && loop.modes.sends[n].want == history.Decision(i).mode && loop.modes.sends[n].now == history.steps[i].now
              && (loop.modes.Tried(n) <==> linkCameUp || evccCameOnline || Due(loop.modes, n))
              && (loop.limits.Tried(n) <==> f.Up() && (linkCameUp || evccCameOnline || Due(loop.limits, n)))
    {
      hide History.At, Plant.Decides, Plant.Limits, Plant.Edge, Due, Online, Controller.Valid;
      EdgesAreAnswered(history, j, i, |history.steps|);
      SentByTick(history, i, |history.steps|);
    }
  }
}

/** The whole pipeline, wire to command: any interleaving of messages, connection changes and ticks, with
    any operator settings at each tick and any failing sends. */
module FailSafeRuns {
  import opened Config
  import opened Policy
  import opened Publish
  import opened InputsMapping
  import Evcc

  /** One event of the evcc subscription, or one tick. A tick finds some operator settings; its two sends
      (if any) are acknowledged or not. */
  datatype Step =
    | Wire(e: Evcc.Event)
    | Cycle(now: Time, ctrl: ControlState, ok: bool, limitOk: bool)

  /** `feed` is everything that arrived so far; the code keeps `snap` of it. `heard` is what had arrived
      when the last tick ran; `link` and `limits` have every mode and limit handed to the publishers. */
  datatype Plant = Plant(snap: Evcc.Snapshot, feed: Evcc.Feed, heard: Evcc.Feed, state: State, timers: Timers,
                         link: Link<Mode>, limits: Link<int>)
  {
    /** What a tick decides here. */
    function Decides(now: Time, ctrl: ControlState, cfg: Control): Decision {
      Decide(now, InputsFromSnapshot(now, snap, cfg, ctrl), state, timers, cfg)
    }

    /** The limit a tick asks for here. */
    function Limits(now: Time, ctrl: ControlState, cfg: Control): int {
      LimitSoCTarget(now, InputsFromSnapshot(now, snap, cfg, ctrl), cfg)
    }

    /** Since the last tick the broker link came back, or evcc did. */
    predicate Edge() {
      (feed.Up() && !heard.Up()) || (Online(feed) && !Online(heard))
    }
  }

  /** evcc was last heard to be online. */
  predicate Online(f: Evcc.Feed) {
    f.Last(Evcc.Status).Some? && f.Last(Evcc.Status).value.payload == "online"
  }

  function Advance(p: Plant, cfg: Control, step: Step): Plant {
    match step
    case Wire(e) => p.(snap := Evcc.Absorb(p.feed.topics, p.feed.parse, p.snap, e), feed := p.feed.Then(e))
    case Cycle(now, ctrl, ok, limitOk) =>
      var dec := p.Decides(now, ctrl, cfg);
      var limit := Send(now, p.Limits(now, ctrl, cfg), p.feed.Up(), p.Edge(), limitOk);
      p.(heard := p.feed, state := dec.state, timers := dec.timers,
         link := Link(p.link.republish, p.link.sends + [Send(now, dec.mode, true, p.Edge(), ok)]),
         limits := Link(p.limits.republish, p.limits.sends + [limit]))
  }

  datatype History = History(cfg: Control, topics: Evcc.Topics, parse: Evcc.Parser, steps: seq<Step>)
  {
    /** The plant before step `i`. */
    function At(i: nat): Plant requires i <= |steps| {
      if i == 0 then
        Plant(Evcc.NOTHING_SEEN, Evcc.Feed(topics, parse, []), Evcc.Feed(topics, parse, []), Idle, NO_TIMERS,
              Link(cfg.republish, []), Link(cfg.republish, []))
      else Advance(At(i - 1), cfg, steps[i - 1])
    }

    /** The decision of the tick at step `i`. */
    function Decision(i: nat): Decision requires i < |steps| && steps[i].Cycle? {
      At(i).Decides(steps[i].now, steps[i].ctrl, cfg)
    }

    /** The last mode evcc acknowledged during the first `i` steps. */
    function LastTold(i: nat): Option<Mode> requires i <= |steps| {
      var l := At(i).link;
      LastOf(l.Deliveries(|l.sends|))
    }

    /** The tick at step `i` tried to tell evcc its decision and was not acknowledged. */
    predicate AttemptFailed(i: nat) requires i < |steps| && steps[i].Cycle? {
      At(i + 1).link.Tried(|At(i).link.sends|) && !steps[i].ok
    }

    /** The same of the last step. */
    predicate JustFailed() {
      steps != [] && steps[|steps| - 1].Cycle? && AttemptFailed(|steps| - 1)
    }

    /** No well-formed message of metric `c` among the first `i` steps is stamped after `t`. */
    ghost predicate SilentSince(c: Evcc.Channel, t: Time, i: nat) requires i <= |steps| {
      forall k :: 0 <= k < i && steps[k].Wire? && Evcc.Feed(topics, parse, []).Accepted(steps[k].e, c) ==> steps[k].e.at <= t
    }
  }

  /** Step `i` is a tick past the timeout, with metric `c` silent since `t`. */
  ghost predicate Overdue(h: History, c: Evcc.Channel, t: Time, i: int) {
    0 <= i < |h.steps| && h.steps[i].Cycle? && h.SilentSince(c, t, i) && h.steps[i].now > t + h.cfg.staleTimeout
  }

  /** The snapshot the code keeps is at every step what the whole history of messages says. */
  lemma {:induction false} SnapshotReflectsHistory(h: History, i: nat)
    requires i <= |h.steps|
    ensures Evcc.Reflects(h.At(i).snap, h.At(i).feed)
    ensures h.At(i).feed.topics == h.topics && h.At(i).feed.parse == h.parse
  {
    if i > 0 {
      SnapshotReflectsHistory(h, i - 1);
      if h.steps[i - 1].Wire? { Evcc.AbsorbedReflected(h.At(i - 1).snap, h.At(i - 1).feed, h.steps[i - 1].e); }
    }
  }

  /** Everything in the feed came over the wire in some earlier step. */
  lemma {:induction false} FeedIsTheWire(h: History, i: nat, e: Evcc.Event)
    requires i <= |h.steps| && e in h.At(i).feed.events
    ensures exists k :: 0 <= k < i && h.steps[k] == Wire(e)
  {
    if i > 0 {
      if h.steps[i - 1] != Wire(e) { FeedIsTheWire(h, i - 1, e); }
    }
  }

  /** No tick of any history commands charging, override included, without the broker link, against an
      offline status, or on power readings older than the timeout. */
  lemma NeverChargesBlind(h: History, i: nat)
    requires i < |h.steps| && h.steps[i].Cycle? && h.Decision(i).mode.On?
    ensures var f, since := h.At(i).feed, h.steps[i].now - h.cfg.staleTimeout;
            f.Up() && NotOffline(f) && HeardSince(f, Evcc.Grid, since) && HeardSince(f, Evcc.PVPower, since)
  {
    SnapshotReflectsHistory(h, i);
    var p, s := h.At(i), h.steps[i];
    ChargingNeedsFreshData(s.now, p.snap, p.feed, h.cfg, s.ctrl, p.state, p.timers);
  }

  /** The state a tick leaves behind is a charging one only on fresh data. */
  lemma ChargingStateIsFresh(h: History, i: nat)
    requires i < |h.steps| && h.steps[i].Cycle? && IsCharging(h.At(i + 1).state)
    ensures var f, since := h.At(i).feed, h.steps[i].now - h.cfg.staleTimeout;
            f.Up() && NotOffline(f) && HeardSince(f, Evcc.Grid, since) && HeardSince(f, Evcc.PVPower, since)
    ensures h.At(i + 1).feed == h.At(i).feed
  {
    hide Decide, InputsFromSnapshot;
    var p, s := h.At(i), h.steps[i];
    SnapshotReflectsHistory(h, i);
    GatesComeFirst(s.now, InputsFromSnapshot(s.now, p.snap, h.cfg, s.ctrl), p.state, p.timers, h.cfg);
    StaleExactlyWhenUnheard(s.now, p.snap, p.feed, h.cfg, s.ctrl);
  }

  lemma TickDecides(h: History, i: nat)
    requires i < |h.steps| && h.steps[i].Cycle?
    ensures h.At(i + 1).state == h.Decision(i).state
  {
  }

  /** When well-formed messages of either power metric stop at `t`, every tick past `t` plus the timeout
      decides off, and after it evcc was last told off or the attempt to tell it failed in that tick. */
  lemma SilenceStopsCharging(h: History, c: Evcc.Channel, t: Time, i: nat)
    requires c == Evcc.Grid || c == Evcc.PVPower
    requires Overdue(h, c, t, i)
    ensures h.Decision(i).mode == Off && h.Decision(i).state == FailSafe
    ensures h.LastTold(i + 1) == Some(Off) || h.AttemptFailed(i)
  {
    var p, s := h.At(i), h.steps[i];
    SnapshotReflectsHistory(h, i);
    forall e | e in p.feed.events && p.feed.Accepted(e, c) ensures e.at <= t {
      FeedIsTheWire(h, i, e);
      var k :| 0 <= k < i && h.steps[k] == Wire(e);
      assert Evcc.Feed(h.topics, h.parse, []).Accepted(h.steps[k].e, c);
    }
    SilenceIsStale(s.now, p.snap, p.feed, h.cfg, s.ctrl, c, t);
    assert h.At(i + 1) == Advance(p, h.cfg, s);
    DeliveredOrFailedNow(h.At(i + 1).link, |p.link.sends|);
  }

  /** Once told off during the silence, evcc is never told anything else while it lasts. */
  lemma {:induction false} StaysOff(h: History, c: Evcc.Channel, t: Time, i: nat, j: nat)
    requires c == Evcc.Grid || c == Evcc.PVPower
    requires i <= j <= |h.steps| && h.SilentSince(c, t, j) && h.LastTold(i) == Some(Off)
    requires forall k :: i <= k < j && h.steps[k].Cycle? ==> h.steps[k].now > t + h.cfg.staleTimeout
    ensures h.LastTold(j) == Some(Off)
  {
    hide History.AttemptFailed, History.At, History.LastTold, History.Decision;
    if i < j {
      StaysOff(h, c, t, i, j - 1);
      ToldByTheTick(h, j - 1);
      if h.steps[j - 1].Cycle? { SilenceStopsCharging(h, c, t, j - 1); }
    }
  }

  /** One step changes what evcc was last told only to that tick's decision. */
  lemma ToldByTheTick(h: History, i: nat)
    requires i < |h.steps|
    ensures h.LastTold(i + 1) == h.LastTold(i)
            || (h.steps[i].Cycle? && h.LastTold(i + 1) == Some(h.Decision(i).mode))
  {
    var l, m := h.At(i).link, h.At(i + 1).link;
    if h.steps[i].Cycle? { LinkGrows(l, m.sends[|l.sends|]); }
  }

  // ----- edges

  /** The last tick before step `i` is step `j`; -1 if there is none. */
  ghost predicate TickBefore(h: History, j: int, i: nat) requires i <= |h.steps| {
    -1 <= j < i && (j >= 0 ==> h.steps[j].Cycle?) && forall k :: j < k < i ==> !h.steps[k].Cycle?
  }

  /** What the tick before had found: nothing, before the first. */
  lemma {:induction false} HeardByTickBefore(h: History, j: int, i: nat)
    requires i <= |h.steps| && TickBefore(h, j, i)
    ensures h.At(i).heard == if j < 0 then Evcc.Feed(h.topics, h.parse, []) else h.At(j).feed
  {
    if j < i - 1 { HeardByTickBefore(h, j, i - 1); }
  }

  /** Both publishers are handed one value a tick, and nothing else. */
  lemma {:induction false} SendsGrow(h: History, i: nat, j: nat)
    requires i <= j <= |h.steps|
    ensures h.At(i).link.republish == h.At(j).link.republish == h.At(i).limits.republish == h.At(j).limits.republish
    ensures h.At(i).link.sends <= h.At(j).link.sends && h.At(i).limits.sends <= h.At(j).limits.sends
    ensures |h.At(j).link.sends| == |h.At(j).limits.sends|
    decreases j
  {
    if i < j { SendsGrow(h, i, j - 1); } else if i > 0 { SendsGrow(h, i - 1, j - 1); }
  }

  /** What a tick hands to the publishers, in the histories of all later steps. */
  lemma SentByTick(h: History, i: nat, m: nat)
    requires i < m <= |h.steps| && h.steps[i].Cycle?
    ensures var p, q, s, n := h.At(i), h.At(m), h.steps[i], |h.At(i).link.sends|;
            && n < |q.link.sends| == |q.limits.sends|
            && q.link.sends[n] == Send(s.now, p.Decides(s.now, s.ctrl, h.cfg).mode, true, p.Edge(), s.ok)
            && q.limits.sends[n] == Send(s.now, p.Limits(s.now, s.ctrl, h.cfg), p.feed.Up(), p.Edge(), s.limitOk)
  {
    hide Plant.Decides, Plant.Limits, Plant.Edge;
    SendsGrow(h, i, i);
    SendsGrow(h, i + 1, m);
    SendsGrow(h, m, m);
    var n := |h.At(i).link.sends|;
    assert h.At(m).link.sends[n] == h.At(i + 1).link.sends[n];
    assert h.At(m).limits.sends[n] == h.At(i + 1).limits.sends[n];
  }

  /** A tick tells evcc the mode exactly if, since the tick before, the broker link came up or evcc came
      online, or else the mode last delivered is another one or a republish interval old; and the limit
      exactly if the link is up and the same holds of limits. */
  lemma EdgesAreAnswered(h: History, j: int, i: nat, m: nat)
    requires i < m <= |h.steps| && h.steps[i].Cycle? && TickBefore(h, j, i)
    ensures var f, n := h.At(i).feed, |h.At(i).link.sends|;
            var was := if j < 0 then Evcc.Feed(h.topics, h.parse, []) else h.At(j).feed;
            var edge := (f.Up() && !was.Up()) || (Online(f) && !Online(was));
            && n < |h.At(m).link.sends| == |h.At(m).limits.sends|
            && (h.At(m).link.Tried(n) <==> edge || Due(h.At(m).link, n))
            && (h.At(m).limits.Tried(n) <==> f.Up() && (edge || Due(h.At(m).limits, n)))
  {
    hide History.At, Plant.Decides, Plant.Limits, Due;
    HeardByTickBefore(h, j, i);
    SentByTick(h, i, m);
    var n := |h.At(i).link.sends|;
    TriedExactly(h.At(m).link, n);
    TriedExactly(h.At(m).limits, n);
  }

  // ----- growing a history by one step

  lemma {:induction false} SamePast(h: History, g: History, i: nat)
    requires g == h.(steps := g.steps) && i <= |h.steps| <= |g.steps| && g.steps[..|h.steps|] == h.steps
    ensures g.At(i) == h.At(i)
  {
    if i > 0 {
      SamePast(h, g, i - 1);
      assert g.steps[i - 1] == g.steps[..|h.steps|][i - 1];
    }
  }

  lemma HistoryGrows(h: History, step: Step)
    ensures var g := h.(steps := h.steps + [step]);
            g.At(|g.steps|) == Advance(h.At(|h.steps|), h.cfg, step)
  {
    var g := h.(steps := h.steps + [step]);
    assert g.steps[..|h.steps|] == h.steps;
    SamePast(h, g, |h.steps|);
  }
}

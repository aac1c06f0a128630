/** Charge-session accounting: running totals in memory, mirrored into the open row every tick so that
    a crash at any point loses nothing already accounted for. */
module Metering {
  import opened Config
  import opened Sessions

  /** The loop's running totals. `id` is the open session's row, 0 for none. */
  datatype Meter = Meter(prevCharging: bool, id: int, peakW: real, energyWh: real, sumW: real, ticks: nat)
  {
    function AvgW(): real {
      if ticks > 0 then sumW / (ticks as real) else 0.0
    }
  }

  const IDLE_METER := Meter(false, 0, 0.0, 0.0, 0.0, 0)

  datatype Sample = Sample(
    now: Time, charging: bool, stale: bool, chargeW: real, soc: Option<int>, startReason: string, stopReason: string)

  /** Which of the tick's database calls succeed. */
  datatype Faults = Faults(startOk: bool, updateOk: bool, endOk: bool)

  datatype Ledger = Ledger(meter: Meter, rows: Table)

  predicate Rising(m: Meter, s: Sample) { s.charging && !m.prevCharging }

  predicate Falling(m: Meter, s: Sample) { !s.charging && m.prevCharging }

  /** A session opens when evcc starts charging and closes when it stops. */
  function Edge(l: Ledger, s: Sample, f: Faults): Ledger {
    var m := l.meter;
    if Rising(m, s) then
      var zeroed := m.(peakW := 0.0, energyWh := 0.0, sumW := 0.0, ticks := 0);
      if f.startOk then Ledger(zeroed.(id := |l.rows| + 1), Started(l.rows, s.now, s.startReason, s.soc))
      else Ledger(zeroed, l.rows)
    else if Falling(m, s) && m.id != 0 then
      Ledger(m.(id := 0),
             if f.endOk then Ended(l.rows, m.id, s.now, s.stopReason, s.soc, m.energyWh, m.AvgW(), m.peakW) else l.rows)
    else l
  }

  /** Energy counts while charging on fresh data; the open row follows. */
  function Accrue(l: Ledger, dt: real, s: Sample, f: Faults): Ledger {
    if s.charging && !s.stale then
      var m := l.meter.(energyWh := l.meter.energyWh + s.chargeW * dt, sumW := l.meter.sumW + s.chargeW,
                        ticks := l.meter.ticks + 1,
                        peakW := if s.chargeW > l.meter.peakW then s.chargeW else l.meter.peakW,
                        prevCharging := s.charging);
      Ledger(m, if m.id != 0 && f.updateOk then WithMetrics(l.rows, m.id, m.energyWh, m.AvgW(), m.peakW) else l.rows)
    else Ledger(l.meter.(prevCharging := s.charging), l.rows)
  }

  function Tracked(l: Ledger, dt: real, s: Sample, f: Faults): Ledger {
    Accrue(Edge(l, s, f), dt, s, f)
  }

  /** Startup closes the session a previous process left open, with the totals its row already has. */
  function Recovered(t: Table, now: Time, ok: bool): Table {
    var id := LatestOpen(t);
    if ok && id != 0 then
      Ended(t, id, now, "restart", None, t[id - 1].energyWh, t[id - 1].avgW, t[id - 1].peakW)
    else t
  }

  /** A completed tick, or a restart. The previous process may have died between ticks or, `torn`, in
      mid-tick after the session edge and before the totals were written. */
  datatype Step =
    | Ticked(s: Sample, f: Faults)
    | Restarted(torn: Option<(Sample, Faults)>, now: Time, ok: bool)

  function Apply(l: Ledger, dt: real, step: Step): Ledger {
    match step
    case Ticked(s, f) => Tracked(l, dt, s, f)
    case Restarted(torn, now, ok) =>
      var left := if torn.Some? then Edge(l, torn.value.0, torn.value.1).rows else l.rows;
      Ledger(IDLE_METER, Recovered(left, now, ok))
  }

  function Contribution(dt: real, step: Step): real {
    if step.Ticked? && step.s.charging && !step.s.stale then step.s.chargeW * dt else 0.0
  }

  datatype History = History(dt: real, steps: seq<Step>)
  {
    /** The ledger after `i` steps from an empty database. */
    function At(i: nat): Ledger requires i <= |steps| {
      if i == 0 then Ledger(IDLE_METER, []) else Apply(At(i - 1), dt, steps[i - 1])
    }

    /** Energy that flowed during the completed ticks that charged on fresh data. */
    function Flowed(i: nat): real requires i <= |steps| {
      if i == 0 then 0.0
      else Flowed(i - 1) + Contribution(dt, steps[i - 1])
    }
  }

  /** No session close fails; opening and updating may. */
  predicate ClosesWork(step: Step) {
    match step
    case Ticked(_, f) => f.endOk
    case Restarted(torn, _, ok) => ok && (torn.Some? ==> torn.value.1.endOk)
  }

  predicate FaultFree(step: Step) {
    match step
    case Ticked(_, f) => f.startOk && f.updateOk && f.endOk
    case Restarted(torn, _, ok) => ok && (torn.Some? ==> torn.value.1.startOk && torn.value.1.endOk)
  }

  // ----- invariants of one step

  /** What holds under every fault, between ticks (`charging` as last seen) and after the edge in mid-tick. */
  predicate Sound(l: Ledger, dt: real, charging: bool) {
    var m := l.meter;
    && (m.id != 0 ==> charging && OpenAt(l.rows, m.id))
    && m.energyWh == m.sumW * dt
    && m.peakW >= 0.0
    && m.sumW <= m.peakW * (m.ticks as real)
    && (m.ticks == 0 ==> m.sumW == 0.0)
    && forall i :: 0 <= i < |l.rows| ==> l.rows[i].avgW <= l.rows[i].peakW
  }

  function EnergyOf(avgW: real, n: nat, dt: real): real {
    avgW * (n as real) * dt
  }

  /** The only open row is the live session's. */
  ghost predicate OnlyLiveOpen(l: Ledger) {
    forall i :: OpenAt(l.rows, i) ==> i == l.meter.id
  }

  /** The live row shows exactly the totals in memory. */
  ghost predicate Mirrored(l: Ledger) {
    l.meter.id != 0 ==>
      && OpenAt(l.rows, l.meter.id)
      && var r := l.rows[l.meter.id - 1];
         r.energyWh == l.meter.energyWh && r.avgW == l.meter.AvgW() && r.peakW == l.meter.peakW
  }

  lemma SignOfProduct(x: real, n: real)
    requires n > 0.0
    ensures x > 0.0 <==> x * n > 0.0
  {
  }

  lemma AverageBelowPeak(m: Meter, dt: real)
    requires m.peakW >= 0.0 && m.sumW <= m.peakW * (m.ticks as real) && (m.ticks == 0 ==> m.sumW == 0.0)
    ensures m.AvgW() <= m.peakW
    ensures EnergyOf(m.AvgW(), m.ticks, dt) == m.sumW * dt
  {
    if m.ticks > 0 {
      var n, a := m.ticks as real, m.AvgW();
      assert a * n == m.sumW;
      SignOfProduct(a - m.peakW, n);
    }
  }

  lemma EdgeSound(l: Ledger, dt: real, s: Sample, f: Faults)
    requires Sound(l, dt, l.meter.prevCharging)
    ensures Sound(Edge(l, s, f), dt, s.charging)
  {
    AverageBelowPeak(l.meter, dt);
  }

  lemma OneMoreSample(sumW: real, peakW: real, w: real, n: nat, dt: real)
    requires peakW >= 0.0 && sumW <= peakW * (n as real)
    ensures var peak' := if w > peakW then w else peakW;
            sumW + w <= peak' * ((n + 1) as real) && sumW * dt + w * dt == (sumW + w) * dt
  {
    var peak' := if w > peakW then w else peakW;
    var k := n as real;
    assert (n + 1) as real == k + 1.0;
    assert peak' * (k + 1.0) == peak' * k + peak';
    assert (peak' - peakW) * k >= 0.0;
  }

  lemma AccrueSound(l: Ledger, dt: real, s: Sample, f: Faults)
    requires Sound(l, dt, s.charging)
    ensures Sound(Accrue(l, dt, s, f), dt, s.charging)
  {
    if s.charging && !s.stale {
      OneMoreSample(l.meter.sumW, l.meter.peakW, s.chargeW, l.meter.ticks, dt);
      AverageBelowPeak(Accrue(l, dt, s, f).meter, dt);
    }
  }

  lemma StepSound(l: Ledger, dt: real, step: Step)
    requires Sound(l, dt, l.meter.prevCharging)
    ensures Sound(Apply(l, dt, step), dt, Apply(l, dt, step).meter.prevCharging)
  {
    if step.Ticked? {
      EdgeSound(l, dt, step.s, step.f);
      AccrueSound(Edge(l, step.s, step.f), dt, step.s, step.f);
    } else if step.torn.Some? {
      EdgeSound(l, dt, step.torn.value.0, step.torn.value.1);
    }
  }

  lemma {:induction false} AlwaysSound(h: History, i: nat)
    requires i <= |h.steps|
    ensures Sound(h.At(i), h.dt, h.At(i).meter.prevCharging)
  {
    if i > 0 {
      AlwaysSound(h, i - 1);
      StepSound(h.At(i - 1), h.dt, h.steps[i - 1]);
    }
  }

  // ----- laws of any history

  /** A tick that charges on fresh data in session `id`. */
  predicate OwnStep(l: Ledger, step: Step, id: int) {
    step.Ticked? && step.s.charging && !step.s.stale && Edge(l, step.s, step.f).meter.id == id
  }

  /** The charging powers of those ticks among the first `i` steps, in order. */
  function OwnPowers(h: History, i: nat, id: int): seq<real> requires i <= |h.steps| {
    if i == 0 then []
    else OwnPowers(h, i - 1, id) + if OwnStep(h.At(i - 1), h.steps[i - 1], id) then [h.steps[i - 1].s.chargeW] else []
  }

  function Sum(s: seq<real>): real {
    if s == [] then 0.0 else Sum(s[..|s| - 1]) + s[|s| - 1]
  }

  /** The largest of the values, zero if none is positive. */
  function Top(s: seq<real>): real {
    if s == [] then 0.0
    else if s[|s| - 1] > Top(s[..|s| - 1]) then s[|s| - 1] else Top(s[..|s| - 1])
  }

  /** Top is the least bound of all values and zero. */
  lemma {:induction false} TopIsLargest(s: seq<real>)
    ensures Top(s) >= 0.0 && (forall i :: 0 <= i < |s| ==> s[i] <= Top(s))
    ensures Top(s) == 0.0 || Top(s) in s
  {
    if s != [] { TopIsLargest(s[..|s| - 1]); }
  }

  lemma OneMoreValue(s: seq<real>, w: real)
    ensures Sum(s + [w]) == Sum(s) + w && Top(s + [w]) == if w > Top(s) then w else Top(s)
  {
    assert (s + [w])[..|s|] == s;
  }

  /** The meter holds the totals of the live session's own ticks. */
  ghost predicate Holds(m: Meter, own: seq<real>) {
    m.ticks == |own| && m.sumW == Sum(own) && m.peakW == Top(own)
  }

  lemma StepHolds(l: Ledger, dt: real, step: Step, id: int, own: seq<real>)
    requires Sound(l, dt, l.meter.prevCharging) && id >= 1
    requires l.meter.id == id ==> Holds(l.meter, own)
    requires id > |l.rows| ==> own == []
    ensures var l' := Apply(l, dt, step);
            var own' := own + if OwnStep(l, step, id) then [step.s.chargeW] else [];
            (l'.meter.id == id ==> Holds(l'.meter, own')) && (id > |l'.rows| ==> own' == [])
  {
    if OwnStep(l, step, id) { OneMoreValue(own, step.s.chargeW); }
    assert own + [] == own;
  }

  lemma {:induction false} MeterHoldsOwn(h: History, i: nat, id: int)
    requires i <= |h.steps| && id >= 1
    ensures h.At(i).meter.id == id ==> Holds(h.At(i).meter, OwnPowers(h, i, id))
    ensures id > |h.At(i).rows| ==> OwnPowers(h, i, id) == []
  {
    if i > 0 {
      hide Apply, Sound, OwnStep, Holds;
      MeterHoldsOwn(h, i - 1, id);
      AlwaysSound(h, i - 1);
      StepHolds(h.At(i - 1), h.dt, h.steps[i - 1], id, OwnPowers(h, i - 1, id));
    }
  }

  predicate Shows(r: Session, m: Meter) {
    r.energyWh == m.energyWh && r.avgW == m.AvgW() && r.peakW == m.peakW
  }

  /** No tick fails to write the running totals. */
  predicate UpdatesWork(step: Step) {
    step.Ticked? ==> step.f.updateOk
  }

  /** A row's energy, average and peak are those of the first `n` of some powers. */
  predicate ShowsFirst(r: Session, own: seq<real>, n: nat, dt: real) {
    && n <= |own| && r.energyWh == Sum(own[..n]) * dt && r.peakW == Top(own[..n])
    && r.avgW == if n == 0 then 0.0 else Sum(own[..n]) / (n as real)
  }

  /** What the row shows of its session's own ticks: the first few, and all of them as long as the running
      totals were always written. */
  ghost predicate Covers(r: Session, dt: real, own: seq<real>, exact: bool) {
    exists n: nat :: ShowsFirst(r, own, n, dt) && (exact ==> n == |own|)
  }

  ghost predicate AllUpdatesWork(h: History, i: nat) requires i <= |h.steps| {
    forall k :: 0 <= k < i ==> UpdatesWork(h.steps[k])
  }

  predicate SameTotals(a: Session, b: Session) {
    a.energyWh == b.energyWh && a.avgW == b.avgW && a.peakW == b.peakW
  }

  /** After a step a row shows what it showed before, or nothing yet, or the live totals from before or
      after the step. If the step is one of its own ticks and writes the totals, it is the last. */
  lemma RowAfterStep(l: Ledger, dt: real, step: Step, id: int)
    requires Sound(l, dt, l.meter.prevCharging) && HasRow(Apply(l, dt, step).rows, id)
    ensures var l' := Apply(l, dt, step); var r := l'.rows[id - 1];
            || (HasRow(l.rows, id) && SameTotals(r, l.rows[id - 1]) && !(OwnStep(l, step, id) && UpdatesWork(step)))
            || (id == |l.rows| + 1 && r.energyWh == r.avgW == r.peakW == 0.0 && !(OwnStep(l, step, id) && UpdatesWork(step)))
            || (l.meter.id == id && Shows(r, l.meter) && !OwnStep(l, step, id))
            || (l'.meter.id == id && Shows(r, l'.meter))
  {
  }

  lemma CoversOne(h: History, i: nat, id: int)
    requires 1 <= i <= |h.steps| && HasRow(h.At(i).rows, id)
    requires HasRow(h.At(i - 1).rows, id) ==>
               Covers(h.At(i - 1).rows[id - 1], h.dt, OwnPowers(h, i - 1, id), AllUpdatesWork(h, i - 1))
    ensures Covers(h.At(i).rows[id - 1], h.dt, OwnPowers(h, i, id), AllUpdatesWork(h, i))
  {
    hide Apply, Edge, Sound, Holds, Sum, Top, Shows, ShowsFirst, Covers, OwnStep;
    var l, l', step := h.At(i - 1), h.At(i), h.steps[i - 1];
    AlwaysSound(h, i - 1);
    AlwaysSound(h, i);
    MeterHoldsOwn(h, i - 1, id);
    MeterHoldsOwn(h, i, id);
    RowAfterStep(l, h.dt, step, id);
    var r, before, own := l'.rows[id - 1], OwnPowers(h, i - 1, id), OwnPowers(h, i, id);
    assert before + [] == before;
    if l'.meter.id == id && Shows(r, l'.meter) {
      LiveCovers(r, l', h.dt, own, AllUpdatesWork(h, i));
    } else if l.meter.id == id && Shows(r, l.meter) && !OwnStep(l, step, id) {
      LiveCovers(r, l, h.dt, own, AllUpdatesWork(h, i));
    } else if id == |l.rows| + 1 {
      NothingCovers(r, h.dt, own, AllUpdatesWork(h, i));
    } else {
      SameCovers(r, l.rows[id - 1], h.dt, before, own, AllUpdatesWork(h, i - 1), AllUpdatesWork(h, i));
    }
  }

  lemma SameCovers(r: Session, r0: Session, dt: real, before: seq<real>, own: seq<real>, worked0: bool, worked: bool)
    requires SameTotals(r, r0) && Covers(r0, dt, before, worked0) && before <= own
    requires worked ==> worked0 && own == before
    ensures Covers(r, dt, own, worked)
  {
    var n: nat :| ShowsFirst(r0, before, n, dt) && (worked0 ==> n == |before|);
    assert own[..n] == before[..n];
    assert ShowsFirst(r, own, n, dt);
  }

  lemma LiveCovers(r: Session, l: Ledger, dt: real, own: seq<real>, worked: bool)
    requires Sound(l, dt, l.meter.prevCharging) && Shows(r, l.meter) && Holds(l.meter, own)
    ensures Covers(r, dt, own, worked)
  {
    assert own[..|own|] == own;
    assert ShowsFirst(r, own, |own|, dt);
  }

  lemma NothingCovers(r: Session, dt: real, own: seq<real>, worked: bool)
    requires r.energyWh == r.avgW == r.peakW == 0.0 && (worked ==> own == [])
    ensures Covers(r, dt, own, worked)
  {
    assert ShowsFirst(r, own, 0, dt);
  }

  /** In every row ever written energy, average and peak are those of the first so many of the session's
      own ticks: never of others, whatever failed and wherever the process died, and of all of them as long
      as the running totals were always written. */
  lemma {:induction false} RowsArePlausible(h: History, i: nat, id: int)
    requires i <= |h.steps| && HasRow(h.At(i).rows, id)
    ensures h.At(i).rows[id - 1].avgW <= h.At(i).rows[id - 1].peakW
    ensures Covers(h.At(i).rows[id - 1], h.dt, OwnPowers(h, i, id), AllUpdatesWork(h, i))
  {
    AlwaysSound(h, i);
    if i > 0 {
      if HasRow(h.At(i - 1).rows, id) { RowsArePlausible(h, i - 1, id); }
      CoversOne(h, i, id);
    }
  }

  // ----- a row tells the edges of its session

  /** The sample whose tick, completed or torn, opens a session, if the step does. */
  function Opens(l: Ledger, step: Step): Option<Sample> {
    match step
    case Ticked(s, f) => if s.charging && !l.meter.prevCharging && f.startOk then Some(s) else None
    case Restarted(None, _, _) => None
    case Restarted(Some(torn), _, _) =>
      if torn.0.charging && !l.meter.prevCharging && torn.1.startOk then Some(torn.0) else None
  }

  /** The sample that row `id` was opened with. */
  function OpenedBy(h: History, i: nat, id: int): Option<Sample> requires i <= |h.steps| {
    if i == 0 then None
    else
      var l := h.At(i - 1);
      if id == |l.rows| + 1 && Opens(l, h.steps[i - 1]).Some? then Opens(l, h.steps[i - 1]) else OpenedBy(h, i - 1, id)
  }

  /** How a session ended: with the tick that saw charging stop, or with a restart. */
  datatype End = AtTick(s: Sample) | AtRestart(now: Time)

  function EdgeEnds(l: Ledger, s: Sample, f: Faults, id: int): bool {
    !s.charging && l.meter.prevCharging && l.meter.id == id && f.endOk
  }

  function Ends(l: Ledger, step: Step, id: int): Option<End> {
    match step
    case Ticked(s, f) => if EdgeEnds(l, s, f, id) then Some(AtTick(s)) else None
    case Restarted(None, now, ok) => if ok && LatestOpen(l.rows) == id then Some(AtRestart(now)) else None
    case Restarted(Some(torn), now, ok) =>
      if EdgeEnds(l, torn.0, torn.1, id) then Some(AtTick(torn.0))
      else if ok && LatestOpen(Edge(l, torn.0, torn.1).rows) == id then Some(AtRestart(now)) else None
  }

  function EndedBy(h: History, i: nat, id: int): Option<End> requires i <= |h.steps| {
    if i == 0 then None
    else
      var e := Ends(h.At(i - 1), h.steps[i - 1], id);
      if e.Some? then e else EndedBy(h, i - 1, id)
  }

  predicate TellsStart(r: Session, s: Sample) {
    r.startedAt == s.now && r.startReason == s.startReason && r.startSoC == s.soc
  }

  predicate TellsEnd(r: Session, e: Option<End>) {
    match e
    case None => r.IsOpen()
    case Some(AtTick(s)) => r.endedAt == Some(s.now) && r.stopReason == s.stopReason && r.endSoC == s.soc
    case Some(AtRestart(now)) => r.endedAt == Some(now) && r.stopReason == "restart" && r.endSoC == None
  }

  ghost predicate Tells(t: Table, id: int, began: Option<Sample>, ended: Option<End>) {
    && (HasRow(t, id) <==> began.Some?)
    && (HasRow(t, id) ==> TellsStart(t[id - 1], began.value) && TellsEnd(t[id - 1], ended))
    && (!HasRow(t, id) ==> ended.None?)
  }

  lemma EdgeTells(l: Ledger, s: Sample, f: Faults, id: int, began: Option<Sample>, ended: Option<End>)
    requires l.meter.id != 0 ==> l.meter.prevCharging && OpenAt(l.rows, l.meter.id)
    requires id >= 1 && Tells(l.rows, id, began, ended)
    ensures Tells(Edge(l, s, f).rows, id,
                  if id == |l.rows| + 1 && s.charging && !l.meter.prevCharging && f.startOk then Some(s) else began,
                  if EdgeEnds(l, s, f, id) then Some(AtTick(s)) else ended)
  {
  }

  lemma AccrueTells(l: Ledger, dt: real, s: Sample, f: Faults, id: int, began: Option<Sample>, ended: Option<End>)
    requires Tells(l.rows, id, began, ended)
    ensures Tells(Accrue(l, dt, s, f).rows, id, began, ended)
  {
  }

  lemma RecoveryTells(t: Table, now: Time, ok: bool, id: int, began: Option<Sample>, ended: Option<End>)
    requires id >= 1 && Tells(t, id, began, ended)
    ensures Tells(Recovered(t, now, ok), id, began, if ok && LatestOpen(t) == id then Some(AtRestart(now)) else ended)
  {
  }

  lemma StepTells(l: Ledger, dt: real, step: Step, id: int, began: Option<Sample>, ended: Option<End>)
    requires l.meter.id != 0 ==> l.meter.prevCharging && OpenAt(l.rows, l.meter.id)
    requires id >= 1 && Tells(l.rows, id, began, ended)
    ensures Tells(Apply(l, dt, step).rows, id,
                  if id == |l.rows| + 1 && Opens(l, step).Some? then Opens(l, step) else began,
                  if Ends(l, step, id).Some? then Ends(l, step, id) else ended)
  {
    match step
    case Ticked(s, f) =>
      EdgeTells(l, s, f, id, began, ended);
      var o := if id == |l.rows| + 1 && Opens(l, step).Some? then Opens(l, step) else began;
      AccrueTells(Edge(l, s, f), dt, s, f, id, o, if Ends(l, step, id).Some? then Ends(l, step, id) else ended);
    case Restarted(None, now, ok) => RecoveryTells(l.rows, now, ok, id, began, ended);
    case Restarted(Some(torn), now, ok) =>
      EdgeTells(l, torn.0, torn.1, id, began, ended);
      var left := Edge(l, torn.0, torn.1).rows;
      var o := if id == |l.rows| + 1 && Opens(l, step).Some? then Opens(l, step) else began;
      RecoveryTells(left, now, ok, id, o, if EdgeEnds(l, torn.0, torn.1, id) then Some(AtTick(torn.0)) else ended);
      ClosedIsNotRecovered(l, torn.0, torn.1, id);
  }

  lemma ClosedIsNotRecovered(l: Ledger, s: Sample, f: Faults, id: int)
    requires EdgeEnds(l, s, f, id) ==> OpenAt(l.rows, id)
    ensures EdgeEnds(l, s, f, id) && id >= 1 ==> LatestOpen(Edge(l, s, f).rows) != id
  {
  }

  /** A row's start is that of the tick that saw charging begin, with its time, reason and SoC; its end that
      of the tick that saw it stop, or of the restart that found it open; it is open exactly until then. */
  lemma {:induction false} RowsTellTheirEdges(h: History, i: nat, id: int)
    requires i <= |h.steps| && id >= 1
    ensures Tells(h.At(i).rows, id, OpenedBy(h, i, id), EndedBy(h, i, id))
  {
    if i > 0 {
      hide Apply, Tells, Opens, Ends;
      RowsTellTheirEdges(h, i - 1, id);
      AlwaysSound(h, i - 1);
      StepTells(h.At(i - 1), h.dt, h.steps[i - 1], id, OpenedBy(h, i - 1, id), EndedBy(h, i - 1, id));
    } else {
      assert h.At(0).rows == [];
    }
  }

  /** One step never touches a row that is closed. */
  lemma StepFreezesClosed(l: Ledger, dt: real, step: Step, id: int)
    requires l.meter.id != 0 ==> l.meter.prevCharging && OpenAt(l.rows, l.meter.id)
    requires HasRow(l.rows, id) && !OpenAt(l.rows, id)
    ensures var t := Apply(l, dt, step).rows; HasRow(t, id) && t[id - 1] == l.rows[id - 1]
  {
  }

  /** A closed session is history: no later step changes its row, under any faults and crashes, though
      the closing statement itself would overwrite one. */
  lemma {:induction false} ClosedRowsFrozen(h: History, i: nat, j: nat, id: int)
    requires i <= j <= |h.steps| && HasRow(h.At(i).rows, id) && !OpenAt(h.At(i).rows, id)
    ensures HasRow(h.At(j).rows, id) && h.At(j).rows[id - 1] == h.At(i).rows[id - 1]
  {
    hide Apply, Edge;
    if i < j {
      ClosedRowsFrozen(h, i, j - 1, id);
      AlwaysSound(h, j - 1);
      StepFreezesClosed(h.At(j - 1), h.dt, h.steps[j - 1], id);
    }
  }

  // ----- every session is closed once

  /** How often the session edge calls for closing row `id`, and how often that works. */
  function EdgeCalls(l: Ledger, s: Sample, id: int): nat {
    if Falling(l.meter, s) && l.meter.id == id != 0 then 1 else 0
  }

  function EdgeCloses(l: Ledger, s: Sample, f: Faults, id: int): nat {
    if f.endOk then EdgeCalls(l, s, id) else 0
  }

  function RecoveryCalls(t: Table, id: int): nat {
    if LatestOpen(t) == id != 0 then 1 else 0
  }

  function Calls(l: Ledger, step: Step, id: int): nat {
    match step
    case Ticked(s, f) => EdgeCalls(l, s, id)
    case Restarted(None, _, _) => RecoveryCalls(l.rows, id)
    case Restarted(Some(torn), _, _) => EdgeCalls(l, torn.0, id) + RecoveryCalls(Edge(l, torn.0, torn.1).rows, id)
  }

  function Closes(l: Ledger, step: Step, id: int): nat {
    match step
    case Ticked(s, f) => EdgeCloses(l, s, f, id)
    case Restarted(None, _, ok) => if ok then RecoveryCalls(l.rows, id) else 0
    case Restarted(Some(torn), _, ok) =>
      EdgeCloses(l, torn.0, torn.1, id) + if ok then RecoveryCalls(Edge(l, torn.0, torn.1).rows, id) else 0
  }

  function AllCalls(h: History, i: nat, id: int): nat requires i <= |h.steps| {
    if i == 0 then 0 else AllCalls(h, i - 1, id) + Calls(h.At(i - 1), h.steps[i - 1], id)
  }

  function AllCloses(h: History, i: nat, id: int): nat requires i <= |h.steps| {
    if i == 0 then 0 else AllCloses(h, i - 1, id) + Closes(h.At(i - 1), h.steps[i - 1], id)
  }

  function ClosedRow(t: Table, id: int): nat {
    if HasRow(t, id) && !OpenAt(t, id) then 1 else 0
  }

  lemma EdgeClosesRow(l: Ledger, s: Sample, f: Faults, id: int)
    requires l.meter.id != 0 ==> l.meter.prevCharging && OpenAt(l.rows, l.meter.id)
    ensures ClosedRow(Edge(l, s, f).rows, id) == ClosedRow(l.rows, id) + EdgeCloses(l, s, f, id)
  {
  }

  lemma RecoveryClosesRow(t: Table, now: Time, ok: bool, id: int)
    ensures ClosedRow(Recovered(t, now, ok), id) == ClosedRow(t, id) + if ok then RecoveryCalls(t, id) else 0
  {
  }

  lemma AccrueClosesNone(l: Ledger, dt: real, s: Sample, f: Faults, id: int)
    ensures ClosedRow(Accrue(l, dt, s, f).rows, id) == ClosedRow(l.rows, id)
  {
  }

  lemma StepClosesRow(l: Ledger, dt: real, step: Step, id: int)
    requires l.meter.id != 0 ==> l.meter.prevCharging && OpenAt(l.rows, l.meter.id)
    ensures ClosedRow(Apply(l, dt, step).rows, id) == ClosedRow(l.rows, id) + Closes(l, step, id)
  {
    match step
    case Ticked(s, f) =>
      EdgeClosesRow(l, s, f, id);
      AccrueClosesNone(Edge(l, s, f), dt, s, f, id);
    case Restarted(None, now, ok) => RecoveryClosesRow(l.rows, now, ok, id);
    case Restarted(Some(torn), now, ok) =>
      EdgeClosesRow(l, torn.0, torn.1, id);
      RecoveryClosesRow(Edge(l, torn.0, torn.1).rows, now, ok, id);
  }

  /** Whatever fails and wherever the process dies, a row was closed exactly once if it is closed and
      never if it is not. */
  lemma {:induction false} ClosedExactlyOnce(h: History, i: nat, id: int)
    requires i <= |h.steps|
    ensures AllCloses(h, i, id) == ClosedRow(h.At(i).rows, id)
  {
    if i > 0 {
      hide Apply, Closes, ClosedRow, OpenAt;
      ClosedExactlyOnce(h, i - 1, id);
      AlwaysSound(h, i - 1);
      StepClosesRow(h.At(i - 1), h.dt, h.steps[i - 1], id);
    } else {
      assert h.At(0).rows == [];
    }
  }

  lemma CallsAreCloses(l: Ledger, step: Step, id: int)
    requires ClosesWork(step)
    ensures Calls(l, step, id) == Closes(l, step, id)
  {
  }

  lemma {:induction false} AllCallsAreCloses(h: History, i: nat, id: int)
    requires i <= |h.steps| && forall k :: 0 <= k < i ==> ClosesWork(h.steps[k])
    ensures AllCalls(h, i, id) == AllCloses(h, i, id)
  {
    if i > 0 {
      hide Apply, Calls, Closes, ClosesWork;
      AllCallsAreCloses(h, i - 1, id);
      CallsAreCloses(h.At(i - 1), h.steps[i - 1], id);
    }
  }

  /** With closes that work, closing a session is called for at most once, and exactly once if it is
      closed. */
  lemma CalledAtMostOnce(h: History, i: nat, id: int)
    requires i <= |h.steps| && forall k :: 0 <= k < i ==> ClosesWork(h.steps[k])
    ensures AllCalls(h, i, id) == ClosedRow(h.At(i).rows, id) <= 1
  {
    AllCallsAreCloses(h, i, id);
    ClosedExactlyOnce(h, i, id);
  }

  lemma EdgeOnlyLive(l: Ledger, s: Sample, f: Faults)
    requires f.endOk && OnlyLiveOpen(l) && (l.meter.id != 0 ==> OpenAt(l.rows, l.meter.id))
    requires l.meter.id != 0 ==> l.meter.prevCharging
    ensures OnlyLiveOpen(Edge(l, s, f))
  {
    var e := Edge(l, s, f);
    forall i | OpenAt(e.rows, i) ensures i == e.meter.id {
      assert HasRow(l.rows, i) ==> OpenAt(l.rows, i);
    }
  }

  lemma AccrueOnlyLive(l: Ledger, dt: real, s: Sample, f: Faults)
    requires OnlyLiveOpen(l)
    ensures OnlyLiveOpen(Accrue(l, dt, s, f))
  {
    var a := Accrue(l, dt, s, f);
    forall i | OpenAt(a.rows, i) ensures i == a.meter.id {
      assert OpenAt(l.rows, i);
    }
  }

  lemma RecoveryClosesAll(t: Table, only: int, now: Time)
    requires forall i :: OpenAt(t, i) ==> i == only
    ensures forall i :: !OpenAt(Recovered(t, now, true), i)
  {
    forall i | OpenAt(Recovered(t, now, true), i) ensures false {
      assert OpenAt(t, i);
    }
  }

  /** With closes that work (opening and updating may fail), at most one row is ever open between
      steps, and it is the live session's. */
  lemma {:induction false} AtMostOneOpen(h: History, i: nat)
    requires i <= |h.steps| && forall k :: 0 <= k < i ==> ClosesWork(h.steps[k])
    ensures OnlyLiveOpen(h.At(i))
    ensures h.At(i).meter.id != 0 ==> OpenAt(h.At(i).rows, h.At(i).meter.id)
  {
    AlwaysSound(h, i);
    if i > 0 {
      AtMostOneOpen(h, i - 1);
      AlwaysSound(h, i - 1);
      var l := h.At(i - 1);
      assert ClosesWork(h.steps[i - 1]);
      match h.steps[i - 1]
      case Ticked(s, f) =>
        EdgeOnlyLive(l, s, f);
        AccrueOnlyLive(Edge(l, s, f), h.dt, s, f);
      case Restarted(torn, now, ok) =>
        var left := l;
        if torn.Some? {
          EdgeOnlyLive(l, torn.value.0, torn.value.1);
          left := Edge(l, torn.value.0, torn.value.1);
        }
        RecoveryClosesAll(left.rows, left.meter.id, now);
    }
  }

  ghost predicate AtMostOne(t: Table) {
    forall a, b :: OpenAt(t, a) && OpenAt(t, b) ==> a == b
  }

  /** The step opens a session over a row still open, and no recovery closes one of the two. */
  predicate OpensSecond(l: Ledger, step: Step) {
    LatestOpen(l.rows) != 0 &&
    match step
    case Ticked(s, f) => Rising(l.meter, s) && f.startOk
    case Restarted(torn, _, ok) => torn.Some? && Rising(l.meter, torn.value.0) && torn.value.1.startOk && !ok
  }

  lemma EdgeOpens(l: Ledger, s: Sample, f: Faults)
    requires AtMostOne(l.rows) && (l.meter.id != 0 ==> l.meter.prevCharging)
    ensures var t := Edge(l, s, f).rows;
            && (AtMostOne(t) <==> !(Rising(l.meter, s) && f.startOk && LatestOpen(l.rows) != 0))
            && (forall a, b, c :: OpenAt(t, a) && OpenAt(t, b) && OpenAt(t, c) ==> a == b || b == c || a == c)
  {
    var t := Edge(l, s, f).rows;
    assert forall a :: HasRow(l.rows, a) && OpenAt(t, a) ==> OpenAt(l.rows, a);
    if Rising(l.meter, s) && f.startOk {
      assert OpenAt(t, |l.rows| + 1);
      var id := LatestOpen(l.rows);
      if id != 0 { assert OpenAt(t, id); }
    }
  }

  lemma AccrueOpensNone(l: Ledger, dt: real, s: Sample, f: Faults, id: int)
    ensures OpenAt(Accrue(l, dt, s, f).rows, id) <==> OpenAt(l.rows, id)
  {
  }

  lemma RecoveryClosesLatest(t: Table, now: Time, ok: bool, id: int)
    ensures OpenAt(Recovered(t, now, ok), id) <==> OpenAt(t, id) && !(ok && id == LatestOpen(t))
  {
  }

  lemma TickedOpens(l: Ledger, dt: real, s: Sample, f: Faults)
    requires AtMostOne(l.rows) && (l.meter.id != 0 ==> l.meter.prevCharging)
    ensures AtMostOne(Tracked(l, dt, s, f).rows) <==> !OpensSecond(l, Ticked(s, f))
  {
    EdgeOpens(l, s, f);
    forall id { AccrueOpensNone(Edge(l, s, f), dt, s, f, id); }
  }

  lemma RestartOpens(l: Ledger, torn: Option<(Sample, Faults)>, now: Time, ok: bool)
    requires AtMostOne(l.rows) && (l.meter.id != 0 ==> l.meter.prevCharging)
    ensures var left := if torn.Some? then Edge(l, torn.value.0, torn.value.1).rows else l.rows;
            AtMostOne(Recovered(left, now, ok)) <==> !OpensSecond(l, Restarted(torn, now, ok))
  {
    if torn.Some? { EdgeOpens(l, torn.value.0, torn.value.1); }
    var left := if torn.Some? then Edge(l, torn.value.0, torn.value.1).rows else l.rows;
    var last := LatestOpen(left);
    forall id ensures OpenAt(Recovered(left, now, ok), id) <==> OpenAt(left, id) && !(ok && id == last) {
      RecoveryClosesLatest(left, now, ok, id);
    }
    assert last != 0 ==> OpenAt(left, last);
    assert forall id :: OpenAt(left, id) ==> 1 <= id <= |left|;
    assert last == 0 ==> forall id :: !OpenAt(left, id);
  }

  /** When closes may fail, one step of any kind, torn restarts included, keeps at most one row open
      exactly unless it opens a session over an open row and no recovery follows. */
  lemma OneOpenExactly(l: Ledger, dt: real, step: Step)
    requires AtMostOne(l.rows) && (l.meter.id != 0 ==> l.meter.prevCharging)
    ensures AtMostOne(Apply(l, dt, step).rows) <==> !OpensSecond(l, step)
  {
    match step
    case Ticked(s, f) => TickedOpens(l, dt, s, f);
    case Restarted(torn, now, ok) => RestartOpens(l, torn, now, ok);
  }

  ghost predicate OneOpenThroughout(h: History) {
    forall i :: 0 <= i <= |h.steps| ==> AtMostOne(h.At(i).rows)
  }

  ghost predicate NeverOpensSecond(h: History) {
    forall i :: 0 <= i < |h.steps| ==> !OpensSecond(h.At(i), h.steps[i])
  }

  lemma LiveWhileCharging(h: History, i: nat)
    requires i <= |h.steps|
    ensures h.At(i).meter.id != 0 ==> h.At(i).meter.prevCharging
  {
    AlwaysSound(h, i);
  }

  lemma {:induction false} OneOpenUpTo(h: History, i: nat)
    requires i <= |h.steps| && NeverOpensSecond(h)
    ensures AtMostOne(h.At(i).rows)
  {
    if i > 0 {
      hide Apply, Edge, AtMostOne, OpensSecond;
      OneOpenUpTo(h, i - 1);
      LiveWhileCharging(h, i - 1);
      OneOpenExactly(h.At(i - 1), h.dt, h.steps[i - 1]);
    }
  }

  /** Over a whole history with failing closes, crashes and restarts at most one row is ever open exactly
      if no step opens a second one. */
  lemma RunOneOpenExactly(h: History)
    ensures OneOpenThroughout(h) <==> NeverOpensSecond(h)
  {
    if OneOpenThroughout(h) {
      forall i | 0 <= i < |h.steps| ensures !OpensSecond(h.At(i), h.steps[i]) {
        assert AtMostOne(h.At(i).rows) && AtMostOne(h.At(i + 1).rows);
        LiveWhileCharging(h, i);
        OneOpenExactly(h.At(i), h.dt, h.steps[i]);
      }
    }
    if NeverOpensSecond(h) {
      forall i | 0 <= i <= |h.steps| ensures AtMostOne(h.At(i).rows) { OneOpenUpTo(h, i); }
    }
  }

  /** A history in which nothing fails but the close of the first session, and two rows end up open. */
  lemma FailedCloseLeavesTwoOpen()
    ensures exists h: History ::
              && |h.steps| == 3 && h.steps[1].Ticked? && h.steps[1].f == Faults(true, true, false)
              && FaultFree(h.steps[0]) && FaultFree(h.steps[2])
              && OpenAt(h.At(3).rows, 1) && OpenAt(h.At(3).rows, 2)
  {
    var on := Sample(1, true, true, 0.0, None, "", "");
    var all := Faults(true, true, true);
    var h := History(1.0, [Ticked(on, all), Ticked(on.(charging := false), all.(endOk := false)), Ticked(on, all)]);
    assert h.At(1) == Ledger(IDLE_METER.(prevCharging := true, id := 1), [NewSession(1, "", None)]);
    assert h.At(2) == Ledger(IDLE_METER, [NewSession(1, "", None)]);
    assert OpenAt(h.At(3).rows, 1) && OpenAt(h.At(3).rows, 2);
  }

  // ----- energy conservation

  function TotalEnergy(t: Table): real {
    if t == [] then 0.0 else TotalEnergy(t[..|t| - 1]) + t[|t| - 1].energyWh
  }

  lemma {:induction false} TotalAfterUpdate(t: Table, i: nat, r: Session)
    requires i < |t|
    ensures TotalEnergy(t[i := r]) == TotalEnergy(t) - t[i].energyWh + r.energyWh
  {
    var n := |t| - 1;
    if i < n {
      TotalAfterUpdate(t[..n], i, r);
      assert t[i := r][..n] == t[..n][i := r];
    } else {
      assert t[i := r][..n] == t[..n];
    }
  }

  /** The books balance: rows hold `total`, the live row mirrors memory, and a session is live exactly
      while evcc was last seen charging. */
  ghost predicate Balanced(l: Ledger, charging: bool, total: real) {
    Mirrored(l) && (l.meter.id != 0 <==> charging) && TotalEnergy(l.rows) == total
  }

  lemma EdgeConserves(l: Ledger, s: Sample, f: Faults, total: real)
    requires f.startOk && f.endOk && Balanced(l, l.meter.prevCharging, total)
    ensures Balanced(Edge(l, s, f), s.charging, total)
  {
    var e := Edge(l, s, f);
    if Rising(l.meter, s) {
      assert e.rows[..|l.rows|] == l.rows;
    } else if Falling(l.meter, s) {
      TotalAfterUpdate(l.rows, l.meter.id - 1, e.rows[l.meter.id - 1]);
    }
  }

  lemma AccrueConserves(l: Ledger, dt: real, s: Sample, f: Faults, total: real)
    requires f.updateOk && Balanced(l, s.charging, total)
    ensures Balanced(Accrue(l, dt, s, f), s.charging, total + if s.charging && !s.stale then s.chargeW * dt else 0.0)
  {
    var a := Accrue(l, dt, s, f);
    if s.charging && !s.stale {
      TotalAfterUpdate(l.rows, l.meter.id - 1, a.rows[l.meter.id - 1]);
    }
  }

  lemma RecoveryConserves(t: Table, now: Time, ok: bool)
    ensures TotalEnergy(Recovered(t, now, ok)) == TotalEnergy(t)
  {
    var id := LatestOpen(t);
    if ok && id != 0 { TotalAfterUpdate(t, id - 1, Recovered(t, now, ok)[id - 1]); }
  }

  lemma RestartConserves(l: Ledger, dt: real, step: Step, total: real)
    requires step.Restarted? && FaultFree(step) && Balanced(l, l.meter.prevCharging, total)
    ensures Balanced(Apply(l, dt, step), false, total) && Apply(l, dt, step).meter == IDLE_METER
  {
    if step.torn.Some? {
      EdgeConserves(l, step.torn.value.0, step.torn.value.1, total);
      RecoveryConserves(Edge(l, step.torn.value.0, step.torn.value.1).rows, step.now, step.ok);
    } else {
      RecoveryConserves(l.rows, step.now, step.ok);
    }
  }

  lemma StepConserves(l: Ledger, dt: real, step: Step, total: real)
    requires FaultFree(step) && Balanced(l, l.meter.prevCharging, total)
    ensures var l' := Apply(l, dt, step);
            Balanced(l', l'.meter.prevCharging, total + Contribution(dt, step))
  {
    hide Balanced, Edge;
    if step.Ticked? {
      EdgeConserves(l, step.s, step.f, total);
      AccrueConserves(Edge(l, step.s, step.f), dt, step.s, step.f, total);
    } else {
      RestartConserves(l, dt, step, total);
    }
  }

  /** Energy conservation across sessions and crashes: the energy over all rows is exactly what flowed
      during the completed ticks, and the open row always shows the totals in memory. */
  lemma {:induction false} EnergyConserved(h: History, i: nat)
    requires i <= |h.steps| && forall k :: 0 <= k < i ==> FaultFree(h.steps[k])
    ensures Balanced(h.At(i), h.At(i).meter.prevCharging, h.Flowed(i))
  {
    if i > 0 {
      EnergyConserved(h, i - 1);
      StepConserves(h.At(i - 1), h.dt, h.steps[i - 1], h.Flowed(i - 1));
    }
  }

  /** The powers of the ticks that charged on fresh data, summed. */
  function PowerSum(h: History, i: nat): real requires i <= |h.steps| {
    if i == 0 then 0.0
    else
      var step := h.steps[i - 1];
      PowerSum(h, i - 1) + if step.Ticked? && step.s.charging && !step.s.stale then step.s.chargeW else 0.0
  }

  lemma {:induction false} FlowedIsPowerTimesInterval(h: History, i: nat)
    requires i <= |h.steps|
    ensures h.Flowed(i) == PowerSum(h, i) * h.dt
  {
    if i > 0 { FlowedIsPowerTimesInterval(h, i - 1); }
  }

  /** The same in terms of powers. */
  lemma EnergyIsPowerTimesInterval(h: History)
    requires forall k :: 0 <= k < |h.steps| ==> FaultFree(h.steps[k])
    ensures var l := h.At(|h.steps|);
            && Mirrored(l) && (l.meter.id != 0 <==> l.meter.prevCharging)
            && TotalEnergy(l.rows) == PowerSum(h, |h.steps|) * h.dt
  {
    hide Mirrored, TotalEnergy, PowerSum, FaultFree, History.At, History.Flowed;
    EnergyConserved(h, |h.steps|);
    FlowedIsPowerTimesInterval(h, |h.steps|);
  }

  /** Recovery after a crash records the same totals as a normal close would have. */
  lemma RecoveryMatchesClose(h: History, i: nat, s: Sample, f: Faults, now: Time)
    requires i <= |h.steps| && forall k :: 0 <= k < i ==> FaultFree(h.steps[k])
    requires !s.charging && f.endOk && h.At(i).meter.id != 0
    ensures var id := h.At(i).meter.id;
            var recovered, closed := Recovered(h.At(i).rows, now, true), Tracked(h.At(i), h.dt, s, f).rows;
            && |recovered| == |closed| && 1 <= id <= |closed|
            && closed[id - 1].endedAt.Some? && recovered[id - 1].endedAt.Some?
            && recovered[id - 1] == closed[id - 1].(endedAt := Some(now), stopReason := "restart", endSoC := None)
            && forall k :: 0 <= k < |closed| && k != id - 1 ==> recovered[k] == closed[k]
  {
    EnergyConserved(h, i);
    AtMostOneOpen(h, i);
  }
}

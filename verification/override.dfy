/** How a tick expires the manual override while the web layer may be setting a new one.

    A tick reads the override in one critical section and writes the expiry back in a second one;
    any number of operator calls may run in between. */
module OverrideProtocol {
  import opened Config
  import opened Policy

  datatype Stored = Stored(mode: Override, until: Time, bypass: bool, bypassSoC: int)

  const AUTO := Stored(Override.Auto, 0, false, 0)

  /** One atomic step: the tick's first critical section at `now`, its second one, or an operator call. */
  datatype Op = Read(now: Time) | WriteBack | Set(mode: Override, until: Time, bypass: bool, bypassSoC: int)

  /** What the tick carries between its two critical sections. */
  datatype Frame = Frame(seen: Stored, now: Time)

  datatype Shared = Shared(stored: Stored, frame: Option<Frame>)

  predicate Expired(s: Stored, now: Time) {
    s.mode != Override.Auto && s.until != 0 && now >= s.until
  }

  /** An operator call as stored: a bypass means something only with ForceOn, a target only with a bypass. */
  function Normalized(op: Op): Stored requires op.Set? {
    var bypass := op.bypass && op.mode == ForceOn;
    Stored(op.mode, op.until, bypass, if bypass then op.bypassSoC else 0)
  }

  function Next(s: Shared, op: Op): Shared {
    match op
    case Read(now) => Shared(s.stored, Some(Frame(s.stored, now)))
    case Set(_, _, _, _) => Shared(Normalized(op), s.frame)
    case WriteBack =>
      if s.frame.None? then s
      else
        var f := s.frame.value;
        Shared(if Expired(f.seen, f.now) && s.stored.mode == f.seen.mode && s.stored.until == f.seen.until
                  && s.stored.bypass == f.seen.bypass then AUTO else s.stored, None)
  }

  /** Any interleaving, from startup. */
  function After(ops: seq<Op>): Shared {
    if ops == [] then Shared(AUTO, None) else Next(After(ops[..|ops| - 1]), ops[|ops| - 1])
  }

  lemma AfterOneMore(ops: seq<Op>, op: Op)
    ensures After(ops + [op]) == Next(After(ops), op)
  {
    assert (ops + [op])[..|ops|] == ops;
  }

  // ----- the reference: what the history of calls says

  /** The last override set, Auto before the first. */
  function LastSet(ops: seq<Op>): Stored {
    if ops == [] then AUTO
    else if ops[|ops| - 1].Set? then Normalized(ops[|ops| - 1])
    else LastSet(ops[..|ops| - 1])
  }

  /** The time of the tick in flight, if one is between its critical sections. */
  function InFlight(ops: seq<Op>): Option<Time> {
    if ops == [] || ops[|ops| - 1].WriteBack? then None
    else if ops[|ops| - 1].Read? then Some(ops[|ops| - 1].now)
    else InFlight(ops[..|ops| - 1])
  }

  /** Since it was set, the last override was expired at the time of some tick that wrote back. */
  predicate RanOut(ops: seq<Op>) {
    ops != [] && !ops[|ops| - 1].Set? &&
    var before := ops[..|ops| - 1];
    (RanOut(before) || (ops[|ops| - 1].WriteBack? && InFlight(before).Some? && Expired(LastSet(before), InFlight(before).value)))
  }

  /** No tick so far ran later than `now`. */
  predicate NoTickAfter(ops: seq<Op>, now: Time) {
    forall i :: 0 <= i < |ops| && ops[i].Read? ==> ops[i].now <= now
  }

  lemma {:induction false} InFlightIsPast(ops: seq<Op>, now: Time)
    requires NoTickAfter(ops, now)
    ensures InFlight(ops).Some? ==> InFlight(ops).value <= now
  {
    if ops != [] && !ops[|ops| - 1].WriteBack? && !ops[|ops| - 1].Read? {
      InFlightIsPast(ops[..|ops| - 1], now);
    }
  }

  /** What ran out stays out of force. */
  lemma {:induction false} RanOutIsPast(ops: seq<Op>, now: Time)
    requires NoTickAfter(ops, now) && RanOut(ops)
    ensures LastSet(ops).mode != Override.Auto && LastSet(ops).until != 0 && now >= LastSet(ops).until
  {
    var before := ops[..|ops| - 1];
    InFlightIsPast(before, now);
    if RanOut(before) { RanOutIsPast(before, now); }
  }

  /** While the last override set is in force it is the one stored. */
  lemma StoredWhileInForce(ops: seq<Op>, now: Time)
    requires NoTickAfter(ops, now)
    ensures var o := LastSet(ops);
            After(ops).stored == o || (After(ops).stored == AUTO && o.mode != Override.Auto && o.until != 0 && now >= o.until)
  {
    NoLostOverride(ops);
    if RanOut(ops) { RanOutIsPast(ops, now); }
  }

  predicate WellFormed(s: Stored) {
    (s.bypass ==> s.mode == ForceOn) && (!s.bypass ==> s.bypassSoC == 0)
  }

  lemma {:induction false} Protocol(ops: seq<Op>)
    ensures var s := After(ops);
      && WellFormed(s.stored) && WellFormed(LastSet(ops))
      && (s.frame.Some? <==> InFlight(ops).Some?)
      && (s.frame.Some? ==> s.frame.value.now == InFlight(ops).value && WellFormed(s.frame.value.seen))
      && (s.stored == LastSet(ops) || (s.stored == AUTO && RanOut(ops)))
  {
    if ops != [] {
      Protocol(ops[..|ops| - 1]);
    }
  }

  /** No lost override: in every interleaving the stored override is the last one set, or Auto after
      that very one ran out at the time of a tick. */
  lemma NoLostOverride(ops: seq<Op>)
    ensures After(ops).stored == LastSet(ops) || (After(ops).stored == AUTO && RanOut(ops))
  {
    Protocol(ops);
  }

  /** A write-back that changes the stored override had it expired at its own tick's time, even when
      the override was replaced while the tick was in flight. */
  lemma WriteBackClearsOnlyExpired(ops: seq<Op>)
    requires After(ops + [WriteBack]).stored != After(ops).stored
    ensures InFlight(ops).Some? && Expired(After(ops).stored, InFlight(ops).value)
    ensures After(ops + [WriteBack]).stored == AUTO
  {
    assert (ops + [WriteBack])[..|ops|] == ops;
    Protocol(ops);
  }

  /** Conversely an override that is expired at a tick nobody interferes with does end. */
  lemma ExpiryTakesEffect(ops: seq<Op>, now: Time)
    requires var s := After(ops).stored; s.mode != Override.Auto && s.until != 0 && now >= s.until
    ensures After(ops + [Read(now), WriteBack]).stored == AUTO
  {
    var more := ops + [Read(now), WriteBack];
    assert more[..|more| - 1] == ops + [Read(now)];
    assert (ops + [Read(now)])[..|ops|] == ops;
  }

  /** At every step a bypass belongs to a ForceOn, and a target to a bypass. */
  lemma BypassBelongsToForceOn(ops: seq<Op>)
    ensures WellFormed(After(ops).stored)
  {
    Protocol(ops);
  }
}

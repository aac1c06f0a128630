/** Publishing one value over an unreliable link: send on change, when forced, or on the republish
    cadence. The mode and the SoC limit are two instances of the same machine. */
module Publish {
  import opened Config

  /** What one tick brings: the value wanted, whether the link is usable, whether an edge forces a
      send, and whether the send (if any) is acknowledged. */
  datatype Send<+V> = Send(now: Time, want: V, up: bool, force: bool, ok: bool)

  /** The last acknowledged value, None before the first, and when it was acknowledged. */
  datatype Pub<+V> = Pub(last: Option<V>, at: Time)

  /** An entry of the audit log: a value and when it was acknowledged. */
  datatype Said<+V> = Said(at: Time, v: V)

  predicate Attempted<V(==)>(republish: Time, p: Pub<V>, s: Send<V>) {
    s.up && (p.last != Some(s.want) || s.force || s.now - p.at >= republish)
  }

  function Next<V(==)>(republish: Time, p: Pub<V>, s: Send<V>): Pub<V> {
    if Attempted(republish, p, s) && s.ok then Pub(Some(s.want), s.now) else p
  }

  datatype Link<V(==)> = Link(republish: Time, sends: seq<Send<V>>)
  {
    /** The publisher's memory before tick `i`. */
    function At(i: nat): Pub<V> requires i <= |sends| {
      if i == 0 then Pub(None, 0) else Next(republish, At(i - 1), sends[i - 1])
    }

    predicate Tried(i: nat) requires i < |sends| {
      Attempted(republish, At(i), sends[i])
    }

    predicate Delivered(i: nat) requires i < |sends| {
      Tried(i) && sends[i].ok
    }

    /** The values acknowledged during the first `i` ticks, in order. */
    function Deliveries(i: nat): seq<V> requires i <= |sends| {
      if i == 0 then [] else Deliveries(i - 1) + if Delivered(i - 1) then [sends[i - 1].want] else []
    }

    /** The audit events of the first `i` ticks: acknowledged sends of a value other than the last
        one, not counting the very first unless `logFirst`. */
    function Events(i: nat, logFirst: bool): seq<Said<V>> requires i <= |sends| {
      if i == 0 then []
      else Events(i - 1, logFirst)
           + if Delivered(i - 1) && At(i - 1).last != Some(sends[i - 1].want) && (logFirst || At(i - 1).last.Some?)
             then [Said(sends[i - 1].now, sends[i - 1].want)] else []
    }

    ghost predicate Timed() {
      forall i, j :: 0 <= i <= j < |sends| ==> sends[i].now <= sends[j].now
    }
  }

  function LastOf<V>(s: seq<V>): Option<V> {
    if s == [] then None else Some(s[|s| - 1])
  }

  /** Consecutive repeats collapsed. */
  function Dedup<V(==)>(s: seq<V>): seq<V> {
    if s == [] then []
    else Dedup(s[..|s| - 1]) + if LastOf(s[..|s| - 1]) == LastOf(s) then [] else [s[|s| - 1]]
  }

  function Rest<V>(s: seq<V>): seq<V> {
    if s == [] then [] else s[1..]
  }

  function Values<V>(s: seq<Said<V>>): seq<V> {
    if s == [] then [] else Values(s[..|s| - 1]) + [s[|s| - 1].v]
  }

  lemma ValuesAppend<V>(s: seq<Said<V>>, e: Said<V>)
    ensures Values(s + [e]) == Values(s) + [e.v]
  {
    assert (s + [e])[..|s|] == s;
  }

  lemma DedupAppend<V>(s: seq<V>, v: V)
    ensures Dedup(s + [v]) == Dedup(s) + if LastOf(s) == Some(v) then [] else [v]
  {
    assert (s + [v])[..|s|] == s;
  }

  lemma {:induction false} DedupNonempty<V>(s: seq<V>)
    ensures s != [] ==> Dedup(s) != []
  {
    if s != [] {
      DedupNonempty(s[..|s| - 1]);
    }
  }

  /** The memory is exactly the last acknowledged send. */
  lemma {:induction false} MemoryIsLastDelivery<V>(l: Link<V>, i: nat)
    requires i <= |l.sends|
    ensures l.At(i).last == LastOf(l.Deliveries(i))
    ensures l.At(i).last.Some? ==>
              exists j :: 0 <= j < i && l.Delivered(j) && l.At(i) == Pub(Some(l.sends[j].want), l.sends[j].now)
  {
    if i > 0 {
      MemoryIsLastDelivery(l, i - 1);
      if l.Delivered(i - 1) { assert l.At(i) == Pub(Some(l.sends[i - 1].want), l.sends[i - 1].now); }
    }
  }

  /** After every tick with the link up, evcc was last told the wanted value, or an attempt to tell it
      failed in that very tick. Under arbitrary failures. */
  lemma DeliveredOrFailedNow<V>(l: Link<V>, i: nat)
    requires i < |l.sends| && l.sends[i].up
    ensures LastOf(l.Deliveries(i + 1)) == Some(l.sends[i].want) || (l.Tried(i) && !l.sends[i].ok)
  {
    MemoryIsLastDelivery(l, i);
    MemoryIsLastDelivery(l, i + 1);
  }

  /** An edge forces an attempt with the current value, whatever was sent before. */
  lemma EdgeResends<V>(l: Link<V>, i: nat)
    requires i < |l.sends| && l.sends[i].up && l.sends[i].force
    ensures l.Tried(i)
    ensures l.sends[i].ok ==> l.Deliveries(i + 1) == l.Deliveries(i) + [l.sends[i].want]
  {
  }

  /** The tick that made the last delivery before tick `i`. */
  function Latest<V>(l: Link<V>, i: nat): (j: Option<nat>)
    requires i <= |l.sends|
    ensures j.Some? ==> j.value < i && l.Delivered(j.value) && forall k :: j.value < k < i ==> !l.Delivered(k)
    ensures j.None? ==> forall k :: 0 <= k < i ==> !l.Delivered(k)
  {
    if i == 0 then None else if l.Delivered(i - 1) then Some(i - 1) else Latest(l, i - 1)
  }

  lemma {:induction false} MemoryIsLatest<V>(l: Link<V>, i: nat)
    requires i <= |l.sends|
    ensures var j := Latest(l, i);
            l.At(i) == if j.None? then Pub(None, 0) else Pub(Some(l.sends[j.value].want), l.sends[j.value].now)
  {
    if i > 0 { MemoryIsLatest(l, i - 1); }
  }

  /** With the link up a tick stays silent exactly if no edge forces it and the last delivery carried
      the same value less than a republish interval ago. */
  lemma SilentExactly<V>(l: Link<V>, i: nat)
    requires i < |l.sends| && l.sends[i].up
    ensures var j := Latest(l, i);
            !l.Tried(i) <==> !l.sends[i].force && j.Some? && l.sends[j.value].want == l.sends[i].want
                             && l.sends[i].now - l.sends[j.value].now < l.republish
  {
    MemoryIsLatest(l, i);
  }

  /** Nothing was delivered before tick `i`, or another value, or this one a republish interval ago. */
  predicate Due<V(==)>(l: Link<V>, i: nat) requires i < |l.sends| {
    var j := Latest(l, i);
    j.None? || l.sends[j.value].want != l.sends[i].want || l.sends[i].now - l.sends[j.value].now >= l.republish
  }

  lemma TriedExactly<V>(l: Link<V>, i: nat)
    requires i < |l.sends|
    ensures l.Tried(i) <==> l.sends[i].up && (l.sends[i].force || Due(l, i))
  {
    if l.sends[i].up { SilentExactly(l, i); }
  }

  lemma {:induction false} FirstAtOrAfter<V>(l: Link<V>, t: Time, i: nat) returns (k: nat)
    requires i < |l.sends| && t <= l.sends[i].now
    ensures k <= i && t <= l.sends[k].now
    ensures forall j :: 0 <= j < k ==> l.sends[j].now < t
    decreases i
  {
    if j :| 0 <= j < i && t <= l.sends[j].now {
      k := FirstAtOrAfter(l, t, j);
    } else {
      k := i;
    }
  }

  /** The tick that first comes a republish interval or more after `t` is at most `gap` after the tick
      before it, and every send up to then goes through. Elsewhere ticks may be as late as they like. */
  ghost predicate Attentive<V>(l: Link<V>, t: Time, gap: Time) {
    && (forall j :: 0 < j < |l.sends| && l.sends[j - 1].now < t + l.republish <= l.sends[j].now ==>
          l.sends[j].now - l.sends[j - 1].now <= gap)
    && forall j :: 0 <= j < |l.sends| && t < l.sends[j].now <= t + l.republish + gap ==> l.sends[j].up && l.sends[j].ok
  }

  /** Dead-man re-assertion: whenever evcc forgets, at any time `t` from the first tick on, and edge or
      no edge, a tick no later than `t + republish + gap` delivers the value wanted then. */
  lemma ReassertedInTime<V>(l: Link<V>, t: Time, gap: Time, n: nat) returns (k: nat)
    requires l.Timed() && l.republish > 0 && n < |l.sends| && Attentive(l, t, gap)
    requires l.sends[0].now <= t && t + l.republish <= l.sends[n].now
    ensures k < |l.sends| && t < l.sends[k].now <= t + l.republish + gap
    ensures l.Delivered(k)
  {
    k := FirstAtOrAfter(l, t + l.republish, n);
    assert k > 0;
    assert l.sends[k - 1].now < t + l.republish;
    if !l.Delivered(k) {
      MemoryIsLastDelivery(l, k);
      assert l.At(k).last.Some?;
      var j :| 0 <= j < k && l.Delivered(j) && l.At(k) == Pub(Some(l.sends[j].want), l.sends[j].now);
      assert l.sends[j].now <= l.sends[k].now;
      k := j;
    }
  }

  /** The audit log is the list of acknowledged sends with consecutive repeats removed; the log that
      skips the first send lacks exactly its first entry. */
  lemma {:induction false} EventsReplaySends<V>(l: Link<V>, i: nat)
    requires i <= |l.sends|
    ensures Values(l.Events(i, true)) == Dedup(l.Deliveries(i))
    ensures Values(l.Events(i, false)) == Rest(Dedup(l.Deliveries(i)))
  {
    hide Values, Dedup, Rest, Link.Events, Link.Deliveries, Link.Delivered, Link.At, LastOf;
    if i == 0 {
      NothingSent(l);
    } else {
      EventsReplaySends(l, i - 1);
      MemoryIsLastDelivery(l, i - 1);
      EventsUnfold(l, i - 1);
      var s := l.sends[i - 1];
      ReplayStep(l.Deliveries(i - 1), l.Events(i - 1, true), l.Events(i - 1, false), Said(s.now, s.want));
    }
  }

  lemma NothingSent<V>(l: Link<V>)
    ensures l.Deliveries(0) == [] && l.Events(0, true) == [] && l.Events(0, false) == []
    ensures Values(l.Events(0, true)) == Dedup(l.Deliveries(0)) && Values(l.Events(0, false)) == Rest(Dedup(l.Deliveries(0)))
  {
  }

  lemma EventsUnfold<V>(l: Link<V>, i: nat)
    requires i < |l.sends|
    ensures var s, last := l.sends[i], l.At(i).last;
            && l.Deliveries(i + 1) == (if l.Delivered(i) then l.Deliveries(i) + [s.want] else l.Deliveries(i))
            && l.Events(i + 1, true) == (if l.Delivered(i) && last != Some(s.want)
                                         then l.Events(i, true) + [Said(s.now, s.want)] else l.Events(i, true))
            && l.Events(i + 1, false) == (if l.Delivered(i) && last != Some(s.want) && last.Some?
                                          then l.Events(i, false) + [Said(s.now, s.want)] else l.Events(i, false))
  {
  }

  lemma ReplayStep<V>(was: seq<V>, all: seq<Said<V>>, rest: seq<Said<V>>, e: Said<V>)
    requires Values(all) == Dedup(was) && Values(rest) == Rest(Dedup(was))
    ensures Values(if LastOf(was) != Some(e.v) then all + [e] else all) == Dedup(was + [e.v])
    ensures Values(if LastOf(was) != Some(e.v) && LastOf(was).Some? then rest + [e] else rest) == Rest(Dedup(was + [e.v]))
  {
    hide Values, Dedup, Rest;
    DedupNonempty(was);
    DedupEmpty(was);
    DedupAppend(was, e.v);
    ValuesAppend(all, e);
    ValuesAppend(rest, e);
    RestAppend(Dedup(was), e.v);
    assert Dedup(was) + [] == Dedup(was);
  }

  lemma DedupEmpty<V>(s: seq<V>)
    ensures s == [] ==> Dedup(s) == [] && Rest(Dedup(s)) == []
  {
  }

  lemma RestAppend<V>(s: seq<V>, v: V)
    ensures Rest(s + [v]) == if s == [] then [] else Rest(s) + [v]
  {
  }

  /** Every entry of the audit log tells a delivery by its value and its very time. */
  lemma {:induction false} EventsTellDeliveries<V>(l: Link<V>, i: nat, logFirst: bool, e: Said<V>)
    requires i <= |l.sends| && e in l.Events(i, logFirst)
    ensures exists j :: 0 <= j < i && l.Delivered(j) && l.sends[j].now == e.at && l.sends[j].want == e.v
  {
    if e in l.Events(i - 1, logFirst) {
      EventsTellDeliveries(l, i - 1, logFirst, e);
    } else {
      assert l.Delivered(i - 1);
    }
  }

  // ----- growing a link by one send

  lemma {:induction false} SamePast<V>(l: Link<V>, m: Link<V>, i: nat)
    requires l.republish == m.republish && i <= |l.sends| <= |m.sends| && m.sends[..|l.sends|] == l.sends
    ensures m.At(i) == l.At(i) && m.Deliveries(i) == l.Deliveries(i)
    ensures m.Events(i, true) == l.Events(i, true) && m.Events(i, false) == l.Events(i, false)
  {
    if i > 0 {
      SamePast(l, m, i - 1);
      assert m.sends[i - 1] == m.sends[..|l.sends|][i - 1];
    }
  }

  lemma LinkGrows<V>(l: Link<V>, s: Send<V>)
    ensures var m, p := Link(l.republish, l.sends + [s]), l.At(|l.sends|);
            var logged := Attempted(l.republish, p, s) && s.ok && p.last != Some(s.want);
            && m.At(|m.sends|) == Next(l.republish, p, s)
            && m.Deliveries(|m.sends|) == l.Deliveries(|l.sends|) + (if Attempted(l.republish, p, s) && s.ok then [s.want] else [])
            && m.Events(|m.sends|, true) == l.Events(|l.sends|, true) + (if logged then [Said(s.now, s.want)] else [])
            && m.Events(|m.sends|, false) == l.Events(|l.sends|, false) + (if logged && p.last.Some? then [Said(s.now, s.want)] else [])
  {
    var m := Link(l.republish, l.sends + [s]);
    assert m.sends[..|l.sends|] == l.sends;
    SamePast(l, m, |l.sends|);
  }
}

/** The latest-known evcc state: MQTT messages are routed by topic and overwrite one metric each. */
module Evcc {
  import opened Config
  import opened Text

  datatype Metric<T> = Metric(value: T, at: Time, seen: bool)

  datatype Snapshot = Snapshot(
    grid: Metric<real>, pv: Metric<real>, home: Metric<real>, batteryPower: Metric<real>,
    batterySoC: Metric<real>, chargePower: Metric<real>, vehicleSoC: Metric<real>, limitSoC: Metric<real>,
    charging: Metric<bool>, connected: Metric<bool>, enabled: Metric<bool>,
    mode: Metric<string>, online: Metric<bool>, brokerConnected: bool)

  const NO_FLOAT := Metric(0.0, 0, false)
  const NO_BOOL := Metric(false, 0, false)
  const NOTHING_SEEN := Snapshot(NO_FLOAT, NO_FLOAT, NO_FLOAT, NO_FLOAT, NO_FLOAT, NO_FLOAT, NO_FLOAT, NO_FLOAT,
                                 NO_BOOL, NO_BOOL, NO_BOOL, Metric("", 0, false), NO_BOOL, false)

  /** The read topics, one string per metric. */
  datatype Topics = Topics(
    gridPower: string, pvPower: string, homePower: string, batterySoC: string, batteryPower: string,
    status: string, chargePower: string, charging: string, connected: string, enabled: string,
    vehicleSoC: string, mode: string, limitSoC: string)

  datatype Channel =
    | Grid | PVPower | Home | BatteryPower | BatterySoC | ChargePower | VehicleSoC | LimitSoC
    | Charging | Connected | Enabled | ModeTopic | Status

  function NewTopics(prefix: string, loadpoint: string): Topics {
    var lp := prefix + "/loadpoints/" + loadpoint;
    Topics(
      gridPower := prefix + "/site/grid/power", pvPower := prefix + "/site/pvPower",
      homePower := prefix + "/site/homePower", batterySoC := prefix + "/site/battery/soc",
      batteryPower := prefix + "/site/battery/power", status := prefix + "/status",
      chargePower := lp + "/chargePower", charging := lp + "/charging", connected := lp + "/connected",
      enabled := lp + "/enabled", vehicleSoC := lp + "/vehicleSoc", mode := lp + "/mode",
      limitSoC := lp + "/limitSoc")
  }

  /** The topic a metric is published on. */
  function TopicOf(t: Topics, c: Channel): string {
    match c
    case Grid => t.gridPower case PVPower => t.pvPower case Home => t.homePower
    case BatteryPower => t.batteryPower case BatterySoC => t.batterySoC case ChargePower => t.chargePower
    case VehicleSoC => t.vehicleSoC case LimitSoC => t.limitSoC case Charging => t.charging
    case Connected => t.connected case Enabled => t.enabled case ModeTopic => t.mode case Status => t.status
  }

  /** The metric a message updates: topics are compared in this order. */
  function Route(t: Topics, topic: string): Option<Channel> {
    if topic == t.gridPower then Some(Grid)
    else if topic == t.pvPower then Some(PVPower)
    else if topic == t.homePower then Some(Home)
    else if topic == t.batteryPower then Some(BatteryPower)
    else if topic == t.batterySoC then Some(BatterySoC)
    else if topic == t.chargePower then Some(ChargePower)
    else if topic == t.vehicleSoC then Some(VehicleSoC)
    else if topic == t.limitSoC then Some(LimitSoC)
    else if topic == t.charging then Some(Charging)
    else if topic == t.connected then Some(Connected)
    else if topic == t.enabled then Some(Enabled)
    else if topic == t.mode then Some(ModeTopic)
    else if topic == t.status then Some(Status)
    else None
  }

  lemma SuffixDecides(a: string, s: string, t: string)
    requires s != t
    ensures a + s != a + t
  {
    assert (a + s)[|a|..] == s;
    assert (a + t)[|a|..] == t;
  }

  function Tail(c: Channel): string {
    match c
    case Grid => "/site/grid/power" case PVPower => "/site/pvPower" case Home => "/site/homePower"
    case BatteryPower => "/site/battery/power" case BatterySoC => "/site/battery/soc" case Status => "/status"
    case ChargePower => "/chargePower" case VehicleSoC => "/vehicleSoc" case LimitSoC => "/limitSoc"
    case Charging => "/charging" case Connected => "/connected" case Enabled => "/enabled"
    case ModeTopic => "/mode"
  }

  predicate SiteChannel(c: Channel) {
    c.Grid? || c.PVPower? || c.Home? || c.BatteryPower? || c.BatterySoC? || c.Status?
  }

  lemma TailsDiffer(c: Channel, d: Channel)
    requires SiteChannel(c) == SiteChannel(d)
    ensures Tail(c) == Tail(d) ==> c == d
  {
  }

  function Base(prefix: string, loadpoint: string, c: Channel): string {
    if SiteChannel(c) then prefix else prefix + "/loadpoints/" + loadpoint
  }

  lemma TopicShape(prefix: string, loadpoint: string, c: Channel)
    ensures TopicOf(NewTopics(prefix, loadpoint), c) == Base(prefix, loadpoint, c) + Tail(c)
  {
  }

  lemma BranchLetter(prefix: string, loadpoint: string, c: Channel)
    ensures var full := Base(prefix, loadpoint, c) + Tail(c);
            |full| > |prefix| + 1 && full[|prefix| + 1] == if SiteChannel(c) then 's' else 'l'
  {
    if SiteChannel(c) {
      assert Tail(c)[1] == 's';
    } else {
      assert "/loadpoints/"[1] == 'l';
      assert (prefix + "/loadpoints/")[|prefix| + 1] == 'l';
    }
  }

  /** Whatever the prefix and loadpoint, no two metrics share a topic. */
  lemma TopicsAreDistinct(prefix: string, loadpoint: string, c: Channel, d: Channel)
    requires c != d
    ensures TopicOf(NewTopics(prefix, loadpoint), c) != TopicOf(NewTopics(prefix, loadpoint), d)
  {
    TopicShape(prefix, loadpoint, c);
    TopicShape(prefix, loadpoint, d);
    if SiteChannel(c) == SiteChannel(d) {
      TailsDiffer(c, d);
      SuffixDecides(Base(prefix, loadpoint, c), Tail(c), Tail(d));
    } else {
      BranchLetter(prefix, loadpoint, c);
      BranchLetter(prefix, loadpoint, d);
    }
  }

  /** A message published on a metric's own topic reaches exactly that metric. */
  lemma RoutesToOwnMetric(prefix: string, loadpoint: string, c: Channel)
    ensures var t := NewTopics(prefix, loadpoint); Route(t, TopicOf(t, c)) == Some(c)
  {
    var t := NewTopics(prefix, loadpoint);
    forall d: Channel | d != c ensures TopicOf(t, c) != TopicOf(t, d) {
      TopicsAreDistinct(prefix, loadpoint, c, d);
    }
    assert TopicOf(t, Grid) == t.gridPower && TopicOf(t, PVPower) == t.pvPower && TopicOf(t, Home) == t.homePower;
    assert TopicOf(t, BatteryPower) == t.batteryPower && TopicOf(t, BatterySoC) == t.batterySoC;
    assert TopicOf(t, ChargePower) == t.chargePower && TopicOf(t, VehicleSoC) == t.vehicleSoC;
    assert TopicOf(t, LimitSoC) == t.limitSoC && TopicOf(t, Charging) == t.charging;
    assert TopicOf(t, Connected) == t.connected && TopicOf(t, Enabled) == t.enabled && TopicOf(t, ModeTopic) == t.mode;
  }

  // ----- payloads

  /** The decimal parser is a library function; every law here holds for any. */
  type Parser = string -> Option<real>

  predicate IsFloat(c: Channel) {
    || c.Grid? || c.PVPower? || c.Home? || c.BatteryPower? || c.BatterySoC? || c.ChargePower?
    || c.VehicleSoC? || c.LimitSoC?
  }

  predicate WellFormed(parse: Parser, c: Channel, payload: string) {
    if IsFloat(c) then parse(TrimSpace(payload)).Some?
    else if c.Charging? || c.Connected? || c.Enabled? then TrimSpace(payload) == "true" || TrimSpace(payload) == "false"
    else true
  }

  // ----- the reference: what the whole history says

  datatype Event = Message(topic: string, payload: string, at: Time) | Connection(up: bool)

  datatype Feed = Feed(topics: Topics, parse: Parser, events: seq<Event>)
  {
    predicate Accepted(e: Event, c: Channel) {
      e.Message? && Route(topics, e.topic) == Some(c) && WellFormed(parse, c, e.payload)
    }

    /** The last well-formed message on a channel. */
    function Last(c: Channel): (m: Option<Event>)
      ensures m.Some? ==> Accepted(m.value, c)
      decreases |events|
    {
      if events == [] then None
      else if Accepted(events[|events| - 1], c) then Some(events[|events| - 1])
      else Feed(topics, parse, events[..|events| - 1]).Last(c)
    }

    /** The last reported broker connection state; disconnected until first reported. */
    function Up(): bool decreases |events| {
      if events == [] then false
      else if events[|events| - 1].Connection? then events[|events| - 1].up
      else Feed(topics, parse, events[..|events| - 1]).Up()
    }

    function FloatOf(c: Channel): Metric<real> requires IsFloat(c) {
      var m := Last(c);
      if m.None? then Metric(0.0, 0, false) else Metric(parse(TrimSpace(m.value.payload)).value, m.value.at, true)
    }

    function BoolOf(c: Channel): Metric<bool> {
      var m := Last(c);
      if m.None? then Metric(false, 0, false) else Metric(TrimSpace(m.value.payload) == "true", m.value.at, true)
    }

    function ModeOf(): Metric<string> {
      var m := Last(ModeTopic);
      if m.None? then Metric("", 0, false) else Metric(m.value.payload, m.value.at, true)
    }

    function OnlineOf(): Metric<bool> {
      var m := Last(Status);
      if m.None? then Metric(false, 0, false) else Metric(m.value.payload == "online", m.value.at, true)
    }

    lemma {:induction false} LastIsFromHistory(c: Channel)
      ensures Last(c).Some? ==> Last(c).value in events
      decreases |events|
    {
      if events != [] { Feed(topics, parse, events[..|events| - 1]).LastIsFromHistory(c); }
    }

    function Then(e: Event): Feed {
      Feed(topics, parse, events + [e])
    }

    lemma LastAfter(e: Event, c: Channel)
      ensures Then(e).Last(c) == if Accepted(e, c) then Some(e) else Last(c)
    {
      assert Then(e).events[..|events|] == events;
    }

    lemma UpAfter(e: Event)
      ensures Then(e).Up() == if e.Connection? then e.up else Up()
    {
      assert Then(e).events[..|events|] == events;
    }
  }

  /** A metric is its channel's last well-formed message, whatever else arrived in between. */
  predicate Agrees(s: Snapshot, f: Feed, c: Channel) {
    match c
    case Grid => s.grid == f.FloatOf(c)
    case PVPower => s.pv == f.FloatOf(c)
    case Home => s.home == f.FloatOf(c)
    case BatteryPower => s.batteryPower == f.FloatOf(c)
    case BatterySoC => s.batterySoC == f.FloatOf(c)
    case ChargePower => s.chargePower == f.FloatOf(c)
    case VehicleSoC => s.vehicleSoC == f.FloatOf(c)
    case LimitSoC => s.limitSoC == f.FloatOf(c)
    case Charging => s.charging == f.BoolOf(c)
    case Connected => s.connected == f.BoolOf(c)
    case Enabled => s.enabled == f.BoolOf(c)
    case ModeTopic => s.mode == f.ModeOf()
    case Status => s.online == f.OnlineOf()
  }

  ghost predicate Reflects(s: Snapshot, f: Feed) {
    s.brokerConnected == f.Up() && forall c: Channel :: Agrees(s, f, c)
  }

  /** One message's effect on a snapshot. */
  function Overwrite(parse: Parser, s: Snapshot, c: Channel, payload: string, at: Time): Snapshot
    requires WellFormed(parse, c, payload)
  {
    if IsFloat(c) then
      var v := Metric(parse(TrimSpace(payload)).value, at, true);
      match c
      case Grid => s.(grid := v)
      case PVPower => s.(pv := v)
      case Home => s.(home := v)
      case BatteryPower => s.(batteryPower := v)
      case BatterySoC => s.(batterySoC := v)
      case ChargePower => s.(chargePower := v)
      case VehicleSoC => s.(vehicleSoC := v)
      case _ => s.(limitSoC := v)
    else
      var b := Metric(TrimSpace(payload) == "true", at, true);
      match c
      case Charging => s.(charging := b)
      case Connected => s.(connected := b)
      case Enabled => s.(enabled := b)
      case ModeTopic => s.(mode := Metric(payload, at, true))
      case _ => s.(online := Metric(payload == "online", at, true))
  }

  /** What one event does to the snapshot: overwrite the routed metric, set the link flag, or nothing. */
  function Absorb(topics: Topics, parse: Parser, s: Snapshot, e: Event): Snapshot {
    match e
    case Connection(up) => s.(brokerConnected := up)
    case Message(topic, payload, at) =>
      var c := Route(topics, topic);
      if c.Some? && WellFormed(parse, c.value, payload) then Overwrite(parse, s, c.value, payload, at) else s
  }

  /** Channels whose last message did not change agree as before, as long as their metric was left alone. */
  lemma Untouched(s: Snapshot, f: Feed, e: Event, c: Channel, d: Channel)
    requires Agrees(s, f, d) && !f.Accepted(e, d)
    requires c != d && e.Message? && WellFormed(f.parse, c, e.payload)
    ensures Agrees(Overwrite(f.parse, s, c, e.payload, e.at), f.Then(e), d)
  {
  }

  lemma Touched(s: Snapshot, f: Feed, e: Event, c: Channel)
    requires f.Accepted(e, c)
    ensures Agrees(Overwrite(f.parse, s, c, e.payload, e.at), f.Then(e), c)
  {
    f.LastAfter(e, c);
  }

  /** Overwriting the routed metric is all it takes to stay in step with the whole history. */
  lemma MessageReflected(s: Snapshot, f: Feed, e: Event)
    requires e.Message? && Reflects(s, f)
    ensures var c := Route(f.topics, e.topic);
            Reflects(if c.Some? && WellFormed(f.parse, c.value, e.payload)
                     then Overwrite(f.parse, s, c.value, e.payload, e.at) else s, f.Then(e))
  {
    f.UpAfter(e);
    var c := Route(f.topics, e.topic);
    if c.Some? && WellFormed(f.parse, c.value, e.payload) {
      var s' := Overwrite(f.parse, s, c.value, e.payload, e.at);
      forall d: Channel ensures Agrees(s', f.Then(e), d) {
        assert Agrees(s, f, d);
        if c == Some(d) { Touched(s, f, e, d); } else { Untouched(s, f, e, c.value, d); }
      }
    } else {
      forall d: Channel ensures Agrees(s, f.Then(e), d) {
        assert Agrees(s, f, d);
        f.LastAfter(e, d);
      }
    }
  }

  lemma ConnectionReflected(s: Snapshot, f: Feed, up: bool)
    requires Reflects(s, f)
    ensures Reflects(s.(brokerConnected := up), f.Then(Connection(up)))
  {
    f.UpAfter(Connection(up));
    forall d: Channel ensures Agrees(s.(brokerConnected := up), f.Then(Connection(up)), d) {
      assert Agrees(s, f, d);
      f.LastAfter(Connection(up), d);
    }
  }

  /** Absorbing events one at a time keeps the snapshot in step with the whole history. */
  lemma AbsorbedReflected(s: Snapshot, f: Feed, e: Event)
    requires Reflects(s, f)
    ensures Reflects(Absorb(f.topics, f.parse, s, e), f.Then(e))
  {
    match e
    case Connection(up) => ConnectionReflected(s, f, up);
    case Message(_, _, _) => MessageReflected(s, f, e);
  }

  /** The live store. It keeps only the latest value of each metric; `feed` is its ghost history. */
  class Store {
    const topics: Topics
    const parse: Parser
    var snap: Snapshot
    ghost var feed: Feed

    ghost predicate Valid() reads this {
      feed.topics == topics && feed.parse == parse && Reflects(snap, feed)
    }

    constructor (topics: Topics, parse: Parser)
      ensures Valid() && feed == Feed(topics, parse, []) && snap == NOTHING_SEEN
      ensures this.topics == topics && this.parse == parse
    {
      this.topics := topics;
      this.parse := parse;
      snap := NOTHING_SEEN;
      feed := Feed(topics, parse, []);
    }

    method SetBrokerConnected(up: bool)
      requires Valid()
      modifies this
      ensures Valid() && feed == old(feed).Then(Connection(up))
      ensures snap == Absorb(topics, parse, old(snap), Connection(up))
    {
      ConnectionReflected(snap, feed, up);
      snap := snap.(brokerConnected := up);
      feed := feed.Then(Connection(up));
    }

    method ParseFloat(payload: string, at: Time, was: Metric<real>) returns (field: Metric<real>, ok: bool)
      ensures ok == parse(TrimSpace(payload)).Some?
      ensures field == if ok then Metric(parse(TrimSpace(payload)).value, at, true) else was
    {
      var v := parse(TrimSpace(payload));
      if v.None? { return was, false; }
      return Metric(v.value, at, true), true;
    }

    method ParseBool(payload: string, at: Time, was: Metric<bool>) returns (field: Metric<bool>, ok: bool)
      ensures ok == (TrimSpace(payload) == "true" || TrimSpace(payload) == "false")
      ensures field == if ok then Metric(TrimSpace(payload) == "true", at, true) else was
    {
      var p := TrimSpace(payload);
      if p == "true" { return Metric(true, at, true), true; }
      if p == "false" { return Metric(false, at, true), true; }
      return was, false;
    }

    /** The topic switch: which metric the message overwrites, if any. */
    method Dispatch(topic: string, payload: string, at: Time) returns (next: Snapshot, ok: bool)
      ensures ok <==> Route(topics, topic).Some? && WellFormed(parse, Route(topics, topic).value, payload)
      ensures next == if ok then Overwrite(parse, snap, Route(topics, topic).value, payload, at) else snap
    {
      var t := topics;
      if topic == t.gridPower {
        var f; f, ok := ParseFloat(payload, at, snap.grid);
        return snap.(grid := f), ok;
      }
      if topic == t.pvPower {
        var f; f, ok := ParseFloat(payload, at, snap.pv);
        return snap.(pv := f), ok;
      }
      if topic == t.homePower {
        var f; f, ok := ParseFloat(payload, at, snap.home);
        return snap.(home := f), ok;
      }
      if topic == t.batteryPower {
        var f; f, ok := ParseFloat(payload, at, snap.batteryPower);
        return snap.(batteryPower := f), ok;
      }
      if topic == t.batterySoC {
        var f; f, ok := ParseFloat(payload, at, snap.batterySoC);
        return snap.(batterySoC := f), ok;
      }
      if topic == t.chargePower {
        var f; f, ok := ParseFloat(payload, at, snap.chargePower);
        return snap.(chargePower := f), ok;
      }
      if topic == t.vehicleSoC {
        var f; f, ok := ParseFloat(payload, at, snap.vehicleSoC);
        return snap.(vehicleSoC := f), ok;
      }
      if topic == t.limitSoC {
        var f; f, ok := ParseFloat(payload, at, snap.limitSoC);
        return snap.(limitSoC := f), ok;
      }
      if topic == t.charging {
        var b; b, ok := ParseBool(payload, at, snap.charging);
        return snap.(charging := b), ok;
      }
      if topic == t.connected {
        var b; b, ok := ParseBool(payload, at, snap.connected);
        return snap.(connected := b), ok;
      }
      if topic == t.enabled {
        var b; b, ok := ParseBool(payload, at, snap.enabled);
        return snap.(enabled := b), ok;
      }
      if topic == t.mode { return snap.(mode := Metric(payload, at, true)), true; }
      if topic == t.status { return snap.(online := Metric(payload == "online", at, true)), true; }
      return snap, false;
    }

    /** Apply one message. Unknown topics and malformed payloads leave the snapshot alone. */
    method Apply(topic: string, payload: string, at: Time) returns (ok: bool)
      requires Valid()
      modifies this
      ensures Valid() && feed == old(feed).Then(Message(topic, payload, at))
      ensures ok <==> Route(topics, topic).Some? && WellFormed(parse, Route(topics, topic).value, payload)
      ensures snap == Absorb(topics, parse, old(snap), Message(topic, payload, at))
    {
      MessageReflected(snap, feed, Message(topic, payload, at));
      snap, ok := Dispatch(topic, payload, at);
      feed := feed.Then(Message(topic, payload, at));
    }
  }
}

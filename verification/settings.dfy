/** The persisted operator settings: validated, written to the database, then put in memory. A restart
    reads the table back. */
module Settings {
  import opened Config
  import opened Decimal

  // ----- keys and values as text

  datatype Key = ChargePowerKey | AutoProfileKey | StartThresholdKey(p: Profile) | TargetSoCKey(p: Profile)

  function ProfileText(p: Profile): string {
    match p case SurplusProfile => "surplus" case PowerLatch => "power_latch" case SurplusLatch => "surplus_latch"
  }

  function PowerText(m: PowerMode): string {
    match m case PV => "pv" case Now => "now"
  }

  function KeyText(k: Key): string {
    match k
    case ChargePowerKey => "charge_power"
    case AutoProfileKey => "auto_profile"
    case StartThresholdKey(p) => "start_threshold_w:" + ProfileText(p)
    case TargetSoCKey(p) => "target_soc:" + ProfileText(p)
  }

  lemma KeysDiffer(a: Key, b: Key)
    requires a != b
    ensures KeyText(a) != KeyText(b)
  {
    assert "charge_power"[0] == 'c' && "auto_profile"[0] == 'a';
    assert |KeyText(a)| == |KeyText(b)| ==> KeyText(a)[0] != KeyText(b)[0];
  }

  function ParsePower(s: string): Option<PowerMode> {
    if s == "pv" then Some(PV) else if s == "now" then Some(Now) else None
  }

  function ParseProfile(s: string): Option<Profile> {
    if s == "surplus" then Some(SurplusProfile)
    else if s == "power_latch" then Some(PowerLatch)
    else if s == "surplus_latch" then Some(SurplusLatch)
    else None
  }

  lemma NamesReadBack(m: PowerMode, p: Profile)
    ensures ParsePower(PowerText(m)) == Some(m) && ParseProfile(ProfileText(p)) == Some(p)
  {
    assert "now"[0] == 'n' && "pv"[0] == 'p';
    assert |"surplus"| == 7 && |"power_latch"| == 11 && |"surplus_latch"| == 13;
  }

  /** The library's float parser on anything but a plain digit string; every law holds for any. */
  type OtherForms = string -> Option<real>

  function ParseWatts(s: string, other: OtherForms): Option<real> {
    if s != "" && AllDigits(s) then Some(Value(s) as real) else other(s)
  }

  function ParseInt(s: string): Option<int> {
    var signed := s != "" && (s[0] == '+' || s[0] == '-');
    var digits := if signed then s[1..] else s;
    if digits == "" || !AllDigits(digits) then None
    else
      var n: int := if signed && s[0] == '-' then -(Value(digits) as int) else Value(digits);
      if -MAX_INT - 1 <= n <= MAX_INT then Some(n) else None
  }

  predicate IsLatch(p: Profile) { p != SurplusProfile }

  predicate ValidWatts(cfg: Control, w: real) {
    w > 0.0 && (w / 100.0).Floor as real * 100.0 == w && w > cfg.stopThresholdW
  }

  predicate ValidTarget(pct: int) { 50 <= pct <= 100 && pct % 10 == 0 }

  // ----- one setting

  datatype Entry = Power(m: PowerMode) | Active(a: Profile) | Watts(p: Profile, w: real) | Target(p: Profile, pct: int)

  predicate ValidEntry(cfg: Control, e: Entry) {
    match e
    case Power(_) => true
    case Active(_) => true
    case Watts(p, w) => IsLatch(p) && ValidWatts(cfg, w)
    case Target(p, pct) => IsLatch(p) && ValidTarget(pct)
  }

  function KeyOf(e: Entry): Key {
    match e
    case Power(_) => ChargePowerKey
    case Active(_) => AutoProfileKey
    case Watts(p, _) => StartThresholdKey(p)
    case Target(p, _) => TargetSoCKey(p)
  }

  function TextOf(cfg: Control, e: Entry): string
    requires ValidEntry(cfg, e)
  {
    match e
    case Power(m) => PowerText(m)
    case Active(p) => ProfileText(p)
    case Watts(_, w) => Itoa(w.Floor)
    case Target(_, pct) => Itoa(pct)
  }

  // ----- memory, and what a restart makes of the table

  datatype Live = Live(chargePower: PowerMode, autoProfile: Profile,
                       startThresholdW: map<Profile, real>, targetSoC: map<Profile, int>)

  type Table = map<string, string>

  function Stored(t: Table, k: Key): Option<string> {
    if KeyText(k) in t then Some(t[KeyText(k)]) else None
  }

  /** The value a restart accepts from a text stored under a key: None if it is invalid. */
  function Decode(cfg: Control, other: OtherForms, k: Key, s: string): (e: Option<Entry>)
    ensures e.Some? ==> ValidEntry(cfg, e.value) && KeyOf(e.value) == k
  {
    match k
    case ChargePowerKey =>
      var m := ParsePower(s); if m.None? then None else Some(Power(m.value))
    case AutoProfileKey =>
      var a := ParseProfile(s); if a.None? then None else Some(Active(a.value))
    case StartThresholdKey(p) =>
      var w := ParseWatts(s, other);
      if w.None? || !ValidWatts(cfg, w.value) || !IsLatch(p) then None else Some(Watts(p, w.value))
    case TargetSoCKey(p) =>
      var n := ParseInt(s);
      if n.None? || !ValidTarget(n.value) || !IsLatch(p) then None else Some(Target(p, n.value))
  }

  function ReadEntry(cfg: Control, t: Table, other: OtherForms, k: Key): (e: Option<Entry>)
    ensures e.Some? ==> ValidEntry(cfg, e.value) && KeyOf(e.value) == k
  {
    if KeyText(k) in t then Decode(cfg, other, k, t[KeyText(k)]) else None
  }

  function OrPower(e: Option<Entry>, default: PowerMode): PowerMode
    requires e.Some? ==> e.value.Power?
  {
    if e.Some? then e.value.m else default
  }

  function OrActive(e: Option<Entry>, default: Profile): Profile
    requires e.Some? ==> e.value.Active?
  {
    if e.Some? then e.value.a else default
  }

  function AddWatts(m: map<Profile, real>, e: Option<Entry>): map<Profile, real>
    requires e.Some? ==> e.value.Watts?
  {
    if e.Some? then m[e.value.p := e.value.w] else m
  }

  function AddTarget(m: map<Profile, int>, e: Option<Entry>): map<Profile, int>
    requires e.Some? ==> e.value.Target?
  {
    if e.Some? then m[e.value.p := e.value.pct] else m
  }

  /** Memory after startup: the accepted values over the configured defaults. */
  function Loaded(cfg: Control, t: Table, other: OtherForms): Live {
    Live(OrPower(ReadEntry(cfg, t, other, ChargePowerKey), cfg.enableMode),
         OrActive(ReadEntry(cfg, t, other, AutoProfileKey), cfg.autoProfile),
         AddWatts(AddWatts(map[], ReadEntry(cfg, t, other, StartThresholdKey(PowerLatch))),
                  ReadEntry(cfg, t, other, StartThresholdKey(SurplusLatch))),
         AddTarget(AddTarget(map[], ReadEntry(cfg, t, other, TargetSoCKey(PowerLatch))),
                   ReadEntry(cfg, t, other, TargetSoCKey(SurplusLatch))))
  }

  function Put(l: Live, e: Entry): Live {
    match e
    case Power(m) => l.(chargePower := m)
    case Active(a) => l.(autoProfile := a)
    case Watts(p, w) => l.(startThresholdW := l.startThresholdW[p := w])
    case Target(p, pct) => l.(targetSoC := l.targetSoC[p := pct])
  }

  lemma WholeWatts(w: real, hundreds: int)
    requires hundreds as real * 100.0 == w
    ensures w.Floor as real == w
  {
    assert (hundreds * 100) as real == w;
  }

  lemma WattsReadBack(cfg: Control, other: OtherForms, w: real)
    requires ValidWatts(cfg, w)
    ensures w.Floor > 0 && ParseWatts(Itoa(w.Floor), other) == Some(w)
  {
    WholeWatts(w, (w / 100.0).Floor);
    ItoaReadsBack(w.Floor);
  }

  lemma TargetReadsBack(pct: int)
    requires ValidTarget(pct)
    ensures ParseInt(Itoa(pct)) == Some(pct)
  {
    ItoaReadsBack(pct);
    assert IsDigit(Itoa(pct)[0]);
  }

  /** What is printed reads back as what was printed. */
  lemma TextReadsBack(cfg: Control, other: OtherForms, e: Entry)
    requires ValidEntry(cfg, e)
    ensures Decode(cfg, other, KeyOf(e), TextOf(cfg, e)) == Some(e)
  {
    match e
    case Power(m) => NamesReadBack(m, SurplusProfile);
    case Active(p) => NamesReadBack(PV, p);
    case Watts(_, w) => WattsReadBack(cfg, other, w);
    case Target(_, pct) => TargetReadsBack(pct);
  }

  function Written(cfg: Control, t: Table, e: Entry): Table requires ValidEntry(cfg, e) {
    t[KeyText(KeyOf(e)) := TextOf(cfg, e)]
  }

  /** Writing an entry and reading it back gives that entry; every other key reads as before. */
  lemma WriteReadsBack(cfg: Control, t: Table, other: OtherForms, e: Entry, k: Key)
    requires ValidEntry(cfg, e)
    ensures ReadEntry(cfg, Written(cfg, t, e), other, k) == if k == KeyOf(e) then Some(e) else ReadEntry(cfg, t, other, k)
  {
    if k != KeyOf(e) {
      KeysDiffer(k, KeyOf(e));
    } else {
      TextReadsBack(cfg, other, e);
    }
  }

  /** One setting as memory holds it. */
  function Get(l: Live, k: Key): Option<Entry> {
    match k
    case ChargePowerKey => Some(Power(l.chargePower))
    case AutoProfileKey => Some(Active(l.autoProfile))
    case StartThresholdKey(p) => if p in l.startThresholdW then Some(Watts(p, l.startThresholdW[p])) else None
    case TargetSoCKey(p) => if p in l.targetSoC then Some(Target(p, l.targetSoC[p])) else None
  }

  lemma SettingsDetermineMemory(l: Live, m: Live)
    requires forall k: Key :: Get(l, k) == Get(m, k)
    ensures l == m
  {
    assert Get(l, ChargePowerKey) == Get(m, ChargePowerKey) && Get(l, AutoProfileKey) == Get(m, AutoProfileKey);
    forall p: Profile ensures p in l.startThresholdW <==> p in m.startThresholdW
                      ensures p in l.startThresholdW ==> l.startThresholdW[p] == m.startThresholdW[p] {
      assert Get(l, StartThresholdKey(p)) == Get(m, StartThresholdKey(p));
    }
    forall p: Profile ensures p in l.targetSoC <==> p in m.targetSoC
                      ensures p in l.targetSoC ==> l.targetSoC[p] == m.targetSoC[p] {
      assert Get(l, TargetSoCKey(p)) == Get(m, TargetSoCKey(p));
    }
    assert l.startThresholdW == m.startThresholdW && l.targetSoC == m.targetSoC;
  }

  /** One setting after a restart: the accepted stored value, else the default. */
  function Default(cfg: Control, k: Key): Option<Entry> {
    match k
    case ChargePowerKey => Some(Power(cfg.enableMode))
    case AutoProfileKey => Some(Active(cfg.autoProfile))
    case _ => None
  }

  lemma LoadedSetting(cfg: Control, t: Table, other: OtherForms, k: Key)
    ensures var e := ReadEntry(cfg, t, other, k);
            Get(Loaded(cfg, t, other), k) == if e.Some? then e else Default(cfg, k)
  {
  }

  /** Over an empty table memory holds the configured mode and profile, and no profile has values of its
      own. */
  lemma EmptyTableLoadsDefaults(cfg: Control, other: OtherForms)
    ensures Loaded(cfg, map[], other) == Live(cfg.enableMode, cfg.autoProfile, map[], map[])
  {
  }

  lemma LoadedAfterWrite(cfg: Control, t: Table, other: OtherForms, e: Entry, k: Key)
    requires ValidEntry(cfg, e)
    ensures Get(Loaded(cfg, Written(cfg, t, e), other), k)
            == if k == KeyOf(e) then Some(e) else Get(Loaded(cfg, t, other), k)
  {
    LoadedSetting(cfg, t, other, k);
    LoadedSetting(cfg, Written(cfg, t, e), other, k);
    WriteReadsBack(cfg, t, other, e, k);
  }

  lemma PutChangesOne(l: Live, e: Entry, k: Key)
    ensures Get(Put(l, e), k) == if k == KeyOf(e) then Some(e) else Get(l, k)
  {
  }

  /** Persisting a setting and then putting it in memory keeps a restart equivalent, from any table. */
  lemma SequentialSetKeepsRestartEquivalent(cfg: Control, t: Table, other: OtherForms, e: Entry)
    requires ValidEntry(cfg, e)
    ensures Loaded(cfg, Written(cfg, t, e), other) == Put(Loaded(cfg, t, other), e)
  {
    forall k: Key ensures Get(Loaded(cfg, Written(cfg, t, e), other), k) == Get(Put(Loaded(cfg, t, other), e), k) {
      LoadedAfterWrite(cfg, t, other, e, k);
      PutChangesOne(Loaded(cfg, t, other), e, k);
    }
    SettingsDetermineMemory(Loaded(cfg, Written(cfg, t, e), other), Put(Loaded(cfg, t, other), e));
  }

  // ----- calls

  datatype Call = SetChargePower(mode: string) | SetAutoProfile(profile: string)
                | SetStartThreshold(w: real) | SetTargetSoC(pct: int)

  /** The setting a call asks for, given the profile active when it is made; None if it is rejected. */
  function Accept(cfg: Control, active: Profile, c: Call): (e: Option<Entry>)
    ensures e.Some? ==> ValidEntry(cfg, e.value)
  {
    match c
    case SetChargePower(m) => var p := ParsePower(m); if p.None? then None else Some(Power(p.value))
    case SetAutoProfile(s) => var p := ParseProfile(s); if p.None? then None else Some(Active(p.value))
    case SetStartThreshold(w) => if ValidWatts(cfg, w) && IsLatch(active) then Some(Watts(active, w)) else None
    case SetTargetSoC(pct) => if ValidTarget(pct) && IsLatch(active) then Some(Target(active, pct)) else None
  }

  predicate Hundreds(w: real, n: int) { w == n as real * 100.0 }

  /** What the four calls accept, and what for: the two modes and the three profiles by name; under a
      latch profile, for that profile, whole hundreds of watts above the stop threshold and full tens of
      percent from 50 on. */
  lemma AcceptsExactly(cfg: Control, active: Profile, name: string, w: real, pct: int)
    ensures Accept(cfg, active, SetChargePower(name))
            == if name == "pv" then Some(Power(PV)) else if name == "now" then Some(Power(Now)) else None
    ensures Accept(cfg, active, SetAutoProfile(name))
            == if name == "surplus" then Some(Active(SurplusProfile))
               else if name == "power_latch" then Some(Active(PowerLatch))
               else if name == "surplus_latch" then Some(Active(SurplusLatch)) else None
    ensures Accept(cfg, active, SetStartThreshold(w))
            == if active != SurplusProfile && (exists n :: n > 0 && Hundreds(w, n)) && w > cfg.stopThresholdW
               then Some(Watts(active, w)) else None
    ensures Accept(cfg, active, SetTargetSoC(pct))
            == if active != SurplusProfile && pct in {50, 60, 70, 80, 90, 100} then Some(Target(active, pct)) else None
  {
    if n :| n > 0 && Hundreds(w, n) { assert w / 100.0 == n as real; }
    if ValidWatts(cfg, w) { assert Hundreds(w, (w / 100.0).Floor); }
  }

  // ----- reads that fail

  /** The table as a startup sees it when reading some of the settings fails. */
  function Readable(t: Table, failed: set<Key>): Table {
    t - set k | k in failed :: KeyText(k)
  }

  lemma ReadableRow(t: Table, failed: set<Key>, k: Key)
    ensures KeyText(k) in Readable(t, failed) <==> KeyText(k) in t && k !in failed
    ensures k !in failed && KeyText(k) in t ==> Readable(t, failed)[KeyText(k)] == t[KeyText(k)]
  {
    forall f | f in failed && f != k ensures KeyText(f) != KeyText(k) { KeysDiffer(f, k); }
  }

  /** A setting that cannot be read keeps its default; every other is loaded as ever. */
  lemma LoadedDespiteFailures(cfg: Control, t: Table, other: OtherForms, failed: set<Key>, k: Key)
    ensures Get(Loaded(cfg, Readable(t, failed), other), k)
            == if k in failed then Default(cfg, k) else Get(Loaded(cfg, t, other), k)
  {
    ReadableRow(t, failed, k);
    LoadedSetting(cfg, Readable(t, failed), other, k);
    LoadedSetting(cfg, t, other, k);
  }

  // ----- any number of calls at once

  /** A call in flight: validated, perhaps already persisted, not yet in memory. */
  datatype Pending = Pending(e: Entry, persisted: bool)

  /** `unread` are the settings that could not be read at startup and were not set since. */
  datatype State = State(live: Live, table: Table, pending: map<nat, Pending>, unread: set<Key>)

  /** The atomic steps: validate against the active profile; write the table, which may fail and ends
      the call; update memory; or the process dies and a new one loads what it can of the table. */
  datatype Step = Begin(id: nat, c: Call) | Persist(id: nat, ok: bool) | Commit(id: nat) | Restart(failed: set<Key>)

  datatype System = System(cfg: Control, other: OtherForms)
  {
    function Next(s: State, step: Step): State {
      match step
      case Begin(id, c) =>
        var e := Accept(cfg, s.live.autoProfile, c);
        if id in s.pending || e.None? then s else s.(pending := s.pending[id := Pending(e.value, false)])
      case Persist(id, ok) =>
        if id !in s.pending || s.pending[id].persisted then s
        else if !ok || !ValidEntry(cfg, s.pending[id].e) then s.(pending := s.pending - {id})
        else s.(table := Written(cfg, s.table, s.pending[id].e), pending := s.pending[id := s.pending[id].(persisted := true)])
      case Commit(id) =>
        if id !in s.pending || !s.pending[id].persisted then s
        else
          var e := s.pending[id].e;
          s.(live := Put(s.live, e), pending := s.pending - {id}, unread := s.unread - {KeyOf(e)})
      case Restart(failed) => State(Loaded(cfg, Readable(s.table, failed), other), s.table, map[], failed)
    }

    function After(t: Table, steps: seq<Step>): State {
      if steps == [] then State(Loaded(cfg, t, other), t, map[], {})
      else Next(After(t, steps[..|steps| - 1]), steps[|steps| - 1])
    }

    lemma AfterOneMore(t: Table, steps: seq<Step>, step: Step)
      ensures After(t, steps + [step]) == Next(After(t, steps), step)
    {
      assert (steps + [step])[..|steps|] == steps;
    }

    /** A call is between writing the table and updating memory under this key. */
    ghost predicate Busy(s: State, k: Key) {
      exists id :: id in s.pending && s.pending[id].persisted && KeyOf(s.pending[id].e) == k
    }

    /** Calls for one key are serialised from the table write on. */
    ghost predicate Serialised(s: State, step: Step) {
      step.Persist? && step.ok && step.id in s.pending && !s.pending[step.id].persisted ==>
        !Busy(s, KeyOf(s.pending[step.id].e))
    }

    ghost predicate AllSerialised(t: Table, steps: seq<Step>) {
      steps != [] ==>
        AllSerialised(t, steps[..|steps| - 1]) && Serialised(After(t, steps[..|steps| - 1]), steps[|steps| - 1])
    }

    ghost predicate PendingOk(s: State) {
      && (forall id :: id in s.pending ==> ValidEntry(cfg, s.pending[id].e))
      && (forall i, j :: (i in s.pending && j in s.pending && s.pending[i].persisted && s.pending[j].persisted
            && KeyOf(s.pending[i].e) == KeyOf(s.pending[j].e)) ==> i == j)
      && (forall id :: id in s.pending && s.pending[id].persisted ==>
            Get(Loaded(cfg, s.table, other), KeyOf(s.pending[id].e)) == Some(s.pending[id].e))
    }

    ghost predicate Agree(s: State, k: Key) {
      Get(s.live, k) == Get(Loaded(cfg, s.table, other), k)
    }

    /** What memory holds of a setting that no call is busy with. */
    ghost predicate Settled(s: State, k: Key) {
      if k in s.unread then Get(s.live, k) == Default(cfg, k) else Agree(s, k)
    }

    ghost predicate Inv(s: State) {
      PendingOk(s) && (forall k: Key :: !Busy(s, k) ==> Settled(s, k))
      && forall k: Key :: k in s.unread ==> Get(s.live, k) == Default(cfg, k)
    }

    lemma StaysBusy(s: State, s': State, k: Key)
      requires forall i :: i in s.pending && s.pending[i].persisted && KeyOf(s.pending[i].e) == k ==>
                             i in s'.pending && s'.pending[i] == s.pending[i]
      ensures Busy(s, k) ==> Busy(s', k)
    {
    }

    lemma PersistKeeps(s: State, id: nat)
      requires Inv(s) && Serialised(s, Persist(id, true)) && id in s.pending && !s.pending[id].persisted
      ensures Inv(Next(s, Persist(id, true)))
    {
      var s', e := Next(s, Persist(id, true)), s.pending[id].e;
      forall k: Key ensures Get(Loaded(cfg, s'.table, other), k) == if k == KeyOf(e) then Some(e) else Get(Loaded(cfg, s.table, other), k) {
        LoadedAfterWrite(cfg, s.table, other, e, k);
      }
      forall i | i in s'.pending && s'.pending[i].persisted && i != id ensures KeyOf(s'.pending[i].e) != KeyOf(e) {
        assert i in s.pending && s.pending[i].persisted;
      }
      forall k: Key | !Busy(s', k) ensures Settled(s', k) {
        assert id in s'.pending && s'.pending[id].persisted;
        StaysBusy(s, s', k);
        assert Settled(s, k);
      }
    }

    lemma CommitKeeps(s: State, id: nat)
      requires Inv(s) && id in s.pending && s.pending[id].persisted
      ensures Inv(Next(s, Commit(id)))
    {
      var s', e := Next(s, Commit(id)), s.pending[id].e;
      forall k: Key ensures !Busy(s', k) ==> Settled(s', k)
                    ensures k in s'.unread ==> Get(s'.live, k) == Default(cfg, k) {
        PutChangesOne(s.live, e, k);
        if k != KeyOf(e) {
          StaysBusy(s, s', k);
          assert !Busy(s, k) ==> Settled(s, k);
        }
      }
    }

    /** Steps that touch neither table nor memory. */
    lemma BeginOrFailKeeps(s: State, step: Step)
      requires Inv(s) && (step.Begin? || (step.Persist? && !step.ok))
      ensures Inv(Next(s, step))
    {
      var s' := Next(s, step);
      forall k: Key | !Busy(s', k) ensures Settled(s', k) {
        StaysBusy(s, s', k);
        assert Settled(s, k);
      }
    }

    lemma RestartKeeps(s: State, failed: set<Key>)
      ensures Inv(Next(s, Restart(failed)))
    {
      forall k: Key ensures Settled(Next(s, Restart(failed)), k) {
        LoadedDespiteFailures(cfg, s.table, other, failed, k);
      }
    }

    lemma StepKeeps(s: State, step: Step)
      requires Inv(s) && Serialised(s, step)
      ensures Inv(Next(s, step))
    {
      match step
      case Begin(_, _) => BeginOrFailKeeps(s, step);
      case Persist(id, ok) =>
        if !ok { BeginOrFailKeeps(s, step); }
        else if id in s.pending && !s.pending[id].persisted { PersistKeeps(s, id); }
      case Commit(id) => if id in s.pending && s.pending[id].persisted { CommitKeeps(s, id); }
      case Restart(failed) => RestartKeeps(s, failed);
    }

    lemma {:induction false} AlwaysInv(t: Table, steps: seq<Step>)
      requires AllSerialised(t, steps)
      ensures Inv(After(t, steps))
    {
      if steps != [] {
        AlwaysInv(t, steps[..|steps| - 1]);
        StepKeeps(After(t, steps[..|steps| - 1]), steps[|steps| - 1]);
      } else {
        assert forall k: Key :: Agree(After(t, steps), k);
      }
    }

    /** Restart equivalence: from any table, after any interleaving of calls (rejected ones, failed
        writes, crashes and startups with failing reads included) in which calls for one key do not
        overlap, every setting that no call is between its write and its memory update is what a
        restart would find, or its default if it could not be read and was not set since. */
    lemma RestartFindsLiveSettings(t: Table, steps: seq<Step>)
      requires AllSerialised(t, steps)
      ensures var s := After(t, steps);
              && (forall k: Key :: !Busy(s, k) ==> Settled(s, k))
              && ((forall k: Key :: !Busy(s, k)) && s.unread == {} ==> Loaded(cfg, s.table, other) == s.live)
    {
      AlwaysInv(t, steps);
      var s := After(t, steps);
      if (forall k: Key :: !Busy(s, k)) && s.unread == {} {
        forall k: Key ensures Get(s.live, k) == Get(Loaded(cfg, s.table, other), k) { assert Settled(s, k); }
        SettingsDetermineMemory(s.live, Loaded(cfg, s.table, other));
      }
    }

    /** Overlapping calls for one key break it: when two are written one after the other before either is
        put in memory, memory and table agree on that setting afterwards exactly if they are put in
        memory in the order they were written, or asked for the same value. */
    lemma OverlapBreaksEquivalence(s: State, a: Entry, b: Entry, inOrder: bool)
      requires ValidEntry(cfg, a) && ValidEntry(cfg, b) && KeyOf(a) == KeyOf(b)
      requires 1 in s.pending && s.pending[1] == Pending(a, false) && 2 in s.pending && s.pending[2] == Pending(b, false)
      ensures var w := Next(Next(s, Persist(1, true)), Persist(2, true));
              var s' := if inOrder then Next(Next(w, Commit(1)), Commit(2)) else Next(Next(w, Commit(2)), Commit(1));
              Agree(s', KeyOf(a)) <==> inOrder || a == b
    {
      hide Loaded, Written, ValidEntry;
      LoadedAfterWrite(cfg, Written(cfg, s.table, a), other, b, KeyOf(a));
      PutChangesOne(Put(s.live, b), a, KeyOf(a));
      PutChangesOne(Put(s.live, a), b, KeyOf(a));
    }

    // ----- any overlap at all

    /** What a step writes to the table, if anything. */
    function Writes(s: State, step: Step): Option<Entry> {
      if step.Persist? && step.ok && step.id in s.pending && !s.pending[step.id].persisted
         && ValidEntry(cfg, s.pending[step.id].e)
      then Some(s.pending[step.id].e) else None
    }

    /** What a step puts in memory, if anything. */
    function Commits(s: State, step: Step): Option<Entry> {
      if step.Commit? && step.id in s.pending && s.pending[step.id].persisted then Some(s.pending[step.id].e) else None
    }

    /** The last entry written under a key since the last startup. */
    function LastWritten(t: Table, steps: seq<Step>, k: Key): Option<Entry> {
      if steps == [] then None
      else
        var before, step := steps[..|steps| - 1], steps[|steps| - 1];
        var e := Writes(After(t, before), step);
        if step.Restart? then None else if e.Some? && KeyOf(e.value) == k then e else LastWritten(t, before, k)
    }

    /** The last entry put in memory under a key since the last startup. */
    function LastCommitted(t: Table, steps: seq<Step>, k: Key): Option<Entry> {
      if steps == [] then None
      else
        var before, step := steps[..|steps| - 1], steps[|steps| - 1];
        var e := Commits(After(t, before), step);
        if step.Restart? then None else if e.Some? && KeyOf(e.value) == k then e else LastCommitted(t, before, k)
    }

    /** Table and memory hold, under one key, what was last written and what was last put in memory. */
    ghost predicate Tracks(s: State, k: Key, written: Option<Entry>, committed: Option<Entry>) {
      && (written.Some? ==> Get(Loaded(cfg, s.table, other), k) == written)
      && (committed.Some? ==> written.Some? && k !in s.unread && Get(s.live, k) == committed)
      && (written.None? ==> !Busy(s, k) && Settled(s, k))
      && (written.Some? && committed.None? ==> Busy(s, k))
    }

    lemma StepTracks(s: State, step: Step, k: Key, written: Option<Entry>, committed: Option<Entry>)
      requires Tracks(s, k, written, committed) && ValuesOk(s)
      ensures var w, c := Writes(s, step), Commits(s, step);
              Tracks(Next(s, step), k,
                     if step.Restart? then None else if w.Some? && KeyOf(w.value) == k then w else written,
                     if step.Restart? then None else if c.Some? && KeyOf(c.value) == k then c else committed)
    {
      match step
      case Begin(_, _) => SameElsewhere(s, Next(s, step), k);
      case Persist(id, ok) =>
        if Writes(s, step).Some? {
          PersistTracks(s, id, k, written, committed);
        } else {
          SameElsewhere(s, Next(s, step), k);
        }
      case Commit(id) => if Commits(s, step).Some? { CommitTracks(s, id, k, written, committed); }
      case Restart(failed) => LoadedDespiteFailures(cfg, s.table, other, failed, k);
    }

    lemma SameElsewhere(s: State, s': State, k: Key)
      requires forall i :: (i in s.pending && s.pending[i].persisted) <==> (i in s'.pending && s'.pending[i].persisted)
      requires forall i :: i in s.pending && s.pending[i].persisted ==> s'.pending[i] == s.pending[i]
      ensures Busy(s, k) <==> Busy(s', k)
    {
    }

    lemma PersistTracks(s: State, id: nat, k: Key, written: Option<Entry>, committed: Option<Entry>)
      requires Tracks(s, k, written, committed) && Writes(s, Persist(id, true)).Some?
      ensures var w := Writes(s, Persist(id, true));
              Tracks(Next(s, Persist(id, true)), k, if KeyOf(w.value) == k then w else written, committed)
    {
      hide Loaded, Written;
      var s', e := Next(s, Persist(id, true)), s.pending[id].e;
      LoadedAfterWrite(cfg, s.table, other, e, k);
      assert s'.pending[id] == Pending(e, true);
      StaysBusy(s, s', k);
      if KeyOf(e) != k {
        assert Busy(s', k) ==> Busy(s, k) by {
          if i :| i in s'.pending && s'.pending[i].persisted && KeyOf(s'.pending[i].e) == k {
            assert i in s.pending && s.pending[i] == s'.pending[i];
          }
        }
      }
    }

    lemma CommitTracks(s: State, id: nat, k: Key, written: Option<Entry>, committed: Option<Entry>)
      requires Tracks(s, k, written, committed) && Commits(s, Commit(id)).Some?
      ensures var c := Commits(s, Commit(id));
              Tracks(Next(s, Commit(id)), k, written, if KeyOf(c.value) == k then c else committed)
    {
      hide Loaded;
      var s', e := Next(s, Commit(id)), s.pending[id].e;
      PutChangesOne(s.live, e, k);
      if KeyOf(e) == k {
        assert Busy(s, k);
      } else {
        StaysBusy(s, s', k);
        assert Busy(s', k) ==> Busy(s, k) by {
          if i :| i in s'.pending && s'.pending[i].persisted && KeyOf(s'.pending[i].e) == k {
            assert i in s.pending && s.pending[i] == s'.pending[i];
          }
        }
      }
    }

    lemma {:induction false} AlwaysTracks(t: Table, steps: seq<Step>, k: Key)
      ensures Tracks(After(t, steps), k, LastWritten(t, steps, k), LastCommitted(t, steps, k))
    {
      if steps != [] {
        hide Next, Tracks, Writes, Commits;
        var before, step := steps[..|steps| - 1], steps[|steps| - 1];
        AlwaysTracks(t, before, k);
        AlwaysValuesOk(t, before);
        StepTracks(After(t, before), step, k, LastWritten(t, before, k), LastCommitted(t, before, k));
      }
    }

    /** Any interleaving, overlaps and all: of a setting no call is busy with, memory and table agree
        exactly if the last value written since startup is the last value put in memory; if none was
        written, they agree unless the setting could not be read at startup. */
    lemma AgreesExactly(t: Table, steps: seq<Step>, k: Key)
      requires !Busy(After(t, steps), k)
      ensures var s, written := After(t, steps), LastWritten(t, steps, k);
              && (written.Some? ==> (Agree(s, k) <==> LastCommitted(t, steps, k) == written))
              && (written.None? ==> Settled(s, k))
    {
      AlwaysTracks(t, steps, k);
    }

    /** Values in memory and in flight are valid, overlapping or not. */
    ghost predicate ValuesOk(s: State) {
      && (forall id :: id in s.pending ==> ValidEntry(cfg, s.pending[id].e))
      && forall k: Key :: Get(s.live, k).Some? ==> ValidEntry(cfg, Get(s.live, k).value)
    }

    lemma LoadedValuesOk(t: Table)
      ensures forall k: Key :: Get(Loaded(cfg, t, other), k).Some? ==> ValidEntry(cfg, Get(Loaded(cfg, t, other), k).value)
    {
      forall k: Key ensures Get(Loaded(cfg, t, other), k).Some? ==> ValidEntry(cfg, Get(Loaded(cfg, t, other), k).value) {
        LoadedSetting(cfg, t, other, k);
      }
    }

    lemma StepKeepsValues(s: State, step: Step)
      requires ValuesOk(s)
      ensures ValuesOk(Next(s, step))
    {
      if step.Restart? { LoadedValuesOk(Readable(s.table, step.failed)); }
      if step.Commit? && step.id in s.pending {
        forall k: Key ensures Get(Put(s.live, s.pending[step.id].e), k)
                              == if k == KeyOf(s.pending[step.id].e) then Some(s.pending[step.id].e) else Get(s.live, k) {
          PutChangesOne(s.live, s.pending[step.id].e, k);
        }
      }
    }

    lemma {:induction false} AlwaysValuesOk(t: Table, steps: seq<Step>)
      ensures ValuesOk(After(t, steps))
    {
      if steps != [] {
        AlwaysValuesOk(t, steps[..|steps| - 1]);
        StepKeepsValues(After(t, steps[..|steps| - 1]), steps[|steps| - 1]);
      } else {
        LoadedValuesOk(t);
      }
    }
  }

  /** A call changes the setting it names and no other: in particular a threshold or target set under
      one profile never changes another profile's. */
  lemma CallsDoNotLeak(cfg: Control, active: Profile, c: Call, l: Live, k: Key)
    ensures var e := Accept(cfg, active, c);
            e.Some? && k != KeyOf(e.value) ==> Get(Put(l, e.value), k) == Get(l, k)
    ensures (c.SetStartThreshold? || c.SetTargetSoC?) && Accept(cfg, active, c).Some? ==>
              IsLatch(active) && KeyOf(Accept(cfg, active, c).value).p == active
  {
    var e := Accept(cfg, active, c);
    if e.Some? { PutChangesOne(l, e.value, k); }
  }

  /** The settings table. A false `ok` is a database failure. */
  class SettingsTable {
    var rows: Table

    constructor (rows: Table)
      ensures this.rows == rows
    {
      this.rows := rows;
    }

    method GetSetting(key: string, ok: bool) returns (value: string, found: bool)
      ensures found <==> ok && key in rows
      ensures found ==> value == rows[key]
    {
      if ok && key in rows { return rows[key], true; }
      return "", false;
    }

    method SetSetting(key: string, value: string, ok: bool)
      modifies this
      ensures rows == if ok then old(rows)[key := value] else old(rows)
    {
      if ok { rows := rows[key := value]; }
    }
  }
}

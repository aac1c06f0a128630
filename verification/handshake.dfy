/** The update handshake: wha drops a request file, a privileged sidecar picks it up and applies it.
    Two processes share three files; either may crash between any two steps. */
module Handshake {
  import opened Config
  import opened Semver
  import opened Compose
  import opened Requests
  import Timestamps

  /** What the status file says. */
  datatype Status = Idle | Applying(v: string) | Done(v: string) | Failed(v: string) | Unreadable

  /** Replacing the status file may succeed, leave a truncated file, or not happen. The sidecar goes on
      regardless: its error exit is suspended while it applies an update. */
  datatype Write = Written | Garbled | Lost

  function Put(was: Status, next: Status, w: Write): Status {
    match w case Written => next case Garbled => Unreadable case Lost => was
  }

  /** Where the sidecar's loop stands. */
  datatype Pc =
    | Polling
    | HasRead(v: string)      // version extracted, request file still there
    | Consumed(v: string)     // request file removed
    | Announced(v: string)    // validated, status written, compose file not yet touched
    | Pinned(v: string)       // compose file rewritten
    | Pulled(v: string)       // image pulled
    | Recreated(v: string)    // service recreated
    | Broken(v: string)       // a step failed, to be reported

  datatype World = World(
    request: Option<string>, status: Status, compose: File, pc: Pc,
    placed: seq<string>,   // history: every request put in place, in order
    applied: seq<string>)  // history: every version whose application began, in order

  datatype Step =
    | Place(v: string)     // an atomic rename puts a request in place, replacing any other
    | Read | Remove | Validate(w: Write)
    | Rewrite(ok: bool, other: seq<string>) // `other` is what a script made of several lines leaves behind
    | Pull(ok: bool) | Up(ok: bool)
    | Report(w: Write)     // the closing status, good or bad
    | Crash                // the sidecar restarts at the top of its loop

  /** A successful rewrite. The version is part of the script, so what a version of several lines does
      is left open. */
  function Rewritten(f: File, v: string, other: seq<string>): File {
    if '\n' in v then File(f.image, other) else f.Pin(v)
  }

  /** A step that the sidecar's position does not allow changes nothing. */
  function Next(s: World, step: Step): World {
    match step
    case Place(v) => s.(request := Some(v), placed := s.placed + [v])
    case Crash => s.(pc := Polling)
    case Read => if s.pc.Polling? && s.request.Some? then s.(pc := HasRead(s.request.value)) else s
    case Remove => if s.pc.HasRead? then s.(request := None, pc := Consumed(s.pc.v)) else s
    case Validate(w) =>
      if !s.pc.Consumed? then s
      else if Accepts(s.pc.v) then
        s.(status := Put(s.status, Applying(Flat(s.pc.v)), w), pc := Announced(s.pc.v), applied := s.applied + [s.pc.v])
      else s.(status := Put(s.status, Failed(""), w), pc := Polling)
    case Rewrite(ok, other) =>
      if !s.pc.Announced? then s
      else if ok then s.(compose := Rewritten(s.compose, s.pc.v, other), pc := Pinned(s.pc.v)) else s.(pc := Broken(s.pc.v))
    case Pull(ok) =>
      if !s.pc.Pinned? then s else s.(pc := if ok then Pulled(s.pc.v) else Broken(s.pc.v))
    case Up(ok) =>
      if !s.pc.Pulled? then s else s.(pc := if ok then Recreated(s.pc.v) else Broken(s.pc.v))
    case Report(w) =>
      if s.pc.Recreated? then s.(status := Put(s.status, Done(Flat(s.pc.v)), w), pc := Polling)
      else if s.pc.Broken? then s.(status := Put(s.status, Failed(Flat(s.pc.v)), w), pc := Polling)
      else s
  }

  function Start(compose: File): World {
    World(None, Idle, compose, Polling, [], [])
  }

  /** Any interleaving of requests, sidecar steps and crashes. */
  function After(compose: File, steps: seq<Step>): World {
    if steps == [] then Start(compose) else Next(After(compose, steps[..|steps| - 1]), steps[|steps| - 1])
  }

  lemma AfterOneMore(compose: File, steps: seq<Step>, step: Step)
    ensures After(compose, steps + [step]) == Next(After(compose, steps), step)
  {
    assert (steps + [step])[..|steps|] == steps;
  }

  // ----- at most once, in order

  /** `a` is `b` with some elements left out. */
  predicate Subsequence(a: seq<string>, b: seq<string>) {
    if a == [] then true
    else if b == [] then false
    else
      || (a[|a| - 1] == b[|b| - 1] && Subsequence(a[..|a| - 1], b[..|b| - 1]))
      || Subsequence(a, b[..|b| - 1])
  }

  lemma GrowRight(a: seq<string>, b: seq<string>, x: string)
    requires Subsequence(a, b)
    ensures Subsequence(a, b + [x]) && Subsequence(a + [x], b + [x])
  {
    assert (b + [x])[..|b|] == b && (a + [x])[..|a|] == a;
  }

  lemma {:induction false} DropLast(a: seq<string>, x: string, b: seq<string>)
    requires Subsequence(a + [x], b)
    ensures Subsequence(a, b)
    decreases |b|
  {
    assert (a + [x])[..|a|] == a;
    if a != [] {
      var b' := b[..|b| - 1];
      if Subsequence(a + [x], b') { DropLast(a, x, b'); }
    }
  }

  lemma {:induction false} DropInner(a: seq<string>, x: string, y: string, b: seq<string>)
    requires Subsequence(a + [x] + [y], b)
    ensures Subsequence(a + [y], b)
    decreases |b|
  {
    var b' := b[..|b| - 1];
    assert (a + [x] + [y])[..|a| + 1] == a + [x] && (a + [y])[..|a|] == a;
    if Subsequence(a + [x] + [y], b') {
      DropInner(a, x, y, b');
    } else {
      DropLast(a, x, b');
    }
  }

  function OrNothing(v: Option<string>): seq<string> { if v.Some? then [v.value] else [] }

  /** What will have been applied once everything in hand is: the version consumed, then the file's. */
  function Promised(s: World): seq<string> {
    if s.pc.Consumed? then s.applied + [s.pc.v] + OrNothing(s.request) else s.applied + OrNothing(s.request)
  }

  ghost predicate InOrder(s: World) {
    && Subsequence(s.applied, s.placed)
    && Subsequence(Promised(s), s.placed)
    && (s.pc.HasRead? || s.pc.Consumed? ==> Subsequence(s.applied + [s.pc.v], s.placed))
    && forall i :: 0 <= i < |s.applied| ==> Accepts(s.applied[i])
  }

  lemma PlaceInOrder(s: World, v: string)
    requires InOrder(s)
    ensures InOrder(Next(s, Place(v)))
  {
    GrowRight(s.applied, s.placed, v);
    if s.pc.HasRead? || s.pc.Consumed? { GrowRight(s.applied + [s.pc.v], s.placed, v); }
  }

  lemma ForgetInOrder(s: World)
    requires InOrder(s)
    ensures Subsequence(s.applied + OrNothing(s.request), s.placed)
    ensures s.applied + [] == s.applied
  {
    if s.pc.Consumed? && s.request.Some? {
      DropInner(s.applied, s.pc.v, s.request.value, s.placed);
    }
    assert s.applied + [] == s.applied;
  }

  lemma StepInOrder(s: World, step: Step)
    requires InOrder(s)
    ensures InOrder(Next(s, step))
  {
    hide Accepts, Flat, Rewritten;
    ForgetInOrder(s);
    if step.Place? {
      PlaceInOrder(s, step.v);
    } else if s.pc.HasRead? {
      assert s.applied + [s.pc.v] + [] == s.applied + [s.pc.v];
    }
  }

  lemma {:induction false} AlwaysInOrder(compose: File, steps: seq<Step>)
    ensures InOrder(After(compose, steps))
  {
    if steps != [] {
      AlwaysInOrder(compose, steps[..|steps| - 1]);
      StepInOrder(After(compose, steps[..|steps| - 1]), steps[|steps| - 1]);
    }
  }

  /** Whatever the interleaving and wherever the sidecar crashes, each request put in place is applied
      at most once and in the order of the requests. Every version applied is X.Y.Z exactly if it is one
      line. */
  lemma AppliedAtMostOnceInOrder(compose: File, steps: seq<Step>)
    ensures var s := After(compose, steps);
            && Subsequence(s.applied, s.placed)
            && forall i :: 0 <= i < |s.applied| ==> (IsSemver(s.applied[i]) <==> '\n' !in s.applied[i])
  {
    AlwaysInOrder(compose, steps);
    var s := After(compose, steps);
    forall i | 0 <= i < |s.applied| ensures IsSemver(s.applied[i]) <==> '\n' !in s.applied[i] {
      AcceptsMoreExactly(s.applied[i]);
    }
  }

  /** Requests of one line, as wha places them. */
  ghost predicate OneLine(steps: seq<Step>) {
    forall i :: 0 <= i < |steps| && steps[i].Place? ==> '\n' !in steps[i].v
  }

  /** With requests of one line no other line is ever in hand, and from the announcement on it is X.Y.Z. */
  ghost predicate InHand(s: World) {
    && (s.request.Some? ==> '\n' !in s.request.value)
    && (!s.pc.Polling? ==> '\n' !in s.pc.v)
    && (!s.pc.Polling? && !s.pc.HasRead? && !s.pc.Consumed? ==> IsSemver(s.pc.v))
    && forall i :: 0 <= i < |s.applied| ==> IsSemver(s.applied[i])
  }

  lemma StepInHand(s: World, step: Step)
    requires InHand(s) && (step.Place? ==> '\n' !in step.v)
    ensures InHand(Next(s, step))
  {
    hide Accepts, IsSemver, Rewritten;
    if step.Validate? && s.pc.Consumed? { AcceptsMoreExactly(s.pc.v); }
  }

  lemma {:induction false} AlwaysInHand(compose: File, steps: seq<Step>)
    requires OneLine(steps)
    ensures InHand(After(compose, steps))
  {
    if steps != [] {
      AlwaysInHand(compose, steps[..|steps| - 1]);
      StepInHand(After(compose, steps[..|steps| - 1]), steps[|steps| - 1]);
    }
  }

  /** When every request is one line, every version applied is X.Y.Z. */
  lemma OneLineAppliesSemver(compose: File, steps: seq<Step>)
    requires OneLine(steps)
    ensures var s := After(compose, steps); forall i :: 0 <= i < |s.applied| ==> IsSemver(s.applied[i])
  {
    AlwaysInHand(compose, steps);
  }

  /** A request of two lines whose first is a version is applied as it stands. */
  lemma SecondLineIsApplied(compose: File, v: string, more: string)
    requires IsSemver(v)
    ensures var both := v + ("\n" + more);
            After(compose, [Place(both), Read, Remove, Validate(Written)]).applied == [both] && !IsSemver(both)
  {
    var both := v + ("\n" + more);
    SecondLineIsTaken(v, more);
    AfterNothing(compose);
    AfterOneMore(compose, [], Place(both));
    AfterOneMore(compose, [Place(both)], Read);
    AfterOneMore(compose, [Place(both), Read], Remove);
    AfterOneMore(compose, [Place(both), Read, Remove], Validate(Written));
    assert [] + [Place(both)] == [Place(both)];
    assert [Place(both)] + [Read] == [Place(both), Read];
    assert [Place(both), Read] + [Remove] == [Place(both), Read, Remove];
    assert [Place(both), Read, Remove] + [Validate(Written)] == [Place(both), Read, Remove, Validate(Written)];
  }

  // ----- the status file tells the truth

  /** A status "done v" is not contradicted by the compose file. */
  ghost predicate Truthful(s: World) {
    s.status.Done? ==> s.compose.AllPinned(s.status.v)
  }

  /** A status "done v" is borne out by it. */
  ghost predicate Names(s: World) {
    s.status.Done? ==> s.compose.AllPinned(s.status.v) && s.compose.HasRef()
  }

  /** The one way the status comes to be contradicted: the compose file is rewritten while the status
      still says done for another version. */
  ghost predicate LeavesStaleDone(s: World, step: Step) {
    step.Rewrite? && step.ok && s.pc.Announced? && s.status.Done? && s.status.v != s.pc.v && s.compose.HasRef()
  }

  /** From the rewrite to the report the compose file names the version being applied. */
  ghost predicate PinnedWhileApplying(s: World) {
    s.pc.Pinned? || s.pc.Pulled? || s.pc.Recreated? ==> s.compose.AllPinned(s.pc.v)
  }

  /** Announcements may be lost here: one step of any kind keeps the status uncontradicted exactly unless
      it rewrites the compose file under an old done. */
  lemma StepTruthfulExactly(s: World, step: Step)
    requires PinnedWhileApplying(s) && InHand(s)
    ensures PinnedWhileApplying(Next(s, step)) && (Next(s, step).compose.HasRef() <==> s.compose.HasRef())
    ensures Truthful(s) ==> (Truthful(Next(s, step)) <==> !LeavesStaleDone(s, step))
  {
    hide IsSemver, Accepts, AllTagText, File.Pin, File.AllPinned, File.HasRef, File.SameButTags;
    if !s.pc.Polling? && IsSemver(s.pc.v) {
      SemverIsPlain(s.pc.v);
      FlatIsSame(s.pc.v);
      s.compose.PinPins(s.pc.v);
      var t := s.compose.Pin(s.pc.v);
      if s.status.Done? { t.OneVersion(s.pc.v, s.status.v); }
    }
  }

  lemma {:induction false} AlwaysPinnedWhileApplying(compose: File, steps: seq<Step>)
    requires OneLine(steps)
    ensures PinnedWhileApplying(After(compose, steps)) && (After(compose, steps).compose.HasRef() <==> compose.HasRef())
  {
    if steps != [] {
      AlwaysPinnedWhileApplying(compose, steps[..|steps| - 1]);
      AlwaysInHand(compose, steps[..|steps| - 1]);
      StepTruthfulExactly(After(compose, steps[..|steps| - 1]), steps[|steps| - 1]);
    }
  }

  /** The state before step `i` of a run. */
  function Before(compose: File, steps: seq<Step>, i: nat): World requires i <= |steps| {
    After(compose, steps[..i])
  }

  lemma StepOfRun(compose: File, steps: seq<Step>, i: nat)
    requires OneLine(steps) && i < |steps| && Truthful(Before(compose, steps, i))
    ensures Truthful(Before(compose, steps, i + 1)) <==> !LeavesStaleDone(Before(compose, steps, i), steps[i])
  {
    AlwaysPinnedWhileApplying(compose, steps[..i]);
    AlwaysInHand(compose, steps[..i]);
    StepTruthfulExactly(Before(compose, steps, i), steps[i]);
    assert steps[..i + 1] == steps[..i] + [steps[i]];
    AfterOneMore(compose, steps[..i], steps[i]);
  }

  ghost predicate TruthfulThroughout(compose: File, steps: seq<Step>) {
    forall i :: 0 <= i <= |steps| ==> Truthful(Before(compose, steps, i))
  }

  ghost predicate NamesThroughout(compose: File, steps: seq<Step>) {
    forall i :: 0 <= i <= |steps| ==> Names(Before(compose, steps, i))
  }

  ghost predicate NeverLeavesStaleDone(compose: File, steps: seq<Step>) {
    forall i :: 0 <= i < |steps| ==> !LeavesStaleDone(Before(compose, steps, i), steps[i])
  }

  ghost predicate NeverSaysDone(compose: File, steps: seq<Step>) {
    forall i :: 0 <= i <= |steps| ==> !Before(compose, steps, i).status.Done?
  }

  lemma {:induction false} TruthfulUpTo(compose: File, steps: seq<Step>, i: nat)
    requires OneLine(steps) && i <= |steps| && NeverLeavesStaleDone(compose, steps)
    ensures Truthful(Before(compose, steps, i))
  {
    if i > 0 {
      TruthfulUpTo(compose, steps, i - 1);
      StepOfRun(compose, steps, i - 1);
    }
  }

  /** The status is uncontradicted throughout a run, announcements lost or not, exactly if no step of the
      run leaves a stale done. */
  lemma RunTruthfulExactly(compose: File, steps: seq<Step>)
    requires OneLine(steps)
    ensures TruthfulThroughout(compose, steps) <==> NeverLeavesStaleDone(compose, steps)
  {
    if TruthfulThroughout(compose, steps) {
      forall i | 0 <= i < |steps| ensures !LeavesStaleDone(Before(compose, steps, i), steps[i]) {
        assert Truthful(Before(compose, steps, i)) && Truthful(Before(compose, steps, i + 1));
        StepOfRun(compose, steps, i);
      }
    }
    if NeverLeavesStaleDone(compose, steps) {
      forall i | 0 <= i <= |steps| ensures Truthful(Before(compose, steps, i)) { TruthfulUpTo(compose, steps, i); }
    }
  }

  /** "Done v" means throughout a run that the compose file names v exactly if no step of the run leaves
      a stale done and either the file had a reference to begin with or no update is ever reported done. */
  lemma RunNamesExactly(compose: File, steps: seq<Step>)
    requires OneLine(steps)
    ensures NamesThroughout(compose, steps) <==>
              NeverLeavesStaleDone(compose, steps) && (compose.HasRef() || NeverSaysDone(compose, steps))
  {
    RunTruthfulExactly(compose, steps);
    forall i | 0 <= i <= |steps|
      ensures Names(Before(compose, steps, i)) <==>
                Truthful(Before(compose, steps, i)) && (compose.HasRef() || !Before(compose, steps, i).status.Done?)
    {
      AlwaysPinnedWhileApplying(compose, steps[..i]);
    }
  }

  /** The announcement that opens an update reaches the status file, in full or truncated. */
  predicate AnnouncementsLand(step: Step) {
    step.Validate? ==> !step.w.Lost?
  }

  lemma {:induction false} NoDoneWhenAnnounced(compose: File, steps: seq<Step>)
    requires forall i :: 0 <= i < |steps| ==> AnnouncementsLand(steps[i])
    ensures After(compose, steps).pc.Announced? ==> !After(compose, steps).status.Done?
  {
    hide Accepts, Rewritten, Flat;
    if steps != [] { NoDoneWhenAnnounced(compose, steps[..|steps| - 1]); }
  }

  /** If no announcement is lost, status "done v" is never contradicted by the compose file, and over a
      file with a reference it is always borne out: at every moment of every run with every crash.
      Closing reports may be lost. */
  lemma DoneMeansPinned(compose: File, steps: seq<Step>)
    requires OneLine(steps) && forall i :: 0 <= i < |steps| ==> AnnouncementsLand(steps[i])
    ensures TruthfulThroughout(compose, steps)
    ensures compose.HasRef() ==> NamesThroughout(compose, steps)
  {
    forall i | 0 <= i < |steps| ensures !LeavesStaleDone(Before(compose, steps, i), steps[i]) {
      NoDoneWhenAnnounced(compose, steps[..i]);
    }
    RunTruthfulExactly(compose, steps);
    RunNamesExactly(compose, steps);
  }

  /** One request carried through to the rewrite; its announcement may be lost. */
  function UntilRewritten(v: string, announcement: Write): seq<Step> {
    [Place(v), Read, Remove, Validate(announcement), Rewrite(true, [])]
  }

  const UNTIL_DONE := [Pull(true), Up(true), Report(Written)]

  lemma AfterNothing(compose: File)
    ensures After(compose, []) == Start(compose)
  {
  }

  lemma RunsUntilRewritten(compose: File, steps: seq<Step>, v: string, w: Write)
    requires IsSemver(v) && After(compose, steps).pc == Polling
    ensures var s, t := After(compose, steps), After(compose, steps + UntilRewritten(v, w));
            t.pc == Pinned(v) && t.compose == s.compose.Pin(v) && t.status == Put(s.status, Applying(v), w)
  {
    hide IsSemver;
    var p1 := steps + [Place(v)];
    var p2 := p1 + [Read];
    var p3 := p2 + [Remove];
    var p4 := p3 + [Validate(w)];
    SemverIsPlain(v);
    FlatIsSame(v);
    AcceptsMoreExactly(v);
    AfterOneMore(compose, steps, Place(v));
    AfterOneMore(compose, p1, Read);
    AfterOneMore(compose, p2, Remove);
    AfterOneMore(compose, p3, Validate(w));
    AfterOneMore(compose, p4, Rewrite(true, []));
    assert steps + UntilRewritten(v, w) == p4 + [Rewrite(true, [])];
  }

  lemma RunsUntilDone(compose: File, steps: seq<Step>, v: string)
    requires After(compose, steps).pc == Pinned(v) && IsSemver(v)
    ensures var s, t := After(compose, steps), After(compose, steps + UNTIL_DONE);
            t.pc == Polling && t.compose == s.compose && t.status == Done(v)
  {
    hide IsSemver;
    SemverIsPlain(v);
    FlatIsSame(v);
    var p1 := steps + [Pull(true)];
    var p2 := p1 + [Up(true)];
    AfterOneMore(compose, steps, Pull(true));
    AfterOneMore(compose, p1, Up(true));
    AfterOneMore(compose, p2, Report(Written));
    assert steps + UNTIL_DONE == p2 + [Report(Written)];
  }

  /** It does go wrong: over any compose file with a reference, an update to `a` followed by one to
      another version whose announcement is lost leaves "done a" while the file names the other. */
  lemma LostAnnouncementLeavesStaleDone(compose: File, a: string, b: string)
    requires IsSemver(a) && IsSemver(b) && a != b && compose.HasRef()
    ensures var s := After(compose, UntilRewritten(a, Written) + UNTIL_DONE + UntilRewritten(b, Lost));
            s.status == Done(a) && s.pc == Pinned(b) && !Truthful(s)
  {
    hide After, Next, IsSemver, FindRef, AllTagText;
    var first := UntilRewritten(a, Written);
    AfterNothing(compose);
    assert [] + first == first;
    RunsUntilRewritten(compose, [], a, Written);
    RunsUntilDone(compose, first, a);
    RunsUntilRewritten(compose, first + UNTIL_DONE, b, Lost);
    SemverIsPlain(a);
    SemverIsPlain(b);
    compose.PinPins(a);
    compose.Pin(a).PinPins(b);
    var t := compose.Pin(a).Pin(b);
    var i :| 0 <= i < |t.lines| && t.Ref(i).Some?;
    assert t.Ref(i).value.tag == b;
  }

  /** And it goes wrong in another way: over a file in which no reference is found, a complete update
      with every write landing reports done although the file is unchanged and names no version. */
  lemma NothingPinnedYetDone(compose: File, a: string)
    requires IsSemver(a) && !compose.HasRef()
    ensures var steps := UntilRewritten(a, Written) + UNTIL_DONE;
            var s := After(compose, steps);
            && s.status == Done(a) && s.compose == compose && !Names(s)
            && OneLine(steps) && forall i :: 0 <= i < |steps| ==> AnnouncementsLand(steps[i])
  {
    hide After, Next, IsSemver, FindRef;
    var first := UntilRewritten(a, Written);
    AfterNothing(compose);
    assert [] + first == first;
    SemverIsPlain(a);
    RunsUntilRewritten(compose, [], a, Written);
    RunsUntilDone(compose, first, a);
    forall i | 0 <= i < |compose.lines| ensures compose.Pin(a).lines[i] == compose.lines[i] {
      assert compose.Ref(i).None?;
    }
    assert compose.Pin(a).lines == compose.lines;
  }

  /** Updates by one-line requests change nothing in the compose file but, on each line, the text in the
      tag's place of the first reference. */
  lemma {:induction false} OtherServicesUntouched(compose: File, steps: seq<Step>)
    requires OneLine(steps)
    ensures compose.SameButTags(After(compose, steps).compose)
  {
    if steps != [] {
      var s := After(compose, steps[..|steps| - 1]);
      OtherServicesUntouched(compose, steps[..|steps| - 1]);
      AlwaysInHand(compose, steps[..|steps| - 1]);
      RewriteTouchesTags(compose, s, steps[|steps| - 1]);
    } else {
      AfterNothing(compose);
    }
  }

  lemma RewriteTouchesTags(compose: File, s: World, step: Step)
    requires compose.SameButTags(s.compose) && InHand(s)
    ensures compose.SameButTags(Next(s, step).compose)
  {
    hide IsSemver, Accepts, FindRef, AllTagText;
    if step.Rewrite? && step.ok && s.pc.Announced? {
      SemverIsPlain(s.pc.v);
      s.compose.PinPins(s.pc.v);
      var t := s.compose.Pin(s.pc.v);
      forall i | 0 <= i < |compose.lines|
        ensures if compose.Ref(i).None? then t.lines[i] == compose.lines[i]
                else t.Ref(i).Some? && t.Ref(i).value == compose.Ref(i).value.(tag := t.Ref(i).value.tag)
      {
        assert s.compose.Ref(i).None? ==> t.lines[i] == s.compose.lines[i];
      }
    }
  }

  // ----- the two programs

  datatype Refusal = Disabled | Invalid | AlreadyRunning | IOFailed

  /** The shared directory and the compose file. `world` is the protocol state reached by the ghost
      history `steps`; the real files always show what it says. Every step of the sidecar is a method,
      so that requests may be placed, and the sidecar may die, between any two. */
  class Host {
    var request: Option<string>
    var status: Status
    var compose: File
    ghost var world: World
    ghost var initial: File
    ghost var steps: seq<Step>

    ghost predicate Shown() reads this {
      && world.request == (if request.Some? then Some(Extract(request.value)) else None)
      && world.status == status && world.compose == compose
    }

    ghost predicate Valid() reads this {
      Shown() && world == After(initial, steps)
    }

    /** One protocol step was taken, and nothing else. */
    twostate predicate Stepped(step: Step) reads this {
      steps == old(steps) + [step] && initial == old(initial) && world == Next(old(world), step)
    }

    constructor (compose: File)
      ensures Valid() && steps == [] && initial == compose
    {
      this.request, this.status, this.compose := None, Idle, compose;
      world, initial, steps := Start(compose), compose, [];
    }

    ghost method Log(step: Step)
      requires world == After(initial, steps)
      modifies this`world, this`steps
      ensures world == After(initial, steps) && Stepped(step)
    {
      AfterOneMore(initial, steps, step);
      world := Next(world, step);
      steps := steps + [step];
    }

    /** wha's side. `ioOk` is whether the temporary file could be written and renamed; `k` is how many
        digits of the fraction the time of day needs. */
    method Trigger(version: string, current: string, enabled: bool, at: Timestamps.Civil, k: nat, ioOk: bool)
      returns (r: Option<Refusal>)
      requires Valid() && k <= 9
      modifies this
      ensures Valid()
      ensures r.None? <==> enabled && IsSemver(version) && version != current && ioOk
      ensures if r.None? then Stepped(Place(version))
              else steps == old(steps) && initial == old(initial) && world == old(world) && request == old(request)
      ensures r.None? ==> request == Some(Body(version, Timestamps.FormatShort(at, k)))
      ensures r == Some(Disabled) <==> !enabled
      ensures r == Some(Invalid) <==> enabled && !IsSemver(version)
      ensures r == Some(AlreadyRunning) <==> enabled && IsSemver(version) && version == current
    {
      if !enabled { return Some(Disabled); }
      if !IsSemver(version) { return Some(Invalid); }
      if version == current { return Some(AlreadyRunning); }
      if !ioOk { return Some(IOFailed); }
      RequestReadsBack(version, at, k);
      request := Some(Body(version, Timestamps.FormatShort(at, k)));
      Log(Place(version));
      return None;
    }

    /** Anyone else with access to the shared directory puts a file in place. */
    method PlaceFile(body: string)
      requires Valid()
      modifies this`request, this`world, this`steps
      ensures Valid() && Stepped(Place(Extract(body))) && request == Some(body)
    {
      request := Some(body);
      Log(Place(Extract(body)));
    }

    // ----- the sidecar, step by step

    method ReadRequest() returns (version: string)
      requires Valid() && world.pc == Polling && request.Some?
      modifies this`world, this`steps
      ensures Valid() && Stepped(Read) && world.pc == HasRead(version) && version == Extract(old(request).value)
    {
      version := Extract(request.value);
      Log(Read);
    }

    method RemoveRequest()
      requires Valid() && world.pc.HasRead?
      modifies this`request, this`world, this`steps
      ensures Valid() && Stepped(Remove) && request == None
    {
      request := None;
      Log(Remove);
    }

    /** The status written before anything is done: the announcement, or the rejection of an invalid
        version. */
    method Announce(version: string, w: Write) returns (ok: bool)
      requires Valid() && world.pc == Consumed(version)
      modifies this`status, this`world, this`steps
      ensures Valid() && Stepped(Validate(w)) && (ok <==> Accepts(version))
    {
      ok := Accepts(version);
      status := Put(status, if ok then Applying(Flat(version)) else Failed(""), w);
      Log(Validate(w));
    }

    /** `other` is what a script made of several lines leaves behind. */
    method RewriteCompose(version: string, ok: bool, other: seq<string>)
      requires Valid() && world.pc == Announced(version)
      modifies this`compose, this`world, this`steps
      ensures Valid() && Stepped(Rewrite(ok, other))
    {
      if ok { compose := Rewritten(compose, version, other); }
      Log(Rewrite(ok, other));
    }

    method PullImage(ok: bool)
      requires Valid() && world.pc.Pinned?
      modifies this`world, this`steps
      ensures Valid() && Stepped(Pull(ok))
    {
      Log(Pull(ok));
    }

    method RecreateService(ok: bool)
      requires Valid() && world.pc.Pulled?
      modifies this`world, this`steps
      ensures Valid() && Stepped(Up(ok))
    {
      Log(Up(ok));
    }

    /** The closing status of an update. */
    method WriteStatus(report: Status, w: Write)
      requires Valid()
      requires (world.pc.Recreated? && report == Done(Flat(world.pc.v))) || (world.pc.Broken? && report == Failed(Flat(world.pc.v)))
      modifies this`status, this`world, this`steps
      ensures Valid() && Stepped(Report(w))
    {
      status := Put(status, report, w);
      Log(Report(w));
    }

    /** The sidecar dies and starts again. */
    method Restart()
      requires Valid()
      modifies this`world, this`steps
      ensures Valid() && Stepped(Crash)
    {
      Log(Crash);
    }

    // ----- the sidecar, undisturbed

    method ApplyUpdate(version: string, announce: Write, sedOk: bool, other: seq<string>, pullOk: bool, upOk: bool,
                       report: Write)
      requires Valid() && world.pc == Consumed(version) && Accepts(version)
      modifies this`status, this`compose, this`world, this`steps
      ensures Valid() && world.pc == Polling && initial == old(initial)
      ensures compose == if sedOk then Rewritten(old(compose), version, other) else old(compose)
      ensures status == Put(Put(old(status), Applying(Flat(version)), announce),
                            if sedOk && pullOk && upOk then Done(Flat(version)) else Failed(Flat(version)), report)
      ensures world.applied == old(world).applied + [version] && world.placed == old(world).placed
    {
      hide After, Accepts, Extract, Rewritten, Flat;
      var ok := Announce(version, announce);
      RewriteCompose(version, sedOk, other);
      if !sedOk { WriteStatus(Failed(Flat(version)), report); return; }
      PullImage(pullOk);
      if !pullOk { WriteStatus(Failed(Flat(version)), report); return; }
      RecreateService(upOk);
      if !upOk { WriteStatus(Failed(Flat(version)), report); return; }
      WriteStatus(Done(Flat(version)), report);
    }

    /** One pass of the loop: whatever the request says is consumed, and it is applied exactly if the
        sidecar takes it. */
    method Poll(announce: Write, sedOk: bool, other: seq<string>, pullOk: bool, upOk: bool, report: Write)
      requires Valid() && world.pc == Polling
      modifies this
      ensures Valid() && world.pc == Polling && initial == old(initial) && request == None
      ensures old(request).None? ==> status == old(status) && compose == old(compose)
      ensures old(request).Some? ==>
                var v := Extract(old(request).value);
                if Accepts(v) then
                  && compose == (if sedOk then Rewritten(old(compose), v, other) else old(compose))
                  && status == Put(Put(old(status), Applying(Flat(v)), announce),
                                   if sedOk && pullOk && upOk then Done(Flat(v)) else Failed(Flat(v)), report)
                else compose == old(compose) && status == Put(old(status), Failed(""), announce)
      ensures world.applied == old(world).applied
                + if old(request).Some? && Accepts(Extract(old(request).value)) then [Extract(old(request).value)] else []
    {
      hide After, Accepts, Extract, Rewritten, Flat;
      if request.Some? {
        var version := ReadRequest();
        RemoveRequest();
        if Accepts(version) {
          ApplyUpdate(version, announce, sedOk, other, pullOk, upOk, report);
        } else {
          var rejected := Announce(version, announce);
        }
      }
    }
  }
}

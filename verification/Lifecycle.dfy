/**
 One server's lifecycle as the steps the agent takes under its lock.

 A step is one lock-held section with the outcomes of its Docker calls. A run is any interleaving of steps:
 power actions, suspension, the readiness watcher, the fatal-boot handler and the stats-stream handler.
 */
module Lifecycle {
  import opened Text

  datatype PowerState = Offline | Starting | Running | Stopping | Crashed

  /** No game process is meant to be running. */
  predicate IsStopped(st: PowerState) {
    st == Offline || st == Crashed
  }

  predicate IsLive(st: PowerState) {
    st == Starting || st == Running
  }

  /** The agent's own view of a server; `removed` says its background context is cancelled. */
  datatype Agent = Agent(container: string, state: PowerState, pump: bool, collector: bool, suspended: bool, removed: bool)

  const FRESH: Agent := Agent("", Offline, false, false, false, false)

  datatype StreamEnd = Ignore | Exited | Died

  /** classifyStreamEnd. */
  function Classify(state: PowerState, agentStopping: bool, inspectOK: bool, running: bool, exitCode: int): StreamEnd {
    if agentStopping then Ignore
    else if state != Running && state != Starting then Ignore
    else if !inspectOK || running then Ignore
    else if exitCode == 0 then Exited
    else Died
  }

  datatype Step =
    | Create(builds: bool, id: Option<string>)
    | Start(attaches: bool, starts: bool)
    | Promote
    | FatalBoot
    | Stop(stops: bool)
    | Kill(kills: bool)
    | Recreate(removes: bool, builds: bool, id: Option<string>)
    | SetSuspended(flag: bool)
    | StreamEnded(inspectOK: bool, running: bool, exitCode: int)
    | Adopt(found: string, running: bool, attaches: bool)
    | Remove(removes: bool)

  function Teardown(s: Agent): Agent {
    s.(pump := false, collector := false)
  }

  // ----- what each power action accepts -----

  predicate StartAccepted(s: Agent) {
    s.container != "" && !IsLive(s.state) && !s.suspended
  }

  predicate StopAccepted(s: Agent) {
    s.container != "" && s.state != Offline && s.state != Stopping
  }

  /** The agent after one step. */
  function Apply(s: Agent, step: Step): Agent {
    match step
    case Create(builds, id) =>
      if s.container != "" || !builds || id.None? then s else s.(container := id.value, state := Offline)
    case Start(attaches, starts) =>
      if !StartAccepted(s) || !attaches then s
      else if !starts then s.(state := Crashed, pump := false)
      else s.(state := Starting, pump := true, collector := true)
    case Promote => if s.state == Starting then s.(state := Running) else s
    case FatalBoot => if s.state == Starting then Teardown(s.(state := Crashed)) else s
    case Stop(stops) =>
      if !StopAccepted(s) then s
      else if !stops then s.(state := Crashed)
      else Teardown(s.(state := Offline))
    case Kill(kills) => if s.container == "" || !kills then s else Teardown(s.(state := Offline))
    case Recreate(removes, builds, id) =>
      if !IsStopped(s.state) || (s.container != "" && !removes) then s
      else s.(container := if builds && id.Some? then id.value else "")
    case SetSuspended(flag) => s.(suspended := flag)
    case StreamEnded(inspectOK, running, exitCode) =>
      (match Classify(s.state, s.removed, inspectOK, running, exitCode)
       case Ignore => s
       case Exited => Teardown(s.(state := Offline))
       case Died => Teardown(s.(state := Crashed)))
    case Adopt(id, running, attaches) =>
      if id == "" then s
      else if !running then s.(container := id, state := Offline)
      else if !attaches then s.(container := "")
      else s.(container := id, state := Running, pump := true, collector := true)
    case Remove(removes) =>
      var t := Teardown(s.(removed := true));
      if s.container == "" || !removes then t else t.(container := "", state := Offline)
  }

  function Run(s: Agent, steps: seq<Step>): Agent
    decreases |steps|
  {
    if steps == [] then s else Run(Apply(s, steps[0]), steps[1..])
  }

  lemma {:induction false} RunAppend(s: Agent, a: seq<Step>, b: seq<Step>)
    ensures Run(s, a + b) == Run(Run(s, a), b)
    decreases |a|
  {
    if a == [] {
      assert a + b == b;
    } else {
      assert (a + b)[0] == a[0] && (a + b)[1..] == a[1..] + b;
      RunAppend(Apply(s, a[0]), a[1..], b);
    }
  }

  // ----- the invariant -----

  /** With the lock free no stop is half done, and a live server has its container and both workers. */
  predicate Inv(s: Agent) {
    s.state != Stopping && (IsLive(s.state) ==> s.container != "" && s.pump && s.collector)
  }

  /** The steps that break it: a failed removal, or a failed adoption, of a live server. */
  predicate Breaks(s: Agent, step: Step) {
    && IsLive(s.state)
    && (|| (step.Remove? && !step.removes)
        || (step.Adopt? && step.found != "" && step.running && !step.attaches))
  }

  lemma {:induction false} InvStep(s: Agent, step: Step)
    requires Inv(s)
    ensures Inv(Apply(s, step)) <==> !Breaks(s, step)
  {
  }

  /** No step of the run breaks the invariant where it is taken. */
  predicate Sound(s: Agent, steps: seq<Step>)
    decreases |steps|
  {
    steps == [] || (!Breaks(s, steps[0]) && Sound(Apply(s, steps[0]), steps[1..]))
  }

  lemma {:induction false} InvRun(s: Agent, steps: seq<Step>)
    requires Inv(s) && Sound(s, steps)
    ensures Inv(Run(s, steps))
    decreases |steps|
  {
    if steps != [] {
      InvStep(s, steps[0]);
      InvRun(Apply(s, steps[0]), steps[1..]);
    }
  }

  /**
   Every interleaving from a fresh server keeps the invariant, with any first step (an adoption at boot
   included) and then neither an adoption nor a failed removal.
   */
  lemma {:induction false} Reachable(first: Step, steps: seq<Step>)
    requires forall i :: 0 <= i < |steps| ==> !(steps[i].Remove? && !steps[i].removes) && !steps[i].Adopt?
    ensures Inv(Run(Apply(FRESH, first), steps))
  {
    InvStep(FRESH, first);
    SoundRun(Apply(FRESH, first), steps);
    InvRun(Apply(FRESH, first), steps);
  }

  lemma {:induction false} SoundRun(s: Agent, steps: seq<Step>)
    requires forall i :: 0 <= i < |steps| ==> !(steps[i].Remove? && !steps[i].removes) && !steps[i].Adopt?
    ensures Sound(s, steps)
    decreases |steps|
  {
    if steps != [] {
      SoundRun(Apply(s, steps[0]), steps[1..]);
    }
  }

  // ----- staying down -----

  /** Steps that cannot bring a stopped server up. */
  predicate Quiet(step: Step) {
    !step.Start? && !(step.Adopt? && step.running)
  }

  /** After a stop the watchers change nothing: only a start or an adoption makes the server live again. */
  lemma {:induction false} StaysDown(s: Agent, steps: seq<Step>)
    requires IsStopped(s.state) && forall i :: 0 <= i < |steps| ==> Quiet(steps[i])
    ensures IsStopped(Run(s, steps).state)
    decreases |steps|
  {
    if steps != [] {
      StaysDown(Apply(s, steps[0]), steps[1..]);
    }
  }

  lemma {:induction false} StopsAndStaysDown(s: Agent, how: Step, steps: seq<Step>)
    requires (how == Stop(true) && StopAccepted(s)) || (how == Kill(true) && s.container != "")
    requires forall i :: 0 <= i < |steps| ==> Quiet(steps[i])
    ensures var down := Apply(s, how);
      down.state == Offline && !down.pump && !down.collector && IsStopped(Run(down, steps).state)
  {
    StaysDown(Apply(s, how), steps);
  }

  // ----- suspension -----

  /** Steps under which a suspension stands. */
  predicate KeepsSuspension(step: Step) {
    step != SetSuspended(false) && !step.Adopt?
  }

  lemma {:induction false} SuspendedStaysDown(s: Agent, steps: seq<Step>)
    requires s.suspended && IsStopped(s.state) && forall i :: 0 <= i < |steps| ==> KeepsSuspension(steps[i])
    ensures Run(s, steps).suspended && IsStopped(Run(s, steps).state)
    decreases |steps|
  {
    if steps != [] {
      SuspendedStaysDown(Apply(s, steps[0]), steps[1..]);
    }
  }

  lemma {:induction false} FlagStays(s: Agent, steps: seq<Step>)
    requires s.suspended && forall i :: 0 <= i < |steps| ==> KeepsSuspension(steps[i])
    ensures Run(s, steps).suspended
    decreases |steps|
  {
    if steps != [] {
      FlagStays(Apply(s, steps[0]), steps[1..]);
    }
  }

  /**
   SetSuspended sets the flag in one section and kills in a second one when the server was live. Whatever runs
   between the two and after them, the server never comes up again while the suspension stands.
   */
  lemma {:induction false} SuspensionHolds(s: Agent, between: seq<Step>, after: seq<Step>)
    requires Inv(s)
    requires forall i :: 0 <= i < |between| ==> KeepsSuspension(between[i])
    requires forall i :: 0 <= i < |after| ==> KeepsSuspension(after[i])
    ensures var flagged := Run(Apply(s, SetSuspended(true)), between);
      && (!IsLive(s.state) ==> IsStopped(Run(flagged, after).state))
      && (flagged.container != "" ==> IsStopped(Run(Apply(flagged, Kill(true)), after).state))
  {
    var first := Apply(s, SetSuspended(true));
    var flagged := Run(first, between);
    FlagStays(first, between);
    if !IsLive(s.state) {
      SuspendedStaysDown(first, between);
      SuspendedStaysDown(flagged, after);
    }
    if flagged.container != "" {
      SuspendedStaysDown(Apply(flagged, Kill(true)), after);
    }
  }

  // ----- recovering from failures -----

  /** After any sound run an unsuspended server with a container accepts a start or a stop, never neither. */
  lemma {:induction false} NeverStuck(s: Agent, steps: seq<Step>)
    requires Inv(s) && Sound(s, steps)
    ensures var t := Run(s, steps);
      t.container != "" && !t.suspended ==>
        (StartAccepted(t) <==> IsStopped(t.state)) && (StartAccepted(t) || StopAccepted(t))
  {
    InvRun(s, steps);
  }

  // ----- staying up -----

  /** Steps that can take a live server down: a stop, a kill, a fatal boot line, a container seen gone, a removal, an adoption. */
  predicate Lowers(step: Step) {
    match step
    case Stop(_) => true
    case Kill(kills) => kills
    case FatalBoot => true
    case StreamEnded(inspectOK, running, _) => inspectOK && !running
    case Remove(_) => true
    case Adopt(_, _, _) => true
    case _ => false
  }

  /** Nothing else does: under any other steps, recreations and suspensions included, a live server keeps its container and workers. */
  lemma {:induction false} StaysUp(s: Agent, steps: seq<Step>)
    requires Inv(s) && IsLive(s.state) && forall i :: 0 <= i < |steps| ==> !Lowers(steps[i])
    ensures var t := Run(s, steps);
      IsLive(t.state) && t.container == s.container && t.pump && t.collector && (s.state == Running ==> t.state == Running)
    decreases |steps|
  {
    if steps != [] {
      StaysUp(Apply(s, steps[0]), steps[1..]);
    }
  }

  // ----- where each state comes from -----

  /** A server is starting after a step when it was and nothing moved it, or when a start went through. */
  lemma {:induction false} BecomesStarting(s: Agent, step: Step)
    requires s.state != Stopping
    ensures Apply(s, step).state == Starting && s.state != Starting <==>
      && step == Start(true, true)
      && s.container != "" && !s.suspended && (s.state == Offline || s.state == Crashed)
  {
  }

  /** It is running after its ready line while starting, or after the adoption of a running container. */
  lemma {:induction false} BecomesRunning(s: Agent, step: Step)
    ensures Apply(s, step).state == Running && s.state != Running <==>
      || (step == Promote && s.state == Starting)
      || (step.Adopt? && step.found != "" && step.running && step.attaches && s.state != Running)
  {
  }

  /** A live server crashes by a failed stop, a fatal boot line while starting, or a container seen gone with an error. */
  lemma {:induction false} LiveCrashes(s: Agent, step: Step)
    requires Inv(s) && (s.state == Starting || s.state == Running)
    ensures Apply(s, step).state == Crashed <==>
      || step == Stop(false)
      || (step == FatalBoot && s.state == Starting)
      || (step.StreamEnded? && !s.removed && step.inspectOK && !step.running && step.exitCode != 0)
  {
  }

  /** It goes offline by a stop, a kill or a removal that worked, a clean exit, or the adoption of a stopped container. */
  lemma {:induction false} LiveGoesOffline(s: Agent, step: Step)
    requires Inv(s) && (s.state == Starting || s.state == Running)
    ensures Apply(s, step).state == Offline <==>
      || step == Stop(true) || step == Kill(true) || step == Remove(true)
      || (step.StreamEnded? && !s.removed && step.inspectOK && !step.running && step.exitCode == 0)
      || (step.Adopt? && step.found != "" && !step.running)
  {
  }

  /** A stopped server changes between its two states only by a failed start, or by an action that leaves it offline. */
  lemma {:induction false} StoppedMoves(s: Agent, step: Step)
    requires s.state == Offline || s.state == Crashed
    ensures Apply(s, step).state == Crashed && s.state == Offline <==>
      step == Start(true, false) && s.state == Offline && s.container != "" && !s.suspended
    ensures Apply(s, step).state == Offline && s.state == Crashed <==>
      && s.state == Crashed
      && (|| (step.Create? && s.container == "" && step.builds && step.id.Some?)
          || (s.container != "" && (step == Stop(true) || step == Kill(true) || step == Remove(true)))
          || (step.Adopt? && step.found != "" && !step.running))
  {
  }

  /** What is left attached, and to which container, after a step that changes the state of a server or ends it. */
  lemma {:induction false} WorkersAfter(s: Agent, step: Step)
    requires Inv(s)
    ensures Apply(s, step).pump && !s.pump ==> Apply(s, step).collector && (Apply(s, step).state == Starting || step.Adopt?)
    ensures s.pump && !Apply(s, step).pump ==>
      || step.Remove? || step.Kill? || step == Stop(true) || step == FatalBoot || step.StreamEnded? || step == Start(true, false)
    ensures step.Remove? || (step == Kill(true) && s.container != "") || (step == Stop(true) && IsLive(s.state)) ==>
      !Apply(s, step).pump && !Apply(s, step).collector
  {
  }

  /** The container changes hands only by creation, recreation, adoption or removal, to the container named there. */
  lemma {:induction false} ContainerAfter(s: Agent, step: Step)
    ensures Apply(s, step).container ==
      match step
      case Create(true, Some(id)) => if s.container == "" then id else s.container
      case Recreate(removes, builds, id) =>
        if (s.state == Offline || s.state == Crashed) && (s.container == "" || removes)
        then (if builds && id.Some? then id.value else "") else s.container
      case Adopt(found, running, attaches) => if found == "" then s.container else if running && !attaches then "" else found
      case Remove(true) => ""
      case _ => s.container
    ensures Apply(s, step).suspended == (if step.SetSuspended? then step.flag else s.suspended)
    ensures Apply(s, step).removed == (s.removed || step.Remove?)
  {
  }

  /** A starting server that nothing takes down is running exactly when its ready line has been seen. */
  lemma {:induction false} RunningOncePromoted(s: Agent, steps: seq<Step>)
    requires Inv(s) && IsLive(s.state) && forall i :: 0 <= i < |steps| ==> !Lowers(steps[i])
    ensures Run(s, steps).state == Running <==> s.state == Running || Promote in steps
    decreases |steps|
  {
    if steps != [] {
      StaysUp(s, [steps[0]]);
      assert [steps[0]][1..] == [];
      assert Run(s, [steps[0]]) == Run(Apply(s, steps[0]), []);
      BecomesRunning(s, steps[0]);
      RunningOncePromoted(Apply(s, steps[0]), steps[1..]);
      assert steps == [steps[0]] + steps[1..];
    }
  }

  /** A live server ends crashed or offline as the first step that takes it down says, whatever quiet steps follow. */
  lemma {:induction false} EndsAsTakenDown(s: Agent, before: seq<Step>, step: Step, after: seq<Step>)
    requires Inv(s) && IsLive(s.state) && (forall i :: 0 <= i < |before| ==> !Lowers(before[i]))
    requires !IsLive(Apply(Run(s, before), step).state) && !Breaks(Run(s, before), step)
    requires forall i :: 0 <= i < |after| ==> after[i].Promote? || after[i].FatalBoot? || after[i].StreamEnded? || after[i].SetSuspended?
    ensures var down := Apply(Run(s, before), step);
      IsStopped(down.state) && Run(down, after).state == down.state
  {
    StaysUp(s, before);
    var up := Run(s, before);
    InvStep(up, step);
    WatchersLeave(Apply(up, step), after);
  }

  /** The watchers leave a stopped server as it is. */
  lemma {:induction false} WatchersLeave(s: Agent, steps: seq<Step>)
    requires IsStopped(s.state)
    requires forall i :: 0 <= i < |steps| ==> steps[i].Promote? || steps[i].FatalBoot? || steps[i].StreamEnded? || steps[i].SetSuspended?
    ensures Run(s, steps).state == s.state && Run(s, steps).container == s.container
    decreases |steps|
  {
    if steps != [] {
      WatchersLeave(Apply(s, steps[0]), steps[1..]);
    }
  }

  // ----- restarting -----

  /** The steps after which a startable server cannot be started: it came up, was suspended, or lost its container. */
  predicate Unseats(step: Step) {
    match step
    case Start(attaches, starts) => attaches && starts
    case SetSuspended(flag) => flag
    case Adopt(found, running, _) => found != "" && running
    case Recreate(removes, builds, id) => removes && !(builds && id.Some? && id.value != "")
    case Remove(removes) => removes
    case _ => false
  }

  lemma {:induction false} StartableStep(s: Agent, step: Step)
    requires StartAccepted(s) && s.state != Stopping
    ensures StartAccepted(Apply(s, step)) <==> !Unseats(step)
    ensures !Unseats(step) ==> Apply(s, step).state != Stopping
  {
  }

  lemma {:induction false} StartableRun(s: Agent, steps: seq<Step>)
    requires StartAccepted(s) && s.state != Stopping && forall i :: 0 <= i < |steps| ==> !Unseats(steps[i])
    ensures StartAccepted(Run(s, steps))
    decreases |steps|
  {
    if steps != [] {
      StartableStep(s, steps[0]);
      StartableRun(Apply(s, steps[0]), steps[1..]);
    }
  }

  /**
   performPower("restart") with the lock free in between: the state is read, `before` runs, the stop takes its
   section unless the state read was a stopped one, `between` runs, and the start takes its section.
   */
  function RestartAmong(s: Agent, before: seq<Step>, stops: bool, between: seq<Step>, attaches: bool, starts: bool): (r: (Agent, bool)) {
    var s1 := Run(s, before);
    if !IsStopped(s.state) && !(StopAccepted(s1) && stops) then (Apply(s1, Stop(stops)), false)
    else
      var mid := Run(if IsStopped(s.state) then s1 else Apply(s1, Stop(stops)), between);
      (Apply(mid, Start(attaches, starts)), StartAccepted(mid) && attaches && starts)
  }

  /** Steps that leave a live, unsuspended server so. */
  predicate LeavesUp(step: Step) {
    !Lowers(step) && step != SetSuspended(true)
  }

  lemma {:induction false} UnsuspendedStays(s: Agent, steps: seq<Step>)
    requires !s.suspended && forall i :: 0 <= i < |steps| ==> LeavesUp(steps[i])
    ensures !Run(s, steps).suspended
    decreases |steps|
  {
    if steps != [] {
      UnsuspendedStays(Apply(s, steps[0]), steps[1..]);
    }
  }

  /**
   A restart whose Docker calls succeed starts the server under every interleaving that neither takes it down before
   the stop nor unseats it before the start; and a restart that says it started did so, with both workers.
   */
  lemma {:induction false} RestartStarts(s: Agent, before: seq<Step>, between: seq<Step>)
    requires Inv(s) && s.container != "" && !s.suspended
    requires forall i :: 0 <= i < |before| ==> if IsStopped(s.state) then !Unseats(before[i]) else LeavesUp(before[i])
    requires forall i :: 0 <= i < |between| ==> !Unseats(between[i])
    ensures var (t, ok) := RestartAmong(s, before, true, between, true, true);
      ok && t.state == Starting && t.pump && t.collector && t.container != "" && !t.suspended
  {
    var s1 := Run(s, before);
    if IsStopped(s.state) {
      StartableRun(s, before + between);
      RunAppend(s, before, between);
    } else {
      StaysUp(s, before);
      UnsuspendedStays(s, before);
      StartableRun(Apply(s1, Stop(true)), between);
    }
  }

  /** However a restart ends, it keeps the invariant under sound interleavings. */
  lemma {:induction false} RestartKeepsInv(s: Agent, before: seq<Step>, stops: bool, between: seq<Step>, attaches: bool, starts: bool)
    requires Inv(s) && Sound(s, before)
    requires var s1 := Run(s, before); Sound(if IsStopped(s.state) then s1 else Apply(s1, Stop(stops)), between)
    ensures Inv(RestartAmong(s, before, stops, between, attaches, starts).0)
  {
    var s1 := Run(s, before);
    InvRun(s, before);
    InvStep(s1, Stop(stops));
    var down := if IsStopped(s.state) then s1 else Apply(s1, Stop(stops));
    InvRun(down, between);
    InvStep(Run(down, between), Start(attaches, starts));
  }

  /** Without other steps in between it is a stop and a start. */
  lemma {:induction false} RestartAlone(s: Agent)
    requires Inv(s) && s.container != "" && !s.suspended
    ensures RestartAmong(s, [], true, [], true, true) == (s.(state := Starting, pump := true, collector := true), true)
  {
  }

  // ----- what the documentation promises and the code does not -----

  /** A stopped server has no worker attached. */
  predicate Idle(s: Agent) {
    IsStopped(s.state) ==> !s.pump && !s.collector
  }

  /** The steps that stop a live server and leave its workers: a failed stop, and the adoption of a stopped container. */
  predicate Orphans(s: Agent, step: Step) {
    IsLive(s.state) && (step == Stop(false) || (step.Adopt? && step.found != "" && !step.running))
  }

  /** Workers are left behind by those two steps and no other. */
  lemma {:induction false} IdleStep(s: Agent, step: Step)
    requires Inv(s) && Idle(s) && !Breaks(s, step)
    ensures Idle(Apply(s, step)) <==> !Orphans(s, step)
  {
  }

  /** "Crashed" means no worker is left, except after a stop that failed. */
  lemma {:induction false} CrashedStep(s: Agent, step: Step)
    requires Inv(s) && Idle(s) && !Breaks(s, step)
    ensures var t := Apply(s, step);
      t.state == Crashed && (t.pump || t.collector) <==> IsLive(s.state) && step == Stop(false)
  {
  }

  /** No step of the run breaks the invariant or leaves workers behind. */
  predicate Tidy(s: Agent, steps: seq<Step>)
    decreases |steps|
  {
    steps == [] || (!Breaks(s, steps[0]) && !Orphans(s, steps[0]) && Tidy(Apply(s, steps[0]), steps[1..]))
  }

  lemma {:induction false} IdleRun(s: Agent, steps: seq<Step>)
    requires Inv(s) && Idle(s) && Tidy(s, steps)
    ensures Inv(Run(s, steps)) && Idle(Run(s, steps))
    decreases |steps|
  {
    if steps != [] {
      InvStep(s, steps[0]);
      IdleStep(s, steps[0]);
      IdleRun(Apply(s, steps[0]), steps[1..]);
    }
  }

  /** Over such runs an accepted start never meets a worker that is still attached. */
  lemma {:induction false} StartFindsNoWorker(s: Agent, steps: seq<Step>)
    requires Inv(s) && Idle(s) && Tidy(s, steps)
    ensures StartAccepted(Run(s, steps)) ==> !Run(s, steps).pump && !Run(s, steps).collector
  {
    IdleRun(s, steps);
  }

  /**
   In a run that keeps the invariant, the first step that leaves workers behind shows: right after it the server
   is stopped with both workers attached, and a start is accepted over them unless the server is suspended.
   */
  lemma {:induction false} OrphansShow(s: Agent, steps: seq<Step>, step: Step)
    requires Inv(s) && Idle(s) && Tidy(s, steps) && Orphans(Run(s, steps), step)
    ensures var t := Apply(Run(s, steps), step);
      IsStopped(t.state) && t.pump && t.collector && (StartAccepted(t) <==> !Run(s, steps).suspended)
  {
    IdleRun(s, steps);
  }

  /** Such a run from a fresh server. */
  lemma {:induction false} CrashedWithWorkers()
    ensures Run(FRESH, [Create(true, Some("c")), Start(true, true), Stop(false)]) == Agent("c", Crashed, true, true, false, false)
  {
    var steps := [Create(true, Some("c")), Start(true, true), Stop(false)];
    var s1 := Apply(FRESH, steps[0]);
    var s2 := Apply(s1, steps[1]);
    assert Run(s2, steps[1..][1..]) == Run(Apply(s2, Stop(false)), steps[1..][1..][1..]);
  }

  /** A removal that fails on a live server leaves it live without workers. */
  lemma {:induction false} FailedRemovalBreaks()
    ensures var s := Agent("c", Running, true, true, false, false);
      Inv(s) && !Inv(Apply(s, Remove(false)))
  {
  }

  // ----- the in-memory handle -----

  class Server {
    var container: string
    var state: PowerState
    var pump: bool
    var collector: bool
    var suspended: bool
    var removed: bool

    function View(): Agent
      reads this
    {
      Agent(container, state, pump, collector, suspended, removed)
    }

    constructor ()
      ensures View() == FRESH
    {
      container, state, pump, collector, suspended, removed := "", Offline, false, false, false, false;
    }

    method TeardownRuntime()
      modifies this
      ensures View() == Teardown(old(View()))
    {
      pump := false;
      collector := false;
    }

    method CreateContainer(builds: bool, id: Option<string>) returns (ok: bool)
      modifies this
      ensures View() == Apply(old(View()), Create(builds, id))
      ensures ok <==> old(container) == "" && builds && id.Some?
    {
      if container != "" || !builds || id.None? {
        return false;
      }
      container := id.value;
      state := Offline;
      return true;
    }

    /** Start: attach the console first, then start the container; a failed start leaves the server crashed. */
    method StartServer(attaches: bool, starts: bool) returns (ok: bool)
      modifies this
      ensures View() == Apply(old(View()), Start(attaches, starts))
      ensures ok <==> old(StartAccepted(View())) && attaches && starts
    {
      if container == "" || state == Running || state == Starting || suspended {
        return false;
      }
      if !attaches {
        return false;
      }
      pump := true;
      state := Starting;
      if !starts {
        state := Crashed;
        pump := false;
        return false;
      }
      collector := true;
      return true;
    }

    /** Stop passes through `stopping` with the lock held; a failed stop leaves the server crashed. */
    method StopServer(stops: bool) returns (ok: bool)
      modifies this
      ensures View() == Apply(old(View()), Stop(stops))
      ensures ok <==> old(StopAccepted(View())) && stops
    {
      if container == "" || state == Offline || state == Stopping {
        return false;
      }
      state := Stopping;
      if !stops {
        state := Crashed;
        return false;
      }
      state := Offline;
      TeardownRuntime();
      return true;
    }

    method KillServer(kills: bool) returns (ok: bool)
      modifies this
      ensures View() == Apply(old(View()), Kill(kills))
      ensures ok <==> old(container) != "" && kills
    {
      if container == "" || !kills {
        return false;
      }
      state := Offline;
      TeardownRuntime();
      return true;
    }

    method PromoteStarting()
      modifies this
      ensures View() == Apply(old(View()), Promote)
    {
      if state == Starting {
        state := Running;
      }
    }

    method HandleFatalBootError()
      modifies this
      ensures View() == Apply(old(View()), FatalBoot)
    {
      if state != Starting {
        return;
      }
      state := Crashed;
      TeardownRuntime();
    }

    method HandleStatsStreamEnded(inspectOK: bool, running: bool, exitCode: int)
      modifies this
      ensures View() == Apply(old(View()), StreamEnded(inspectOK, running, exitCode))
    {
      match Classify(state, removed, inspectOK, running, exitCode) {
        case Exited =>
          state := Offline;
          TeardownRuntime();
        case Died =>
          state := Crashed;
          TeardownRuntime();
        case Ignore =>
      }
    }

    /** The container half of UpdateVariables and Reinstall. */
    method RecreateContainer(removes: bool, builds: bool, id: Option<string>) returns (ok: bool)
      modifies this
      ensures View() == Apply(old(View()), Recreate(removes, builds, id))
      ensures ok <==> old(IsStopped(state)) && (old(container) != "" ==> removes) && builds && id.Some?
    {
      if !IsStopped(state) {
        return false;
      }
      if container != "" {
        if !removes {
          return false;
        }
        container := "";
      }
      if !builds || id.None? {
        return false;
      }
      container := id.value;
      return true;
    }

    method AdoptContainer(id: string, running: bool, attaches: bool) returns (ok: bool)
      modifies this
      ensures View() == Apply(old(View()), Adopt(id, running, attaches))
      ensures ok <==> id != "" && (running ==> attaches)
    {
      if id == "" {
        return false;
      }
      container := id;
      if !running {
        state := Offline;
        return true;
      }
      if !attaches {
        container := "";
        return false;
      }
      pump, state, collector := true, Running, true;
      return true;
    }

    method RemoveServer(removes: bool) returns (ok: bool)
      modifies this
      ensures View() == Apply(old(View()), Remove(removes))
      ensures ok <==> old(container) == "" || removes
    {
      TeardownRuntime();
      removed := true;
      if container == "" {
        return true;
      }
      if !removes {
        return false;
      }
      container, state := "", Offline;
      return true;
    }

    /** The first section of SetSuspended: the flag, and whether a kill must follow. */
    method SetSuspendedFlag(flag: bool) returns (mustKill: bool)
      modifies this
      ensures View() == Apply(old(View()), SetSuspended(flag))
      ensures mustKill <==> flag && IsLive(old(state))
    {
      suspended := flag;
      mustKill := flag && (state == Running || state == Starting);
    }

    /** performPower("restart"): stop unless already stopped, then start. */
    method Restart(stops: bool, attaches: bool, starts: bool) returns (ok: bool)
      requires Inv(View())
      modifies this
      ensures Inv(View())
      ensures ok <==> old(container) != "" && !old(suspended) && (old(IsStopped(state)) || stops) && attaches && starts
      ensures (View(), ok) == RestartAmong(old(View()), [], stops, [], attaches, starts)
    {
      ghost var before := View();
      if !IsStopped(state) {
        var stopped := StopServer(stops);
        if !stopped {
          InvStep(before, Stop(stops));
          return false;
        }
      }
      ghost var middle := View();
      ok := StartServer(attaches, starts);
      InvStep(before, Stop(stops));
      InvStep(middle, Start(attaches, starts));
    }
  }
}

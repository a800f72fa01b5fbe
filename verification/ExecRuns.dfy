/** Every run of the streaming generator, including the ones dropped half way, against every run of the one-shot call. */
module ExecRuns {
  import opened Basics
  import opened Exec

  // ---- the generator as a transition system ----

  /** Where the generator is suspended. Between two phases it runs without a suspension point. */
  datatype Phase =
    | Unpolled     // created, never polled: no guard exists yet
    | Selecting    // in the select loop, guard armed
    | Killing      // deadline fell, guard disarmed, the kill is awaited
    | Removing     // the removal is awaited
    | Yielded      // Finished has been handed out
    | Ended        // ran to its end
    | Dropped(from: Phase)   // dropped by its consumer while in that phase

  datatype Gen = Gen(phase: Phase, taken: nat, attachDone: bool, waitDone: bool, pendingExit: Option<int>,
                     timedOut: bool, events: seq<StreamEvent>, controls: seq<Control>)

  const FRESH := Gen(Unpolled, 0, false, false, None, false, [], [])

  datatype Action =
    | FirstPoll
    | Deadline
    | WaitReady(durationMs: nat)
    | AttachReady(durationMs: nat)
    | CallReturned(durationMs: nat)   // the awaited kill or removal came back
    | ResumeLast                      // polled again after Finished
    | DropStream

  /** Leaving the select loop as soon as both sources are done: disarm and hand out Finished. */
  function Settle(g: Gen, durationMs: nat): Gen {
    if g.waitDone && g.attachDone then
      var exitCode := match g.pendingExit { case Some(code) => code case None => -1 };
      g.(phase := Yielded, events := g.events + [Finished(exitCode, false, durationMs)])
    else g
  }

  function TakeItem(attach: seq<LogItem>, g: Gen): Gen
    requires g.taken <= |attach|
  {
    if g.taken == |attach| then g.(attachDone := true)
    else
      match attach[g.taken]
      case StdOut(message) => g.(taken := g.taken + 1, events := g.events + [Stdout(message)])
      case StdErr(message) => g.(taken := g.taken + 1, events := g.events + [Stderr(message)])
      case OtherOutput => g.(taken := g.taken + 1)
      case LogError => g.(attachDone := true)
  }

  /** The guard exists and is armed exactly in the select loop. */
  predicate GuardArmed(g: Gen) { g.phase.Selecting? }

  predicate Enabled(g: Gen, a: Action) {
    match a
    case FirstPoll => g.phase.Unpolled?
    case Deadline => g.phase.Selecting?
    case WaitReady(_) => g.phase.Selecting? && !g.waitDone
    case AttachReady(_) => g.phase.Selecting? && !g.attachDone
    case CallReturned(_) => g.phase.Killing? || g.phase.Removing?
    case ResumeLast => g.phase.Yielded?
    case DropStream => !g.phase.Dropped?
  }

  function Step(attach: seq<LogItem>, wait: WaitItem, g: Gen, a: Action): Gen
    requires g.taken <= |attach| && Enabled(g, a)
  {
    match a
    case FirstPoll => g.(phase := Selecting)
    case Deadline => g.(phase := Killing, timedOut := true, controls := g.controls + [Kill(false)])
    case WaitReady(durationMs) => Settle(g.(waitDone := true, pendingExit := DeliveredCode(wait)), durationMs)
    case AttachReady(durationMs) => Settle(TakeItem(attach, g), durationMs)
    case CallReturned(durationMs) =>
      if g.phase.Killing? then g.(phase := Removing, controls := g.controls + [Remove(false)])
      else g.(phase := Yielded, events := g.events + [Finished(-1, true, durationMs)])
    case ResumeLast => g.(phase := Ended)
    case DropStream =>
      g.(phase := Dropped(g.phase), controls := g.controls + if GuardArmed(g) then DETACHED_CLEANUP else [])
  }

  /** The state after a schedule, if every action was enabled when it came. */
  function Run(attach: seq<LogItem>, wait: WaitItem, schedule: seq<Action>): (r: Option<Gen>)
    ensures r.Some? ==> r.value.taken <= |attach|
  {
    if |schedule| == 0 then Some(FRESH)
    else
      var before := Run(attach, wait, schedule[..|schedule| - 1]);
      var a := schedule[|schedule| - 1];
      if before.None? || !Enabled(before.value, a) then None
      else Some(Step(attach, wait, before.value, a))
  }

  // ---- the invariant of every run ----

  ghost predicate Inv(attach: seq<LogItem>, wait: WaitItem, g: Gen) {
    var items := Readable(attach);
    && g.taken <= |items| && (g.attachDone ==> g.taken == |items|)
    && g.pendingExit == (if g.waitDone then DeliveredCode(wait) else None)
    && (g.phase.Yielded? || g.phase.Ended? ==>
          StreamResult(attach, wait, g.taken, g.events) && g.events[|g.events| - 1].timedOut == g.timedOut)
    && (!g.phase.Yielded? && !g.phase.Ended? && !g.phase.Dropped? ==> g.events == ChunkEvents(items[..g.taken]))
    && g.controls == ExpectedControls(g.phase, g.timedOut)
    && (g.phase.Killing? || g.phase.Removing? ==> g.timedOut)
    && (g.phase.Unpolled? || g.phase.Selecting? ==> !g.timedOut)
    && (HandedOut(g.phase) && !g.timedOut ==> g.waitDone)
  }

  /** Finished has been handed out, before or without a drop. */
  predicate HandedOut(phase: Phase) {
    match phase
    case Yielded => true
    case Ended => true
    case Dropped(from) => HandedOut(from)
    case _ => false
  }

  /** Which control calls have been issued, phase by phase. */
  function ExpectedControls(phase: Phase, timedOut: bool): seq<Control> {
    match phase
    case Unpolled => []
    case Selecting => []
    case Killing => [Kill(false)]
    case Removing => EXPLICIT_CLEANUP
    case Yielded => if timedOut then EXPLICIT_CLEANUP else []
    case Ended => if timedOut then EXPLICIT_CLEANUP else []
    case Dropped(from) => if from.Selecting? then DETACHED_CLEANUP else ExpectedControls(from, timedOut)
  }

  lemma TakeItemKeeps(attach: seq<LogItem>, g: Gen)
    requires g.taken <= |Readable(attach)| && !g.attachDone
    requires g.events == ChunkEvents(Readable(attach)[..g.taken])
    ensures var h := TakeItem(attach, g);
            && h.taken <= |Readable(attach)| && (h.attachDone ==> h.taken == |Readable(attach)|)
            && h.events == ChunkEvents(Readable(attach)[..h.taken])
            && h == g.(taken := h.taken, attachDone := h.attachDone, events := h.events)
  {
    ReadableStep(attach, g.taken);
    if g.taken < |Readable(attach)| {
      ChunkStep(Readable(attach), g.taken);
    }
  }

  lemma SettleKeeps(attach: seq<LogItem>, wait: WaitItem, g: Gen, durationMs: nat)
    requires g.phase.Selecting? && g.taken <= |Readable(attach)| && (g.attachDone ==> g.taken == |Readable(attach)|)
    requires g.pendingExit == (if g.waitDone then DeliveredCode(wait) else None)
    requires g.events == ChunkEvents(Readable(attach)[..g.taken])
    requires g.controls == [] && !g.timedOut
    ensures Inv(attach, wait, Settle(g, durationMs))
  {
    var h := Settle(g, durationMs);
    if g.waitDone && g.attachDone {
      assert h.events[..|h.events| - 1] == g.events;
    }
  }

  lemma DropKeeps(attach: seq<LogItem>, wait: WaitItem, g: Gen)
    requires g.taken <= |attach| && Inv(attach, wait, g) && Enabled(g, DropStream)
    ensures Inv(attach, wait, Step(attach, wait, g, DropStream))
  {
    assert g.controls + [] == g.controls && [] + DETACHED_CLEANUP == DETACHED_CLEANUP;
  }

  lemma ControlStepKeeps(attach: seq<LogItem>, wait: WaitItem, g: Gen, a: Action)
    requires g.taken <= |attach| && Inv(attach, wait, g) && Enabled(g, a)
    requires a.FirstPoll? || a.Deadline? || a.ResumeLast?
    ensures Inv(attach, wait, Step(attach, wait, g, a))
  {
  }

  lemma RemovedKeeps(attach: seq<LogItem>, wait: WaitItem, g: Gen, durationMs: nat)
    requires Inv(attach, wait, g) && g.phase.Removing?
    ensures Inv(attach, wait, g.(phase := Yielded, events := g.events + [Finished(-1, true, durationMs)]))
  {
    var events := g.events + [Finished(-1, true, durationMs)];
    assert events[..|events| - 1] == g.events;
    assert StreamResult(attach, wait, g.taken, events);
  }

  lemma KilledKeeps(attach: seq<LogItem>, wait: WaitItem, g: Gen)
    requires Inv(attach, wait, g) && g.phase.Killing?
    ensures Inv(attach, wait, g.(phase := Removing, controls := g.controls + [Remove(false)]))
  {
  }

  lemma CallReturnKeeps(attach: seq<LogItem>, wait: WaitItem, g: Gen, a: Action)
    requires g.taken <= |attach| && Inv(attach, wait, g) && Enabled(g, a) && a.CallReturned?
    ensures Inv(attach, wait, Step(attach, wait, g, a))
  {
    if g.phase.Removing? {
      RemovedKeeps(attach, wait, g, a.durationMs);
    } else {
      KilledKeeps(attach, wait, g);
    }
  }

  lemma StepKeeps(attach: seq<LogItem>, wait: WaitItem, g: Gen, a: Action)
    requires g.taken <= |attach| && Inv(attach, wait, g) && Enabled(g, a)
    ensures Inv(attach, wait, Step(attach, wait, g, a))
  {
    match a
    case WaitReady(durationMs) =>
      SettleKeeps(attach, wait, g.(waitDone := true, pendingExit := DeliveredCode(wait)), durationMs);
    case AttachReady(durationMs) =>
      TakeItemKeeps(attach, g);
      SettleKeeps(attach, wait, TakeItem(attach, g), durationMs);
    case CallReturned(_) => CallReturnKeeps(attach, wait, g, a);
    case DropStream => DropKeeps(attach, wait, g);
    case _ => ControlStepKeeps(attach, wait, g, a);
  }

  /** Only its own poll ends the wait, and only a drop drops the stream. */
  lemma StepFlags(attach: seq<LogItem>, wait: WaitItem, g: Gen, a: Action)
    requires g.taken <= |attach| && Enabled(g, a)
    ensures Step(attach, wait, g, a).waitDone <==> g.waitDone || a.WaitReady?
    ensures Step(attach, wait, g, a).phase.Dropped? <==> a.DropStream?
    ensures a.DropStream? ==> Step(attach, wait, g, a).phase == Dropped(g.phase)
  {
  }

  lemma {:induction false} RunKeeps(attach: seq<LogItem>, wait: WaitItem, schedule: seq<Action>)
    requires Run(attach, wait, schedule).Some?
    ensures Inv(attach, wait, Run(attach, wait, schedule).value)
  {
    if |schedule| > 0 {
      var before := schedule[..|schedule| - 1];
      RunKeeps(attach, wait, before);
      StepKeeps(attach, wait, Run(attach, wait, before).value, schedule[|schedule| - 1]);
    } else {
      assert Readable(attach)[..0] == [];
    }
  }

  // ---- finished runs ----

  predicate IsFinished(r: Option<Gen>) { r.Some? && (r.value.phase.Yielded? || r.value.phase.Ended?) }

  /** A run that handed out Finished carries the full answer or a cut one, and its guard never fired. */
  lemma FinishedRun(attach: seq<LogItem>, wait: WaitItem, schedule: seq<Action>)
    requires IsFinished(Run(attach, wait, schedule))
    ensures var g := Run(attach, wait, schedule).value;
            && StreamResult(attach, wait, g.taken, g.events)
            && ClientAnswer(g.events) ==
                 Some(if g.timedOut then CutAnswer(attach, g.taken) else FullAnswer(attach, wait))
            && g.controls == if g.timedOut then EXPLICIT_CLEANUP else []
  {
    RunKeeps(attach, wait, schedule);
    var g := Run(attach, wait, schedule).value;
    StreamCarriesAnswer(attach, wait, g.taken, g.events);
  }

  // ---- the one-shot call under every schedule ----

  datatype Join = Join(taken: nat, stdout: Bytes, stderr: Bytes, collectDone: bool, waitDone: bool, code: int, elapsed: bool)

  datatype JoinAction = Elapse | Collect | Await

  const JOIN_START := Join(0, [], [], false, false, -1, false)

  predicate JoinOver(j: Join) { j.elapsed || (j.collectDone && j.waitDone) }

  predicate JoinEnabled(j: Join, a: JoinAction) {
    && !JoinOver(j)
    && match a
       case Elapse => true
       case Collect => !j.collectDone
       case Await => !j.waitDone
  }

  function JoinStep(attach: seq<LogItem>, wait: WaitItem, j: Join, a: JoinAction): Join
    requires j.taken <= |attach|
  {
    match a
    case Elapse => j.(elapsed := true)
    case Await => j.(waitDone := true, code := match wait case Exited(c) => c case WaitError(c) => c case _ => -1)
    case Collect =>
      if j.taken == |attach| then j.(collectDone := true)
      else
        match attach[j.taken]
        case StdOut(message) => j.(taken := j.taken + 1, stdout := j.stdout + message)
        case StdErr(message) => j.(taken := j.taken + 1, stderr := j.stderr + message)
        case OtherOutput => j.(taken := j.taken + 1)
        case LogError => j.(collectDone := true)
  }

  function JoinRun(attach: seq<LogItem>, wait: WaitItem, schedule: seq<JoinAction>): (r: Option<Join>)
    ensures r.Some? ==> r.value.taken <= |attach|
  {
    if |schedule| == 0 then Some(JOIN_START)
    else
      var before := JoinRun(attach, wait, schedule[..|schedule| - 1]);
      var a := schedule[|schedule| - 1];
      if before.None? || !JoinEnabled(before.value, a) then None
      else Some(JoinStep(attach, wait, before.value, a))
  }

  lemma JoinSnoc(attach: seq<LogItem>, wait: WaitItem, schedule: seq<JoinAction>, a: JoinAction)
    requires JoinRun(attach, wait, schedule).Some? && JoinEnabled(JoinRun(attach, wait, schedule).value, a)
    ensures JoinRun(attach, wait, schedule + [a]) == Some(JoinStep(attach, wait, JoinRun(attach, wait, schedule).value, a))
  {
    assert (schedule + [a])[..|schedule|] == schedule;
  }

  function JoinAnswer(j: Join): Answer {
    if j.elapsed then Answer(-1, j.stdout, j.stderr, true) else Answer(NarrowCode(j.code), j.stdout, j.stderr, false)
  }

  ghost predicate JoinInv(attach: seq<LogItem>, wait: WaitItem, j: Join) {
    var items := Readable(attach);
    && j.taken <= |items| && (j.collectDone ==> j.taken == |items|)
    && (j.waitDone ==> NarrowCode(j.code) == ExitCode(wait))
    && j.stdout == StdoutBytes(items[..j.taken]) && j.stderr == StderrBytes(items[..j.taken])
  }

  lemma JoinStepKeeps(attach: seq<LogItem>, wait: WaitItem, j: Join, a: JoinAction)
    requires j.taken <= |attach| && JoinInv(attach, wait, j) && JoinEnabled(j, a)
    ensures JoinInv(attach, wait, JoinStep(attach, wait, j, a))
  {
    if a.Collect? {
      ReadableStep(attach, j.taken);
      if j.taken < |Readable(attach)| {
        OutputStep(Readable(attach), j.taken);
      }
    }
  }

  lemma {:induction false} JoinRunKeeps(attach: seq<LogItem>, wait: WaitItem, schedule: seq<JoinAction>)
    requires JoinRun(attach, wait, schedule).Some?
    ensures JoinInv(attach, wait, JoinRun(attach, wait, schedule).value)
  {
    if |schedule| == 0 {
      assert Readable(attach)[..0] == [];
    } else {
      var before := schedule[..|schedule| - 1];
      JoinRunKeeps(attach, wait, before);
      JoinStepKeeps(attach, wait, JoinRun(attach, wait, before).value, schedule[|schedule| - 1]);
    }
  }

  /**
   * Streaming refines the one-shot call. For one attach sequence and wait answer, take any schedule of the select
   * loop and any schedule of the one-shot call: if neither timed out their answers are the same, and if the deadline
   * cut both after the same items they are the same as well.
   */
  lemma StreamAgreesWithOneShot(attach: seq<LogItem>, wait: WaitItem, schedule: seq<Action>, joined: seq<JoinAction>)
    requires IsFinished(Run(attach, wait, schedule))
    requires JoinRun(attach, wait, joined).Some? && JoinOver(JoinRun(attach, wait, joined).value)
    ensures var g, j := Run(attach, wait, schedule).value, JoinRun(attach, wait, joined).value;
            && (!g.timedOut && !j.elapsed ==>
                  ClientAnswer(g.events) == Some(JoinAnswer(j)) == Some(FullAnswer(attach, wait)))
            && (g.timedOut && j.elapsed && g.taken == j.taken ==>
                  && g.taken <= |Readable(attach)|
                  && ClientAnswer(g.events) == Some(JoinAnswer(j)) == Some(CutAnswer(attach, g.taken)))
  {
    FinishedRun(attach, wait, schedule);
    JoinRunKeeps(attach, wait, joined);
    var j := JoinRun(attach, wait, joined).value;
    assert j.taken == |Readable(attach)| ==> Readable(attach)[..j.taken] == Readable(attach);
  }

  // ---- dropped runs ----

  function Kills(controls: seq<Control>): nat {
    if |controls| == 0 then 0
    else Kills(controls[..|controls| - 1]) + if controls[|controls| - 1].Kill? then 1 else 0
  }

  function Removals(controls: seq<Control>): nat {
    if |controls| == 0 then 0
    else Removals(controls[..|controls| - 1]) + if controls[|controls| - 1].Remove? then 1 else 0
  }

  lemma CleanupCounts()
    ensures Kills([]) == Removals([]) == 0
    ensures Kills([Kill(false)]) == 1 && Removals([Kill(false)]) == 0
    ensures Kills(EXPLICIT_CLEANUP) == Removals(EXPLICIT_CLEANUP) == 1
    ensures Kills(DETACHED_CLEANUP) == Removals(DETACHED_CLEANUP) == 1
  {
    assert [Kill(false)][..0] == [];
    assert EXPLICIT_CLEANUP[..1] == [Kill(false)];
    assert DETACHED_CLEANUP[..1] == [Kill(true)];
    assert [Kill(true)][..0] == [];
  }

  /** In every run at most one kill and one removal are issued, and never both by the guard and by the timeout path. */
  lemma CleanupAtMostOnce(attach: seq<LogItem>, wait: WaitItem, schedule: seq<Action>)
    requires Run(attach, wait, schedule).Some?
    ensures var g := Run(attach, wait, schedule).value;
            && Removals(g.controls) <= Kills(g.controls) <= 1
            && (g.controls == DETACHED_CLEANUP || forall i :: 0 <= i < |g.controls| ==> !g.controls[i].detached)
  {
    RunKeeps(attach, wait, schedule);
    CleanupCounts();
    var g := Run(attach, wait, schedule).value;
    ExpectedControlsCases(g.phase, g.timedOut);
  }

  lemma {:induction false} ExpectedControlsCases(phase: Phase, timedOut: bool)
    ensures ExpectedControls(phase, timedOut) in {[], [Kill(false)], EXPLICIT_CLEANUP, DETACHED_CLEANUP}
  {
    if phase.Dropped? && !phase.from.Selecting? {
      ExpectedControlsCases(phase.from, timedOut);
    }
  }

  /**
   * Dropping the stream: from the first poll until the guard is disarmed the drop issues exactly one kill and one
   * removal; at any other moment it issues nothing.
   */
  lemma DropFiresGuard(attach: seq<LogItem>, wait: WaitItem, schedule: seq<Action>)
    requires Run(attach, wait, schedule).Some?
    requires Enabled(Run(attach, wait, schedule).value, DropStream)
    ensures Run(attach, wait, schedule + [DropStream]).Some?
    ensures var g, d := Run(attach, wait, schedule).value, Run(attach, wait, schedule + [DropStream]).value;
            && d.controls == g.controls + (if g.phase.Selecting? then DETACHED_CLEANUP else [])
            && (g.phase.Selecting? ==> g.controls == [])
            && (Kills(d.controls) == Removals(d.controls) == 1 <==>
                  g.phase.Selecting? || g.phase.Removing? || ((g.phase.Yielded? || g.phase.Ended?) && g.timedOut))
  {
    assert (schedule + [DropStream])[..|schedule|] == schedule;
    RunKeeps(attach, wait, schedule);
    CleanupCounts();
    var g := Run(attach, wait, schedule).value;
    assert g.controls + [] == g.controls;
    assert [] + DETACHED_CLEANUP == DETACHED_CLEANUP;
  }

  // ---- every cut and the full answer do happen ----

  lemma RunSnoc(attach: seq<LogItem>, wait: WaitItem, schedule: seq<Action>, a: Action)
    requires Run(attach, wait, schedule).Some? && Enabled(Run(attach, wait, schedule).value, a)
    ensures Run(attach, wait, schedule + [a]) == Some(Step(attach, wait, Run(attach, wait, schedule).value, a))
  {
    assert (schedule + [a])[..|schedule|] == schedule;
  }

  lemma {:induction false} TakeItems(attach: seq<LogItem>, wait: WaitItem, n: nat) returns (schedule: seq<Action>)
    requires n <= |Readable(attach)|
    ensures Run(attach, wait, schedule).Some?
    ensures var g := Run(attach, wait, schedule).value;
            g.phase.Selecting? && g.taken == n && !g.waitDone && !g.attachDone
  {
    if n == 0 {
      schedule := [] + [FirstPoll];
      RunSnoc(attach, wait, [], FirstPoll);
    } else {
      schedule := TakeItems(attach, wait, n - 1);
      RunSnoc(attach, wait, schedule, AttachReady(0));
      ReadableStep(attach, n - 1);
      schedule := schedule + [AttachReady(0)];
    }
  }

  /** The deadline can fall after any number of readable items. */
  lemma CutReachable(attach: seq<LogItem>, wait: WaitItem, n: nat) returns (schedule: seq<Action>)
    requires n <= |Readable(attach)|
    ensures IsFinished(Run(attach, wait, schedule))
    ensures ClientAnswer(Run(attach, wait, schedule).value.events) == Some(CutAnswer(attach, n))
  {
    schedule := TakeItems(attach, wait, n);
    RunSnoc(attach, wait, schedule, Deadline);
    schedule := schedule + [Deadline];
    RunSnoc(attach, wait, schedule, CallReturned(0));
    schedule := schedule + [CallReturned(0)];
    RunSnoc(attach, wait, schedule, CallReturned(0));
    schedule := schedule + [CallReturned(0)];
    FinishedRun(attach, wait, schedule);
  }

  /** Both sources can reach their end. */
  lemma FullReachable(attach: seq<LogItem>, wait: WaitItem) returns (schedule: seq<Action>)
    ensures IsFinished(Run(attach, wait, schedule))
    ensures ClientAnswer(Run(attach, wait, schedule).value.events) == Some(FullAnswer(attach, wait))
  {
    var n := |Readable(attach)|;
    schedule := TakeItems(attach, wait, n);
    ReadableStep(attach, n);
    RunSnoc(attach, wait, schedule, AttachReady(0));
    schedule := schedule + [AttachReady(0)];
    RunSnoc(attach, wait, schedule, WaitReady(0));
    schedule := schedule + [WaitReady(0)];
    FinishedRun(attach, wait, schedule);
  }
}

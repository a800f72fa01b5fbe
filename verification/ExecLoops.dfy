/** The two exec calls as the loops they are, each shown to be a run of its machine. */
module ExecLoops {
  import opened Basics
  import opened Exec
  import opened ExecRuns

  /**
   * `exec_oneshot` after the container has started: collecting and waiting run together under the timeout,
   * whichever source is ready next; the deadline can fall at any point. The loop is the run of `schedule`.
   */
  method ExecOneshot(container: Container, deadline: Deadline, attach: seq<LogItem>, wait: WaitItem)
    returns (answer: Answer, ghost cut: nat, ghost schedule: seq<JoinAction>)
    requires !deadline.fallen
    modifies container, deadline
    ensures answer.timedOut <==> deadline.fallen
    ensures var run := JoinRun(attach, wait, schedule);
            run.Some? && JoinOver(run.value) && answer == JoinAnswer(run.value) && cut == run.value.taken
    ensures cut <= |Readable(attach)|
    ensures answer == if answer.timedOut then CutAnswer(attach, cut) else FullAnswer(attach, wait)
    ensures if answer.timedOut then answer.exitCode == -1 else ReportsCode(wait, answer.exitCode)
    ensures container.controls == old(container.controls) + if answer.timedOut then EXPLICIT_CLEANUP else []
  {
    var stdout: Bytes, stderr: Bytes := [], [];
    var next := 0;
    var code: int := -1;
    var collectDone, waitDone, elapsed := false, false, false;
    schedule := [];
    while !elapsed && !(collectDone && waitDone)
      invariant next <= |attach|
      invariant JoinRun(attach, wait, schedule) ==
                  Some(Join(next, stdout, stderr, collectDone, waitDone, code, elapsed))
      invariant elapsed <==> deadline.fallen
      invariant container.controls == old(container.controls)
      decreases !elapsed, |attach| - next, !collectDone, !waitDone
    {
      if {
        case true =>
          JoinSnoc(attach, wait, schedule, Elapse);
          schedule := schedule + [Elapse];
          deadline.Fall();
          elapsed := true;
        case !collectDone =>
          JoinSnoc(attach, wait, schedule, Collect);
          schedule := schedule + [Collect];
          if next == |attach| {
            collectDone := true;
          } else {
            match attach[next] {
              case StdOut(message) =>
                stdout, next := stdout + message, next + 1;
              case StdErr(message) =>
                stderr, next := stderr + message, next + 1;
              case OtherOutput =>
                next := next + 1;
              case LogError =>
                collectDone := true;
            }
          }
        case !waitDone =>
          JoinSnoc(attach, wait, schedule, Await);
          schedule := schedule + [Await];
          code := match wait {
            case Exited(c) => c
            case WaitError(c) => c
            case _ => -1
          };
          waitDone := true;
      }
    }
    cut := next;
    JoinAnswers(attach, wait, schedule);
    if elapsed {
      container.KillAndRemove(false);
      answer := Answer(-1, stdout, stderr, true);
    } else {
      answer := Answer(NarrowCode(code), stdout, stderr, false);
    }
  }

  /** The wait branch: the exit code, if one is delivered. */
  method TakeExit(wait: WaitItem) returns (pendingExit: Option<int>)
    ensures pendingExit == DeliveredCode(wait)
  {
    pendingExit := None;
    match wait {
      case Exited(code) => pendingExit := Some(NarrowCode(code));
      case WaitError(code) => pendingExit := Some(NarrowCode(code));
      case _ =>
    }
  }

  /** The attach branch: one more item, passed on if it is output. */
  method TakeNext(attach: seq<LogItem>, next: nat, chunks: seq<StreamEvent>)
    returns (next': nat, attachDone: bool, events: seq<StreamEvent>)
    requires next <= |attach|
    ensures next' <= |attach| && (next', attachDone, events) == Taken(attach, next, chunks)
    ensures attachDone || next' > next
  {
    next', attachDone, events := next, false, chunks;
    if next == |attach| {
      attachDone := true;
    } else {
      match attach[next] {
        case StdOut(message) =>
          events, next' := events + [Stdout(message)], next + 1;
        case StdErr(message) =>
          events, next' := events + [Stderr(message)], next + 1;
        case OtherOutput =>
          next' := next + 1;
        case LogError =>
          attachDone := true;
      }
    }
  }

  /** The select loop of `exec_stream`: deadline, wait and attach race until both sources are done or the deadline falls. */
  method SelectLoop(deadline: Deadline, attach: seq<LogItem>, wait: WaitItem, ghost durationMs: nat)
    returns (events: seq<StreamEvent>, pendingExit: Option<int>, timedOut: bool,
             ghost g: Gen, ghost schedule: seq<Action>)
    requires !deadline.fallen
    modifies deadline
    ensures timedOut <==> deadline.fallen
    ensures At(attach, wait, schedule, g, durationMs)
    ensures g == Looping(g.taken, g.attachDone, g.waitDone, pendingExit, events)
    ensures timedOut <==> !(g.waitDone && g.attachDone)
  {
    var waitDone, attachDone := false, false;
    var next := 0;
    events, pendingExit, timedOut := [], None, false;
    schedule := FirstStep(attach, wait, durationMs);
    while !(waitDone && attachDone)
      invariant !timedOut && !deadline.fallen
      invariant next <= |attach| && (!waitDone ==> pendingExit == None)
      invariant At(attach, wait, schedule, Looping(next, attachDone, waitDone, pendingExit, events), durationMs)
      decreases |attach| - next, !attachDone, !waitDone
    {
      if {
        case true =>
          deadline.Fall();
          timedOut := true;
          break;
        case !waitDone =>
          schedule := WaitStep(attach, wait, schedule, next, attachDone, events, durationMs);
          waitDone := true;
          pendingExit := TakeExit(wait);
        case !attachDone =>
          schedule := AttachStep(attach, wait, schedule, next, waitDone, pendingExit, events, durationMs);
          next, attachDone, events := TakeNext(attach, next, events);
      }
    }
    g := Looping(next, attachDone, waitDone, pendingExit, events);
  }

  /** `exec_stream`'s generator, polled until it ends; it is the run of `schedule`. */
  method DrainExecStream(container: Container, deadline: Deadline, attach: seq<LogItem>, wait: WaitItem)
    returns (events: seq<StreamEvent>, ghost n: nat, ghost schedule: seq<Action>)
    requires !deadline.fallen
    modifies container, deadline
    ensures var run := Run(attach, wait, schedule);
            && run.Some? && run.value.phase.Ended?
            && run.value.events == events && run.value.taken == n
            && container.controls == old(container.controls) + run.value.controls
    ensures StreamResult(attach, wait, n, events)
    ensures events[|events| - 1].timedOut <==> deadline.fallen
    ensures var last := events[|events| - 1];
            if last.timedOut then last.exitCode == -1 else ReportsCode(wait, last.exitCode)
    ensures container.controls ==
              old(container.controls) + if events[|events| - 1].timedOut then EXPLICIT_CLEANUP else []
  {
    var guard := new ContainerCleanupGuard(container);
    var durationMs: nat := *;   // whatever the clock will say at the end
    var pendingExit, timedOut;
    ghost var g;
    events, pendingExit, timedOut, g, schedule := SelectLoop(deadline, attach, wait, durationMs);
    n := g.taken;
    if timedOut {
      schedule := TimedOutEnd(attach, wait, schedule, g, durationMs);
      guard.Disarm();
      container.KillAndRemove(false);
      events := events + [Finished(-1, true, durationMs)];
      guard.Drop();
      return;
    }
    schedule := NaturalEnd(attach, wait, schedule, g, durationMs);
    guard.Disarm();
    var exitCode := match pendingExit { case Some(code) => code case None => -1 };
    events := events + [Finished(exitCode, false, durationMs)];
    guard.Drop();
  }

  /** The run so far has come to where the loop stands. */
  ghost predicate At(attach: seq<LogItem>, wait: WaitItem, schedule: seq<Action>, g: Gen, durationMs: nat) {
    Run(attach, wait, schedule) == Some(Settle(g, durationMs))
  }

  lemma FirstStep(attach: seq<LogItem>, wait: WaitItem, durationMs: nat) returns (schedule: seq<Action>)
    ensures At(attach, wait, schedule, Looping(0, false, false, None, []), durationMs)
  {
    schedule := [] + [FirstPoll];
    RunSnoc(attach, wait, [], FirstPoll);
  }

  lemma WaitStep(attach: seq<LogItem>, wait: WaitItem, schedule: seq<Action>, next: nat, attachDone: bool,
                 events: seq<StreamEvent>, durationMs: nat)
    returns (longer: seq<Action>)
    requires At(attach, wait, schedule, Looping(next, attachDone, false, None, events), durationMs)
    ensures At(attach, wait, longer, Looping(next, attachDone, true, DeliveredCode(wait), events), durationMs)
  {
    longer := schedule + [WaitReady(durationMs)];
    RunSnoc(attach, wait, schedule, WaitReady(durationMs));
  }

  /** Where the loop stands after taking the next item, or finding there is none. */
  function Taken(attach: seq<LogItem>, next: nat, events: seq<StreamEvent>): (nat, bool, seq<StreamEvent>)
    requires next <= |attach|
  {
    if next == |attach| then (next, true, events)
    else
      match attach[next]
      case StdOut(message) => (next + 1, false, events + [Stdout(message)])
      case StdErr(message) => (next + 1, false, events + [Stderr(message)])
      case OtherOutput => (next + 1, false, events)
      case LogError => (next, true, events)
  }

  lemma TakenIs(attach: seq<LogItem>, next: nat, waitDone: bool, pendingExit: Option<int>, events: seq<StreamEvent>)
    requires next <= |attach|
    ensures var (next', attachDone, events') := Taken(attach, next, events);
            TakeItem(attach, Looping(next, false, waitDone, pendingExit, events))
            == Looping(next', attachDone, waitDone, pendingExit, events')
  {
  }

  lemma AttachStep(attach: seq<LogItem>, wait: WaitItem, schedule: seq<Action>, next: nat, waitDone: bool,
                   pendingExit: Option<int>, events: seq<StreamEvent>, durationMs: nat)
    returns (longer: seq<Action>)
    requires next <= |attach|
    requires At(attach, wait, schedule, Looping(next, false, waitDone, pendingExit, events), durationMs)
    ensures var (next', attachDone, events') := Taken(attach, next, events);
            At(attach, wait, longer, Looping(next', attachDone, waitDone, pendingExit, events'), durationMs)
  {
    longer := schedule + [AttachReady(durationMs)];
    TakenIs(attach, next, waitDone, pendingExit, events);
    RunSnoc(attach, wait, schedule, AttachReady(durationMs));
  }

  lemma JoinAnswers(attach: seq<LogItem>, wait: WaitItem, schedule: seq<JoinAction>)
    requires JoinRun(attach, wait, schedule).Some? && JoinOver(JoinRun(attach, wait, schedule).value)
    ensures var j := JoinRun(attach, wait, schedule).value;
            && j.taken <= |Readable(attach)|
            && JoinAnswer(j) == if j.elapsed then CutAnswer(attach, j.taken) else FullAnswer(attach, wait)
  {
    JoinRunKeeps(attach, wait, schedule);
    var j := JoinRun(attach, wait, schedule).value;
    assert j.taken == |Readable(attach)| ==> Readable(attach)[..j.taken] == Readable(attach);
  }

  /** The generator in its select loop. */
  function Looping(next: nat, attachDone: bool, waitDone: bool, pendingExit: Option<int>, events: seq<StreamEvent>): Gen {
    Gen(Selecting, next, attachDone, waitDone, pendingExit, false, events, [])
  }

  /** From the deadline to the end: kill, remove, Finished, and the last poll. */
  lemma TimedOutEnd(attach: seq<LogItem>, wait: WaitItem, schedule: seq<Action>, g: Gen, durationMs: nat)
    returns (full: seq<Action>)
    requires g.phase.Selecting? && !(g.waitDone && g.attachDone) && g.controls == []
    requires At(attach, wait, schedule, g, durationMs)
    ensures Run(attach, wait, full) ==
              Some(g.(phase := Ended, timedOut := true, events := g.events + [Finished(-1, true, durationMs)],
                      controls := EXPLICIT_CLEANUP))
    ensures var last := g.events + [Finished(-1, true, durationMs)];
            StreamResult(attach, wait, g.taken, last)
  {
    RunSnoc(attach, wait, schedule, Deadline);
    full := schedule + [Deadline];
    RunSnoc(attach, wait, full, CallReturned(durationMs));
    full := full + [CallReturned(durationMs)];
    RunSnoc(attach, wait, full, CallReturned(durationMs));
    full := full + [CallReturned(durationMs)];
    RunSnoc(attach, wait, full, ResumeLast);
    full := full + [ResumeLast];
    assert [] + [Kill(false)] + [Remove(false)] == EXPLICIT_CLEANUP;
    FinishedRun(attach, wait, full);
  }

  /** Both sources done: Finished has been handed out, one poll remains. */
  lemma NaturalEnd(attach: seq<LogItem>, wait: WaitItem, schedule: seq<Action>, g: Gen, durationMs: nat)
    returns (full: seq<Action>)
    requires g.phase.Selecting? && g.waitDone && g.attachDone && g.controls == [] && !g.timedOut
    requires At(attach, wait, schedule, g, durationMs)
    ensures Run(attach, wait, full) == Some(Settle(g, durationMs).(phase := Ended))
    ensures StreamResult(attach, wait, g.taken, Settle(g, durationMs).events)
  {
    RunSnoc(attach, wait, schedule, ResumeLast);
    full := schedule + [ResumeLast];
    FinishedRun(attach, wait, full);
  }
}

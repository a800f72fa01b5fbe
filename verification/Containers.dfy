/** The containers behind the permits: when the cap on running ones holds, and which ended calls leave one behind. */
module Containers {
  import opened Basics
  import opened Exec
  import ExecRuns
  import opened Permits

  // ---- calls that end while their container may run ----

  /** Every control call issued for the container of a call: by the call itself, its generator, or the drop guard. */
  function IssuedControls(c: Call): seq<Control> {
    match c.stage
    case Streaming(g) => g.controls
    case Gone(Streaming(g)) => g.controls
    case _ => c.issued
  }

  /**
   * The ways to end with a container that may be running and nobody told to kill it: while the start call was out;
   * a one-shot call dropped while collecting; a stream dropped before its first poll; or either kind ending by
   * itself after a wait that delivered no exit code.
   */
  predicate Abandons(c: Call, from: Stage) {
    match from
    case Starting => true
    case Collecting(j) => ExecRuns.JoinOver(j) ==> DeliveredCode(c.wait).None?
    case Streaming(g) =>
      || g.phase == ExecRuns.Dropped(ExecRuns.Unpolled)
      || (ExecRuns.HandedOut(g.phase) && !g.timedOut && DeliveredCode(c.wait).None?)
    case _ => false
  }

  /** The invariant of a call that is over, said of the stage it ended in. */
  lemma EndedFits(c: Call)
    requires CallInv(c) && c.stage.Gone?
    ensures MachineFits(c, c.stage.from) && BoxFits(c.stage.from, c.box) && c.issued == IssuedIn(c.stage.from)
  {
  }

  lemma HandedOutAfterDrop(last: ExecRuns.Phase)
    requires !last.Dropped?
    ensures ExecRuns.HandedOut(ExecRuns.Dropped(last)) <==> last.Yielded? || last.Ended?
  {
  }

  lemma ControlsAfterDrop(last: ExecRuns.Phase, timedOut: bool)
    requires !last.Dropped?
    ensures Kills(ExecRuns.ExpectedControls(ExecRuns.Dropped(last), timedOut)) ==
              match last
              case Unpolled => 0
              case Yielded => if timedOut then 1 else 0
              case Ended => if timedOut then 1 else 0
              case _ => 1
  {
    ExecRuns.CleanupCounts();
    assert ExecRuns.ExpectedControls(last, timedOut) ==
             match last
             case Killing => [Kill(false)]
             case Removing => EXPLICIT_CLEANUP
             case Yielded => if timedOut then EXPLICIT_CLEANUP else []
             case Ended => if timedOut then EXPLICIT_CLEANUP else []
             case _ => [];
  }

  lemma EndedStream(c: Call, g: ExecRuns.Gen)
    requires CallInv(c) && c.stage == Gone(Streaming(g)) && c.box != Over
    ensures Kills(g.controls) == 0 <==> Abandons(c, Streaming(g))
  {
    EndedFits(c);
    HandedOutAfterDrop(g.phase.from);
    ControlsAfterDrop(g.phase.from, g.timedOut);
  }

  lemma EndedOneShot(c: Call)
    requires CallInv(c) && c.stage.Gone? && !c.stage.from.Streaming? && (c.box.Running? || c.box.StartSent?)
    ensures Kills(c.issued) == 0 <==> Abandons(c, c.stage.from)
  {
    EndedFits(c);
    ExecRuns.CleanupCounts();
  }

  function Kills(controls: seq<Control>): nat { ExecRuns.Kills(controls) }

  /** In any run, a container left behind by an ended call has no kill issued in exactly the listed cases. */
  lemma LeftWithoutKill(p: Pool, steps: seq<Step>, id: CallId)
    requires Inv(p) && Run(p, steps).Some? && id in Loose(Run(p, steps).value)
    ensures var c := Run(p, steps).value.calls[id];
            Kills(IssuedControls(c)) == 0 <==> Abandons(c, c.stage.from)
  {
    PermitsConserved(p, steps);
    var c := Run(p, steps).value.calls[id];
    assert CallInv(c);
    if c.stage.from.Streaming? {
      EndedStream(c, c.stage.from.gen);
    } else {
      EndedOneShot(c);
    }
  }

  /** A call that ends by itself with a delivered exit code leaves nothing running. */
  lemma DeliveredCodeMeansEnded(p: Pool, steps: seq<Step>, id: CallId)
    requires Inv(p) && Run(p, steps).Some? && IsGone(Run(p, steps).value, id)
    requires var c := Run(p, steps).value.calls[id];
             && DeliveredCode(c.wait).Some?
             && match c.stage.from
                case Collecting(j) => ExecRuns.JoinOver(j)
                case Streaming(g) => ExecRuns.HandedOut(g.phase) && !g.timedOut
                case _ => false
    ensures Run(p, steps).value.calls[id].box == Over
  {
    PermitsConserved(p, steps);
    var c := Run(p, steps).value.calls[id];
    assert CallInv(c);
    EndedFits(c);
  }

  // ---- runs in which no call leaves a container behind ----

  ghost function CleanRun(p: Pool, steps: seq<Step>): Option<Pool>
    decreases |steps|
  {
    if steps == [] then Some(p)
    else if Enabled(p, steps[0]) && Loose(Apply(p, steps[0])) <= Loose(p) then CleanRun(Apply(p, steps[0]), steps[1..])
    else None
  }

  ghost predicate WithinCap(p: Pool, steps: seq<Step>) {
    CleanRun(p, steps).Some? ==> |RunningBoxes(CleanRun(p, steps).value)| <= p.capacity
  }

  /** From here on, running containers never exceed the capacity as long as no further one is left behind. */
  ghost predicate StaysWithinCap(p: Pool) {
    forall steps :: WithinCap(p, steps)
  }

  lemma {:induction false} NoLooseWithinCap(p: Pool, steps: seq<Step>)
    requires Inv(p) && Loose(p) == {}
    ensures WithinCap(p, steps)
    decreases |steps|
  {
    if steps == [] {
      LiveWithinCapacity(p);
      forall id | id in RunningBoxes(p)
        ensures id in LiveBoxes(p)
      {
        assert id !in Loose(p);
      }
      assert RunningBoxes(p) == LiveBoxes(p);
    } else if Enabled(p, steps[0]) && Loose(Apply(p, steps[0])) <= Loose(p) {
      StepKeepsInv(p, steps[0]);
      NoLooseWithinCap(Apply(p, steps[0]), steps[1..]);
    }
  }

  lemma Prepend(p: Pool, s: Step, rest: seq<Step>)
    requires Enabled(p, s) && Loose(Apply(p, s)) <= Loose(p)
    ensures CleanRun(p, [s] + rest) == CleanRun(Apply(p, s), rest)
  {
    assert ([s] + rest)[1..] == rest;
  }

  lemma {:induction false} CleanRunConcat(p: Pool, a: seq<Step>, b: seq<Step>)
    requires CleanRun(p, a).Some?
    ensures CleanRun(p, a + b) == CleanRun(CleanRun(p, a).value, b)
    decreases |a|
  {
    if a == [] {
      assert a + b == b;
    } else {
      assert (a + b)[1..] == a[1..] + b;
      CleanRunConcat(Apply(p, a[0]), a[1..], b);
    }
  }

  lemma {:induction false} CleanIsRun(p: Pool, steps: seq<Step>)
    requires CleanRun(p, steps).Some?
    ensures Run(p, steps) == CleanRun(p, steps)
    decreases |steps|
  {
    if steps != [] { CleanIsRun(Apply(p, steps[0]), steps[1..]); }
  }

  // ---- a new call gets a container running ----

  /** The pool with one more call, and so many permits. */
  function Joined(p: Pool, c: Call, available: nat): Pool {
    p.(calls := p.calls + [c], available := available)
  }

  lemma JoinedPut(p: Pool, c: Call, available: nat, c': Call)
    ensures Put(Joined(p, c, available), |p.calls|, c') == Joined(p, c', available)
  {
  }

  lemma JoinedSets(p: Pool, c: Call, available: nat)
    requires !c.stage.Gone?
    ensures Loose(Joined(p, c, available)) == Loose(p)
    ensures LiveBoxes(Joined(p, c, available)) == LiveBoxes(p) + if c.box.Running? then {|p.calls|} else {}
    ensures RunningBoxes(Joined(p, c, available)) == RunningBoxes(p) + if c.box.Running? then {|p.calls|} else {}
  {
  }

  function NewCall(streaming: bool, stage: Stage, permit: Place, box: Box): Call {
    Call(streaming, [], WaitEnded, stage, permit, box, [])
  }

  function RunningCall(streaming: bool): Call { NewCall(streaming, Starting, InFuture, Running) }

  /** One step of the newest call, from one state of it to the next. */
  lemma NewestStep(p: Pool, c: Call, available: nat, s: Step, c': Call, available': nat, rest: seq<Step>)
    requires Enabled(Joined(p, c, available), s) && Apply(Joined(p, c, available), s) == Joined(p, c', available')
    requires !c.stage.Gone? && !c'.stage.Gone?
    ensures CleanRun(Joined(p, c, available), [s] + rest) == CleanRun(Joined(p, c', available'), rest)
  {
    JoinedSets(p, c, available);
    JoinedSets(p, c', available');
    Prepend(Joined(p, c, available), s, rest);
  }

  function StartUp(id: CallId): seq<Step> {
    [Acquire(id)] + ([CreateDone(id)] + Launch(id))
  }

  function Launch(id: CallId): seq<Step> {
    [AttachDone(id)] + ([ProcessStarts(id)] + [])
  }

  lemma Launches(p: Pool, streaming: bool, a: nat)
    ensures CleanRun(Joined(p, NewCall(streaming, Attaching, InFuture, Created), a), Launch(|p.calls|))
              == Some(Joined(p, RunningCall(streaming), a))
  {
    var id := |p.calls|;
    var c2 := NewCall(streaming, Attaching, InFuture, Created);
    var c3 := NewCall(streaming, Starting, InFuture, StartSent);
    JoinedPut(p, c2, a, c3);
    JoinedPut(p, c3, a, RunningCall(streaming));
    NewestStep(p, c3, a, ProcessStarts(id), RunningCall(streaming), a, []);
    NewestStep(p, c2, a, AttachDone(id), c3, a, [ProcessStarts(id)] + []);
  }

  /** With a permit free, a call that has arrived is admitted and its container runs. */
  lemma StartsUp(p: Pool, streaming: bool)
    requires p.available > 0
    ensures CleanRun(Joined(p, NewCall(streaming, Queued, NoPermit, NoBox), p.available), StartUp(|p.calls|))
              == Some(Joined(p, RunningCall(streaming), p.available - 1))
  {
    var id, a := |p.calls|, p.available;
    var c0 := NewCall(streaming, Queued, NoPermit, NoBox);
    var c1 := NewCall(streaming, Admitted, InFuture, NoBox);
    var c2 := NewCall(streaming, Attaching, InFuture, Created);
    JoinedPut(p, c0, a, c1);
    JoinedPut(p, c1, a - 1, c2);
    Launches(p, streaming, a - 1);
    NewestStep(p, c1, a - 1, CreateDone(id), c2, a - 1, Launch(id));
    NewestStep(p, c0, a, Acquire(id), c1, a - 1, [CreateDone(id)] + Launch(id));
  }

  function Admission(id: CallId, streaming: bool): seq<Step> {
    [Arrive(streaming, [], WaitEnded)] + StartUp(id)
  }

  lemma Admits(p: Pool, streaming: bool)
    requires p.available > 0
    ensures CleanRun(p, Admission(|p.calls|, streaming)) == Some(Joined(p, RunningCall(streaming), p.available - 1))
  {
    var s := Arrive(streaming, [], WaitEnded);
    assert Apply(p, s) == Joined(p, NewCall(streaming, Queued, NoPermit, NoBox), p.available);
    JoinedSets(p, NewCall(streaming, Queued, NoPermit, NoBox), p.available);
    Prepend(p, s, StartUp(|p.calls|));
    StartsUp(p, streaming);
  }

  lemma {:induction false} CleanRunKeepsInv(p: Pool, steps: seq<Step>)
    requires Inv(p) && CleanRun(p, steps).Some?
    ensures Inv(CleanRun(p, steps).value) && CleanRun(p, steps).value.capacity == p.capacity
    decreases |steps|
  {
    if steps != [] {
      StepKeepsInv(p, steps[0]);
      CleanRunKeepsInv(Apply(p, steps[0]), steps[1..]);
    }
  }

  // ---- filling the pool with live running containers ----

  ghost predicate Grown(p: Pool, q: Pool, more: nat) {
    && Inv(q) && q.capacity == p.capacity && |LiveBoxes(q)| == |LiveBoxes(p)| + more
    && Loose(q) == Loose(p) && RunningBoxes(p) <= RunningBoxes(q)
  }

  lemma AdmitOne(p: Pool) returns (steps: seq<Step>)
    requires Inv(p) && p.available > 0
    ensures CleanRun(p, steps).Some? && Grown(p, CleanRun(p, steps).value, 1)
  {
    steps := Admission(|p.calls|, false);
    Admits(p, false);
    CleanRunKeepsInv(p, steps);
    JoinedSets(p, RunningCall(false), p.available - 1);
    assert |p.calls| !in LiveBoxes(p);
  }

  predicate IsLoose(c: Call) { c.stage.Gone? && (c.box.Running? || c.box.StartSent?) }

  predicate IsLive(c: Call) { c.box.Running? && !c.stage.Gone? }

  lemma SetsAfterPut(p: Pool, q: Pool, id: CallId, c: Call)
    requires id < |p.calls| && q.calls == p.calls[id := c]
    ensures Loose(q) == if IsLoose(c) then Loose(p) + {id} else Loose(p) - {id}
    ensures LiveBoxes(q) == if IsLive(c) then LiveBoxes(p) + {id} else LiveBoxes(p) - {id}
    ensures RunningBoxes(q) == if c.box.Running? then RunningBoxes(p) + {id} else RunningBoxes(p) - {id}
  {
  }

  lemma StartSets(p: Pool, id: CallId)
    requires id < |p.calls| && p.calls[id].box.StartSent?
    ensures var q := Apply(p, ProcessStarts(id));
            && Loose(q) == Loose(p) && RunningBoxes(q) == RunningBoxes(p) + {id}
            && |LiveBoxes(q)| == |LiveBoxes(p)| + if p.calls[id].stage.Gone? then 0 else 1
  {
    SetsAfterPut(p, Apply(p, ProcessStarts(id)), id, p.calls[id].(box := Running));
    assert id !in LiveBoxes(p) && (id in Loose(p) <==> p.calls[id].stage.Gone?);
    assert LiveBoxes(p) - {id} == LiveBoxes(p);
  }

  /** Starting the process of a call that waits for it. */
  lemma StartOne(p: Pool, id: CallId)
    requires Inv(p) && id < |p.calls| && p.calls[id].box.StartSent?
    ensures CleanRun(p, [ProcessStarts(id)] + []).Some?
    ensures Grown(p, CleanRun(p, [ProcessStarts(id)] + []).value, if p.calls[id].stage.Gone? then 0 else 1)
    ensures id in RunningBoxes(CleanRun(p, [ProcessStarts(id)] + []).value)
  {
    StepKeepsInv(p, ProcessStarts(id));
    StartSets(p, id);
    Prepend(p, ProcessStarts(id), []);
  }

  /** How a call that holds a permit leaves when its client goes away. */
  function Exit(p: Pool, id: CallId): Step
    requires id < |p.calls|
  {
    if p.calls[id].stage.Streaming? then Stream(id, ExecRuns.DropStream) else DropFuture(id)
  }

  lemma ExitIs(p: Pool, id: CallId)
    requires Inv(p) && id in Holders(p)
    ensures Enabled(p, Exit(p, id))
    ensures var q := Apply(p, Exit(p, id));
            && q.available > 0 && id < |q.calls| && q.calls == p.calls[id := q.calls[id]]
            && q.calls[id].stage.Gone? && q.calls[id].box == p.calls[id].box
  {
    assert CallInv(p.calls[id]);
  }

  /** A call that holds a permit and has no process leaves: its permit is free, nothing is left behind. */
  lemma DismissOne(p: Pool, id: CallId)
    requires Inv(p) && id in Holders(p) && !p.calls[id].box.Running? && !p.calls[id].box.StartSent?
    ensures CleanRun(p, [Exit(p, id)] + []).Some?
    ensures Grown(p, CleanRun(p, [Exit(p, id)] + []).value, 0) && CleanRun(p, [Exit(p, id)] + []).value.available > 0
  {
    ExitIs(p, id);
    var q := Apply(p, Exit(p, id));
    StepKeepsInv(p, Exit(p, id));
    SetsAfterPut(p, q, id, q.calls[id]);
    assert id !in Loose(p) && id !in LiveBoxes(p) && id !in RunningBoxes(p);
    Prepend(p, Exit(p, id), []);
  }

  lemma GrowOne(p: Pool) returns (steps: seq<Step>)
    requires Inv(p) && |LiveBoxes(p)| < p.capacity
    ensures CleanRun(p, steps).Some? && Grown(p, CleanRun(p, steps).value, 1)
  {
    if p.available > 0 {
      steps := AdmitOne(p);
    } else {
      LiveWithinCapacity(p);
      assert Holders(p) != LiveBoxes(p);
      var id :| id in Holders(p) && id !in LiveBoxes(p);
      assert CallInv(p.calls[id]);
      if p.calls[id].box.StartSent? {
        StartOne(p, id);
        steps := [ProcessStarts(id)] + [];
      } else {
        DismissOne(p, id);
        var more := AdmitOne(CleanRun(p, [Exit(p, id)] + []).value);
        CleanRunConcat(p, [Exit(p, id)] + [], more);
        steps := [Exit(p, id)] + [] + more;
      }
    }
  }

  lemma {:induction false} FillUp(p: Pool) returns (steps: seq<Step>)
    requires Inv(p)
    ensures CleanRun(p, steps).Some?
    ensures var q := CleanRun(p, steps).value;
            Inv(q) && q.capacity == p.capacity && |LiveBoxes(q)| == p.capacity
            && Loose(q) == Loose(p) && RunningBoxes(p) <= RunningBoxes(q)
    decreases p.capacity - |LiveBoxes(p)|
  {
    LiveWithinCapacity(p);
    if |LiveBoxes(p)| == p.capacity {
      steps := [];
    } else {
      var first := GrowOne(p);
      var q := CleanRun(p, first).value;
      LiveWithinCapacity(q);
      var more := FillUp(q);
      CleanRunConcat(p, first, more);
      steps := first + more;
    }
  }

  /** All permits can be out at once: as many as configured, or ten. */
  lemma AllPermitsOut(maxConcurrent: nat, queueTimeout: bool) returns (steps: seq<Step>)
    ensures Run(Start(maxConcurrent, queueTimeout), steps).Some?
    ensures var q := Run(Start(maxConcurrent, queueTimeout), steps).value;
            q.available == 0 && |Holders(q)| == |LiveBoxes(q)| == if maxConcurrent > 0 then maxConcurrent else 10
  {
    var p := Start(maxConcurrent, queueTimeout);
    StartInv(maxConcurrent, queueTimeout);
    steps := FillUp(p);
    CleanIsRun(p, steps);
    LiveWithinCapacity(CleanRun(p, steps).value);
  }

  lemma OneTooMany(q: Pool, id: CallId)
    requires Inv(q) && |LiveBoxes(q)| == q.capacity && id in Loose(q) && id in RunningBoxes(q)
    ensures |RunningBoxes(q)| > q.capacity
  {
    SubsetSize(LiveBoxes(q) + {id}, RunningBoxes(q));
    assert id !in LiveBoxes(q);
  }

  lemma LooseBreaksCap(p: Pool, id: CallId) returns (steps: seq<Step>)
    requires Inv(p) && id in Loose(p)
    ensures !WithinCap(p, steps)
  {
    var first: seq<Step> := [];
    if p.calls[id].box.StartSent? {
      StartOne(p, id);
      first := [ProcessStarts(id)] + [];
    }
    var q := CleanRun(p, first).value;
    var more := FillUp(q);
    CleanRunConcat(p, first, more);
    steps := first + more;
    OneTooMany(CleanRun(p, steps).value, id);
  }

  /**
   * The configured maximum is documented as a hard cap on running containers. The code bounds the containers of calls
   * that are not over: the cap holds from a state onwards exactly when no ended call has left a container that runs
   * or that a start still under way can make run.
   */
  lemma CapHoldsWithoutLoose(p: Pool)
    requires Inv(p)
    ensures StaysWithinCap(p) <==> Loose(p) == {}
  {
    if Loose(p) == {} {
      forall steps
        ensures WithinCap(p, steps)
      {
        NoLooseWithinCap(p, steps);
      }
    } else {
      var id :| id in Loose(p);
      var steps := LooseBreaksCap(p, id);
    }
  }

  // ---- containers pile up ----

  lemma {:induction false} RunConcat(p: Pool, a: seq<Step>, b: seq<Step>)
    requires Run(p, a).Some?
    ensures Run(p, a + b) == Run(Run(p, a).value, b)
    decreases |a|
  {
    if a == [] {
      assert a + b == b;
    } else {
      assert (a + b)[1..] == a[1..] + b;
      RunConcat(Apply(p, a[0]), a[1..], b);
    }
  }

  lemma RunTwo(p: Pool, s: Step, t: Step)
    requires Enabled(p, s) && Enabled(Apply(p, s), t)
    ensures Run(p, [s, t]) == Some(Apply(Apply(p, s), t))
  {
    assert [s, t][1..] == [t] && [t][1..] == [];
    assert Run(Apply(p, s), [t]) == Some(Apply(Apply(p, s), t));
  }

  /** The last two steps of an abandoned call: its start is confirmed, then the client goes away. */
  function Departure(id: CallId, streaming: bool): seq<Step> {
    [StartDone(id), if streaming then Stream(id, ExecRuns.DropStream) else DropFuture(id)]
  }

  function Abandoned(streaming: bool): Call {
    if streaming then
      NewCall(true, Gone(Streaming(ExecRuns.FRESH.(phase := ExecRuns.Dropped(ExecRuns.Unpolled)))), NoPermit, Running)
    else
      NewCall(false, Gone(Collecting(ExecRuns.JOIN_START)), NoPermit, Running)
  }

  lemma Departs(p: Pool, streaming: bool)
    requires p.available > 0
    ensures Run(Joined(p, RunningCall(streaming), p.available - 1), Departure(|p.calls|, streaming))
              == Some(Joined(p, Abandoned(streaming), p.available))
  {
    var id, a := |p.calls|, p.available - 1;
    var q := Joined(p, RunningCall(streaming), a);
    var steps := Departure(id, streaming);
    var c := if streaming then NewCall(true, Streaming(ExecRuns.FRESH), InStream, Running)
             else NewCall(false, Collecting(ExecRuns.JOIN_START), InFuture, Running);
    JoinedPut(p, RunningCall(streaming), a, c);
    JoinedPut(p, c, a, Abandoned(streaming));
    assert Apply(q, steps[0]) == Joined(p, c, a);
    assert ExecRuns.FRESH.controls + [] == ExecRuns.FRESH.controls;
    RunTwo(q, steps[0], steps[1]);
  }

  /** A call whose container has started and whose client goes away: its permit is back, its container runs, unkilled. */
  lemma AbandonOne(p: Pool, streaming: bool) returns (steps: seq<Step>)
    requires p.available > 0
    ensures Run(p, steps) == Some(Joined(p, Abandoned(streaming), p.available))
  {
    Admits(p, streaming);
    CleanIsRun(p, Admission(|p.calls|, streaming));
    Departs(p, streaming);
    RunConcat(p, Admission(|p.calls|, streaming), Departure(|p.calls|, streaming));
    steps := Admission(|p.calls|, streaming) + Departure(|p.calls|, streaming);
  }

  lemma RunSnoc(p: Pool, steps: seq<Step>, s: Step)
    requires Run(p, steps).Some? && Enabled(Run(p, steps).value, s)
    ensures Run(p, steps + [s]) == Some(Apply(Run(p, steps).value, s))
  {
    RunConcat(p, steps, [s]);
    assert [s][1..] == [];
  }

  /** One more step of the newest call, after any steps. */
  lemma NewestSnoc(p: Pool, steps: seq<Step>, r: Pool, c: Call, available: nat, s: Step, c': Call, available': nat)
    requires Run(p, steps) == Some(Joined(r, c, available))
    requires Enabled(Joined(r, c, available), s) && Apply(Joined(r, c, available), s) == Joined(r, c', available')
    ensures Run(p, steps + [s]) == Some(Joined(r, c', available'))
  {
    RunSnoc(p, steps, s);
  }

  /** A call that has ended by itself while its container goes on running, with no kill issued for it. */
  ghost predicate EndedUnkilled(c: Call) {
    && c.stage.Gone? && c.box.Running? && IssuedControls(c) == [] && c.permit.NoPermit?
    && match c.stage.from
       case Collecting(j) => ExecRuns.JoinOver(j) && !j.elapsed
       case Streaming(g) => ExecRuns.HandedOut(g.phase) && !g.timedOut
       case _ => false
  }

  lemma OneShotEnds(p: Pool) returns (steps: seq<Step>, c: Call)
    requires p.available > 0
    ensures Run(p, steps) == Some(Joined(p, c, p.available)) && EndedUnkilled(c) && !c.streaming
  {
    var id, a := |p.calls|, p.available - 1;
    Admits(p, false);
    steps := Admission(id, false);
    CleanIsRun(p, steps);
    var c1 := NewCall(false, Collecting(ExecRuns.JOIN_START), InFuture, Running);
    var c2 := c1.(stage := Collecting(ExecRuns.JOIN_START.(collectDone := true)));
    c := c1.(stage := Gone(Collecting(ExecRuns.JOIN_START.(collectDone := true, waitDone := true))), permit := NoPermit);
    JoinedPut(p, RunningCall(false), a, c1);
    JoinedPut(p, c1, a, c2);
    JoinedPut(p, c2, a, c);
    NewestSnoc(p, steps, p, RunningCall(false), a, StartDone(id), c1, a);
    steps := steps + [StartDone(id)];
    NewestSnoc(p, steps, p, c1, a, OneShot(id, ExecRuns.Collect), c2, a);
    steps := steps + [OneShot(id, ExecRuns.Collect)];
    NewestSnoc(p, steps, p, c2, a, OneShot(id, ExecRuns.Await), c, p.available);
    steps := steps + [OneShot(id, ExecRuns.Await)];
  }

  function StreamingCall(g: ExecRuns.Gen): Call { NewCall(true, Streaming(g), InStream, Running) }

  /** One more step of the newest stream, which is not its drop. */
  lemma StreamSnoc(p: Pool, steps: seq<Step>, r: Pool, g: ExecRuns.Gen, available: nat, action: ExecRuns.Action)
    requires Run(p, steps) == Some(Joined(r, StreamingCall(g), available))
    requires g.taken == 0 && ExecRuns.Enabled(g, action) && !action.DropStream?
    ensures Run(p, steps + [Stream(|r.calls|, action)])
            == Some(Joined(r, StreamingCall(ExecRuns.Step([], WaitEnded, g, action)), available))
  {
    JoinedPut(r, StreamingCall(g), available, StreamingCall(ExecRuns.Step([], WaitEnded, g, action)));
    NewestSnoc(p, steps, r, StreamingCall(g), available, Stream(|r.calls|, action),
               StreamingCall(ExecRuns.Step([], WaitEnded, g, action)), available);
  }

  lemma StreamStarts(p: Pool) returns (steps: seq<Step>)
    requires p.available > 0
    ensures Run(p, steps) == Some(Joined(p, StreamingCall(ExecRuns.FRESH), p.available - 1))
  {
    var id, a := |p.calls|, p.available - 1;
    Admits(p, true);
    steps := Admission(id, true);
    CleanIsRun(p, steps);
    JoinedPut(p, RunningCall(true), a, StreamingCall(ExecRuns.FRESH));
    NewestSnoc(p, steps, p, RunningCall(true), a, StartDone(id), StreamingCall(ExecRuns.FRESH), a);
    steps := steps + [StartDone(id)];
  }

  lemma StreamFinishes(p: Pool) returns (steps: seq<Step>, g: ExecRuns.Gen)
    requires p.available > 0
    ensures Run(p, steps) == Some(Joined(p, StreamingCall(g), p.available - 1))
    ensures g.phase.Yielded? && !g.timedOut && g.controls == [] && g.taken == 0
  {
    var id, a := |p.calls|, p.available - 1;
    steps := StreamStarts(p);
    g := ExecRuns.FRESH;
    StreamSnoc(p, steps, p, g, a, ExecRuns.FirstPoll);
    steps, g := steps + [Stream(id, ExecRuns.FirstPoll)], ExecRuns.Step([], WaitEnded, g, ExecRuns.FirstPoll);
    StreamSnoc(p, steps, p, g, a, ExecRuns.AttachReady(0));
    steps, g := steps + [Stream(id, ExecRuns.AttachReady(0))], ExecRuns.Step([], WaitEnded, g, ExecRuns.AttachReady(0));
    StreamSnoc(p, steps, p, g, a, ExecRuns.WaitReady(0));
    steps, g := steps + [Stream(id, ExecRuns.WaitReady(0))], ExecRuns.Step([], WaitEnded, g, ExecRuns.WaitReady(0));
  }

  /** With a permit free, a call of either kind can end by itself and leave its container running, unkilled. */
  lemma EndsWithContainerLeft(p: Pool, streaming: bool) returns (steps: seq<Step>, c: Call)
    requires p.available > 0
    ensures Run(p, steps) == Some(Joined(p, c, p.available)) && EndedUnkilled(c) && c.streaming == streaming
  {
    if streaming {
      var g;
      steps, g := StreamFinishes(p);
      var dropped := ExecRuns.Step([], WaitEnded, g, ExecRuns.DropStream);
      c := StreamingCall(g).(stage := Gone(Streaming(dropped)), permit := NoPermit);
      JoinedPut(p, StreamingCall(g), p.available - 1, c);
      NewestSnoc(p, steps, p, StreamingCall(g), p.available - 1, Stream(|p.calls|, ExecRuns.DropStream), c, p.available);
      steps := steps + [Stream(|p.calls|, ExecRuns.DropStream)];
    } else {
      steps, c := OneShotEnds(p);
    }
  }

  ghost predicate AllAbandoned(q: Pool, m: nat) {
    && |q.calls| == m
    && forall id :: 0 <= id < m ==> q.calls[id].box.Running? && IssuedControls(q.calls[id]) == []
  }

  /**
   * Started containers can pile up to any number, whatever the configured maximum, with all permits free and no kill
   * issued for any of them: by dropping one-shot calls, and just as well by dropping streams before their first poll.
   */
  lemma {:induction false} ContainersUnbounded(maxConcurrent: nat, queueTimeout: bool, streaming: bool, m: nat)
    returns (steps: seq<Step>)
    ensures Run(Start(maxConcurrent, queueTimeout), steps).Some?
    ensures var q := Run(Start(maxConcurrent, queueTimeout), steps).value;
            AllAbandoned(q, m) && q.available == q.capacity == Capacity(maxConcurrent)
  {
    var p := Start(maxConcurrent, queueTimeout);
    if m == 0 {
      steps := [];
    } else {
      var before := ContainersUnbounded(maxConcurrent, queueTimeout, streaming, m - 1);
      var more := AbandonOne(Run(p, before).value, streaming);
      RunConcat(p, before, more);
      steps := before + more;
    }
  }
}

/** What a call can do inside the pool: every schedule of its machine, and every way to fail on the way there. */
module CallRuns {
  import opened Basics
  import opened Exec
  import ExecRuns
  import opened Permits
  import opened Containers

  // ---- failing on the way ----

  /** The ways a call can be turned down before it answers, each at its place. */
  predicate Fails(p: Pool, id: CallId, s: Step) {
    id < |p.calls| &&
    match p.calls[id].stage
    case Queued => p.queueTimeout && s == QueueTimeout(id)
    case Admitted => s == ParamError(id) || s == CreateError(id)
    case Attaching => s == AttachError(id)
    case Starting => s == StartError(id)
    case _ => false
  }

  /** Whatever fails, or wherever the client goes away, the call is over at once and the permit it had is free again. */
  lemma FailureFreesPermit(p: Pool, id: CallId, s: Step)
    requires Inv(p) && (Fails(p, id, s) || (id < |p.calls| && InHandler(p.calls[id].stage) && s == DropFuture(id)))
    ensures Enabled(p, s) && IsGone(Apply(p, s), id) && !Holds(Apply(p, s), id)
    ensures Apply(p, s).available == p.available + if p.calls[id].stage.Queued? then 0 else 1
    ensures Apply(p, s).calls[id].box == p.calls[id].box && Apply(p, s).calls[id].issued == p.calls[id].issued
  {
    assert CallInv(p.calls[id]);
  }

  /** A start the daemon refuses ends the call the same way, and nothing is left that could run. */
  lemma RefusedStartLeavesNothing(p: Pool, id: CallId)
    requires Inv(p) && id < |p.calls| && p.calls[id].stage.Starting? && p.calls[id].box.StartSent?
    ensures Run(p, [StartRefused(id), StartError(id)]).Some?
    ensures var q := Run(p, [StartRefused(id), StartError(id)]).value;
            IsGone(q, id) && !Holds(q, id) && q.available == p.available + 1 && id !in Loose(q)
  {
    assert CallInv(p.calls[id]);
    StepKeepsInv(p, StartRefused(id));
    FailureFreesPermit(Apply(p, StartRefused(id)), id, StartError(id));
    RunTwo(p, StartRefused(id), StartError(id));
  }

  // ---- the machine of a call runs inside the pool as it runs alone ----

  function OneShotSteps(id: CallId, schedule: seq<ExecRuns.JoinAction>): seq<Step> {
    if |schedule| == 0 then []
    else OneShotSteps(id, schedule[..|schedule| - 1]) + [OneShot(id, schedule[|schedule| - 1])]
  }

  /** Where a one-shot call stands once its machine has come to `j`: collecting, told to kill, or over. */
  function WithJoin(p: Pool, id: CallId, j: ExecRuns.Join): Pool
    requires id < |p.calls|
  {
    var c := p.calls[id];
    if j.elapsed then Put(p, id, c.(stage := KillAwaited, issued := [Kill(false)]))
    else if j.collectDone && j.waitDone then
      Put(p, id, c.(stage := Gone(Collecting(j)), permit := NoPermit)).(available := p.available + 1)
    else Put(p, id, c.(stage := Collecting(j)))
  }

  lemma PutTwice(p: Pool, id: CallId, c: Call, c': Call)
    requires id < |p.calls|
    ensures Put(Put(p, id, c), id, c') == Put(p, id, c')
  {
  }

  lemma OneShotFollows(p: Pool, id: CallId, j: ExecRuns.Join, a: ExecRuns.JoinAction)
    requires id < |p.calls| && p.calls[id].permit.InFuture? && p.calls[id].box.Over? && p.calls[id].issued == []
    requires j.taken <= |p.calls[id].attach| && ExecRuns.JoinEnabled(j, a)
    ensures Enabled(WithJoin(p, id, j), OneShot(id, a))
    ensures Apply(WithJoin(p, id, j), OneShot(id, a))
            == WithJoin(p, id, ExecRuns.JoinStep(p.calls[id].attach, p.calls[id].wait, j, a))
  {
    var c := p.calls[id];
    var j' := ExecRuns.JoinStep(c.attach, c.wait, j, a);
    var before := c.(stage := Collecting(j));
    assert [] + [Kill(false)] == [Kill(false)];
    PutTwice(p, id, before, c.(stage := KillAwaited, issued := [Kill(false)]));
    PutTwice(p, id, before, c.(stage := Gone(Collecting(j')), permit := NoPermit));
    PutTwice(p, id, before, c.(stage := Collecting(j')));
  }

  /** Inside the pool a one-shot call whose process has ended follows every schedule that its machine has on its own. */
  lemma {:induction false} PoolFollowsOneShot(p: Pool, id: CallId, schedule: seq<ExecRuns.JoinAction>)
    requires id < |p.calls| && p.calls[id].stage == Collecting(ExecRuns.JOIN_START)
    requires p.calls[id].permit.InFuture? && p.calls[id].box.Over? && p.calls[id].issued == []
    requires ExecRuns.JoinRun(p.calls[id].attach, p.calls[id].wait, schedule).Some?
    ensures Run(p, OneShotSteps(id, schedule))
            == Some(WithJoin(p, id, ExecRuns.JoinRun(p.calls[id].attach, p.calls[id].wait, schedule).value))
    decreases |schedule|
  {
    var c := p.calls[id];
    if |schedule| == 0 {
      assert p.calls[id := c] == p.calls;
    } else {
      var init, a := schedule[..|schedule| - 1], schedule[|schedule| - 1];
      PoolFollowsOneShot(p, id, init);
      OneShotFollows(p, id, ExecRuns.JoinRun(c.attach, c.wait, init).value, a);
      RunSnoc(p, OneShotSteps(id, init), OneShot(id, a));
    }
  }

  /** A timed-out call ends once its kill and its removal have come back: both issued, the permit free. */
  lemma TimedOutEnds(p: Pool, id: CallId)
    requires Inv(p) && id < |p.calls| && p.calls[id].stage.KillAwaited?
    ensures Run(p, [KillDone(id), RemoveDone(id)]).Some?
    ensures var q := Run(p, [KillDone(id), RemoveDone(id)]).value;
            && IsGone(q, id) && !Holds(q, id) && q.available == p.available + 1
            && q.calls[id].issued == [Kill(false), Remove(false)]
  {
    assert CallInv(p.calls[id]);
    assert [Kill(false)] + [Remove(false)] == [Kill(false), Remove(false)];
    RunTwo(p, KillDone(id), RemoveDone(id));
  }

  function StreamSteps(id: CallId, schedule: seq<ExecRuns.Action>): seq<Step> {
    if |schedule| == 0 then []
    else StreamSteps(id, schedule[..|schedule| - 1]) + [Stream(id, schedule[|schedule| - 1])]
  }

  function WithGen(p: Pool, id: CallId, g: ExecRuns.Gen): Pool
    requires id < |p.calls|
  {
    if g.phase.Dropped? then
      Put(p, id, p.calls[id].(stage := Gone(Streaming(g)), permit := NoPermit)).(available := p.available + 1)
    else Put(p, id, p.calls[id].(stage := Streaming(g)))
  }

  lemma StreamFollows(p: Pool, id: CallId, g: ExecRuns.Gen, a: ExecRuns.Action)
    requires id < |p.calls| && p.calls[id].permit.InStream? && p.calls[id].box.Over?
    requires g.taken <= |p.calls[id].attach| && ExecRuns.Enabled(g, a) && !g.phase.Dropped?
    ensures Enabled(WithGen(p, id, g), Stream(id, a))
    ensures Apply(WithGen(p, id, g), Stream(id, a))
            == WithGen(p, id, ExecRuns.Step(p.calls[id].attach, p.calls[id].wait, g, a))
  {
    var c := p.calls[id];
    ExecRuns.StepFlags(c.attach, c.wait, g, a);
    var g' := ExecRuns.Step(c.attach, c.wait, g, a);
    PutTwice(p, id, c.(stage := Streaming(g)), c.(stage := Streaming(g')));
    PutTwice(p, id, c.(stage := Streaming(g)), c.(stage := Gone(Streaming(g')), permit := NoPermit));
  }

  /** And a stream follows every schedule of its generator, its drop included. */
  lemma {:induction false} PoolFollowsStream(p: Pool, id: CallId, schedule: seq<ExecRuns.Action>)
    requires id < |p.calls| && p.calls[id].stage == Streaming(ExecRuns.FRESH)
    requires p.calls[id].permit.InStream? && p.calls[id].box.Over?
    requires ExecRuns.Run(p.calls[id].attach, p.calls[id].wait, schedule).Some?
    ensures Run(p, StreamSteps(id, schedule))
            == Some(WithGen(p, id, ExecRuns.Run(p.calls[id].attach, p.calls[id].wait, schedule).value))
    decreases |schedule|
  {
    var c := p.calls[id];
    if |schedule| == 0 {
      assert p.calls[id := c] == p.calls;
    } else {
      var init, a := schedule[..|schedule| - 1], schedule[|schedule| - 1];
      PoolFollowsStream(p, id, init);
      NothingAfterDrop(c.attach, c.wait, init, a);
      StreamFollows(p, id, ExecRuns.Run(c.attach, c.wait, init).value, a);
      RunSnoc(p, StreamSteps(id, init), Stream(id, a));
    }
  }

  lemma NothingAfterDrop(attach: seq<LogItem>, wait: WaitItem, init: seq<ExecRuns.Action>, a: ExecRuns.Action)
    requires ExecRuns.Run(attach, wait, init).Some? && ExecRuns.Enabled(ExecRuns.Run(attach, wait, init).value, a)
    ensures !ExecRuns.Run(attach, wait, init).value.phase.Dropped?
  {
  }

  // ---- from arrival to the start of the machine ----

  function Served(streaming: bool, attach: seq<LogItem>, wait: WaitItem): Call {
    if streaming then Call(true, attach, wait, Streaming(ExecRuns.FRESH), InStream, Over, [])
    else Call(false, attach, wait, Collecting(ExecRuns.JOIN_START), InFuture, Over, [])
  }

  lemma Arrives(p: Pool, streaming: bool, attach: seq<LogItem>, wait: WaitItem) returns (steps: seq<Step>)
    requires p.available > 0
    ensures Run(p, steps) == Some(Joined(p, Call(streaming, attach, wait, Starting, InFuture, StartSent, []), p.available - 1))
  {
    var id, a := |p.calls|, p.available;
    var c := Call(streaming, attach, wait, Queued, NoPermit, NoBox, []);
    var admitted := c.(stage := Admitted, permit := InFuture);
    var attaching := admitted.(stage := Attaching, box := Created);
    JoinedPut(p, c, a, admitted);
    JoinedPut(p, admitted, a - 1, attaching);
    JoinedPut(p, attaching, a - 1, attaching.(stage := Starting, box := StartSent));
    steps := [] + [Arrive(streaming, attach, wait)];
    RunSnoc(p, [], Arrive(streaming, attach, wait));
    NewestSnoc(p, steps, p, c, a, Acquire(id), admitted, a - 1);
    steps := steps + [Acquire(id)];
    NewestSnoc(p, steps, p, admitted, a - 1, CreateDone(id), attaching, a - 1);
    steps := steps + [CreateDone(id)];
    NewestSnoc(p, steps, p, attaching, a - 1, AttachDone(id), attaching.(stage := Starting, box := StartSent), a - 1);
    steps := steps + [AttachDone(id)];
  }

  /** With a permit free, a new call of either kind and with any output can be served until its machine starts. */
  lemma CanBeServed(p: Pool, streaming: bool, attach: seq<LogItem>, wait: WaitItem) returns (steps: seq<Step>)
    requires p.available > 0
    ensures Run(p, steps) == Some(Joined(p, Served(streaming, attach, wait), p.available - 1))
  {
    var id, a := |p.calls|, p.available - 1;
    var c := Call(streaming, attach, wait, Starting, InFuture, StartSent, []);
    steps := Arrives(p, streaming, attach, wait);
    JoinedPut(p, c, a, c.(box := Running));
    JoinedPut(p, c.(box := Running), a, c.(box := Over));
    JoinedPut(p, c.(box := Over), a, Served(streaming, attach, wait));
    NewestSnoc(p, steps, p, c, a, ProcessStarts(id), c.(box := Running), a);
    steps := steps + [ProcessStarts(id)];
    NewestSnoc(p, steps, p, c.(box := Running), a, ProcessEnds(id), c.(box := Over), a);
    steps := steps + [ProcessEnds(id)];
    NewestSnoc(p, steps, p, c.(box := Over), a, StartDone(id), Served(streaming, attach, wait), a);
    steps := steps + [StartDone(id)];
  }

  /**
   * Whatever a command writes and however its wait answers, a pool with a free permit can serve it to its full answer,
   * one-shot or streaming, and has as many free permits afterwards as before.
   */
  lemma OneShotServedInFull(p: Pool, attach: seq<LogItem>, wait: WaitItem) returns (steps: seq<Step>, j: ExecRuns.Join)
    requires p.available > 0
    ensures Run(p, steps).Some?
    ensures var q := Run(p, steps).value;
            && q.available == p.available && |q.calls| == |p.calls| + 1
            && q.calls[|p.calls|].stage == Gone(Collecting(j)) && ExecRuns.JoinAnswer(j) == FullAnswer(attach, wait)
  {
    var first := CanBeServed(p, false, attach, wait);
    var schedule := FullJoin(attach, wait);
    j := ExecRuns.JoinRun(attach, wait, schedule).value;
    var q := Joined(p, Served(false, attach, wait), p.available - 1);
    PoolFollowsOneShot(q, |p.calls|, schedule);
    RunConcat(p, first, OneShotSteps(|p.calls|, schedule));
    steps := first + OneShotSteps(|p.calls|, schedule);
  }

  lemma {:induction false} CollectItems(attach: seq<LogItem>, wait: WaitItem, n: nat) returns (schedule: seq<ExecRuns.JoinAction>)
    requires n <= |Readable(attach)|
    ensures ExecRuns.JoinRun(attach, wait, schedule).Some?
    ensures var j := ExecRuns.JoinRun(attach, wait, schedule).value;
            j.taken == n && !j.collectDone && !j.waitDone && !j.elapsed
  {
    if n == 0 {
      schedule := [];
    } else {
      schedule := CollectItems(attach, wait, n - 1);
      ExecRuns.JoinSnoc(attach, wait, schedule, ExecRuns.Collect);
      ReadableStep(attach, n - 1);
      schedule := schedule + [ExecRuns.Collect];
    }
  }

  lemma FullJoin(attach: seq<LogItem>, wait: WaitItem) returns (schedule: seq<ExecRuns.JoinAction>)
    ensures ExecRuns.JoinRun(attach, wait, schedule).Some?
    ensures var j := ExecRuns.JoinRun(attach, wait, schedule).value;
            j.collectDone && j.waitDone && !j.elapsed && ExecRuns.JoinAnswer(j) == FullAnswer(attach, wait)
  {
    var n := |Readable(attach)|;
    schedule := CollectItems(attach, wait, n);
    ReadableStep(attach, n);
    ExecRuns.JoinSnoc(attach, wait, schedule, ExecRuns.Collect);
    schedule := schedule + [ExecRuns.Collect];
    ExecRuns.JoinSnoc(attach, wait, schedule, ExecRuns.Await);
    schedule := schedule + [ExecRuns.Await];
    ExecRuns.JoinRunKeeps(attach, wait, schedule);
    assert Readable(attach)[..n] == Readable(attach);
  }

  lemma StreamServedInFull(p: Pool, attach: seq<LogItem>, wait: WaitItem) returns (steps: seq<Step>, g: ExecRuns.Gen)
    requires p.available > 0
    ensures Run(p, steps).Some?
    ensures var q := Run(p, steps).value;
            && q.available == p.available - 1 && |q.calls| == |p.calls| + 1
            && q.calls[|p.calls|].stage == Streaming(g) && ClientAnswer(g.events) == Some(FullAnswer(attach, wait))
    ensures Enabled(Run(p, steps).value, Stream(|p.calls|, ExecRuns.DropStream))
    ensures Apply(Run(p, steps).value, Stream(|p.calls|, ExecRuns.DropStream)).available == p.available
  {
    var first := CanBeServed(p, true, attach, wait);
    var schedule := ExecRuns.FullReachable(attach, wait);
    g := ExecRuns.Run(attach, wait, schedule).value;
    var q := Joined(p, Served(true, attach, wait), p.available - 1);
    PoolFollowsStream(q, |p.calls|, schedule);
    RunConcat(p, first, StreamSteps(|p.calls|, schedule));
    steps := first + StreamSteps(|p.calls|, schedule);
  }
}

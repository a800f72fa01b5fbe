/**
 * Admission control: many concurrent exec calls, one semaphore, and the containers they start. Each call runs the
 * one-shot machine or the streaming generator of ExecRuns inside.
 */
module Permits {
  import opened Basics
  import opened Exec
  import ExecRuns

  type CallId = nat

  /** Where a call stands: what its future or its stream is waiting for. */
  datatype Stage =
    | Queued                          // for a permit
    | Admitted                        // building the parameters, creating the container
    | Attaching                       // the container exists
    | Starting                        // the start call is out
    | Collecting(join: ExecRuns.Join) // one-shot: output and exit code
    | KillAwaited                     // one-shot: the deadline fell
    | RemoveAwaited
    | Streaming(gen: ExecRuns.Gen)    // the stream has been handed to the client
    | Gone(from: Stage)               // over; the stage it ended in

  /** What owns the permit of a call: nothing, the locals of the handler's future, or the returned stream. */
  datatype Place = NoPermit | InFuture | InStream

  /** The container of a call, as the daemon sees it. */
  datatype Box = NoBox | Created | StartSent | Refused | Running | Over

  datatype Call = Call(streaming: bool, attach: seq<LogItem>, wait: WaitItem,
                       stage: Stage, permit: Place, box: Box, issued: seq<Control>)

  datatype Pool = Pool(capacity: nat, available: nat, queueTimeout: bool, calls: seq<Call>)

  datatype Step =
    | Arrive(streaming: bool, attach: seq<LogItem>, wait: WaitItem)
    | Acquire(id: CallId)
    | QueueTimeout(id: CallId)
    | ParamError(id: CallId)
    | CreateError(id: CallId)
    | CreateDone(id: CallId)
    | AttachError(id: CallId)
    | AttachDone(id: CallId)
    | StartError(id: CallId)
    | StartDone(id: CallId)
    | OneShot(id: CallId, join: ExecRuns.JoinAction)
    | KillDone(id: CallId)
    | RemoveDone(id: CallId)
    | Stream(id: CallId, action: ExecRuns.Action)
    | DropFuture(id: CallId)          // the client goes away before it has an answer or a stream
    | ProcessStarts(id: CallId)       // the daemon carries out a start
    | StartRefused(id: CallId)
    | ProcessEnds(id: CallId)

  /** `effective_max`: zero stands for ten. */
  function Capacity(maxConcurrent: nat): (c: nat)
    ensures c >= 1
  {
    if maxConcurrent == 0 then 10 else maxConcurrent
  }

  function Start(maxConcurrent: nat, queueTimeout: bool): Pool {
    Pool(Capacity(maxConcurrent), Capacity(maxConcurrent), queueTimeout, [])
  }

  /** An exit code is delivered only once the process has ended. */
  predicate CodeMayArrive(c: Call) { DeliveredCode(c.wait).Some? ==> c.box == Over }

  predicate InHandler(s: Stage) { !s.Streaming? && !s.Gone? }

  predicate Enabled(p: Pool, s: Step) {
    if s.Arrive? then true
    else
      s.id < |p.calls| &&
      var c := p.calls[s.id];
      match s
      case Acquire(_) => c.stage.Queued? && p.available > 0
      case QueueTimeout(_) => c.stage.Queued? && p.queueTimeout
      case ParamError(_) => c.stage.Admitted?
      case CreateError(_) => c.stage.Admitted?
      case CreateDone(_) => c.stage.Admitted?
      case AttachError(_) => c.stage.Attaching?
      case AttachDone(_) => c.stage.Attaching?
      case StartError(_) => c.stage.Starting?
      case StartDone(_) => c.stage.Starting? && (c.box.Running? || c.box.Over?)
      case OneShot(_, a) =>
        && c.stage.Collecting? && c.stage.join.taken <= |c.attach|
        && ExecRuns.JoinEnabled(c.stage.join, a) && (a.Await? ==> CodeMayArrive(c))
      case KillDone(_) => c.stage.KillAwaited?
      case RemoveDone(_) => c.stage.RemoveAwaited?
      case Stream(_, a) =>
        && c.stage.Streaming? && c.stage.gen.taken <= |c.attach|
        && ExecRuns.Enabled(c.stage.gen, a) && (a.WaitReady? ==> CodeMayArrive(c))
      case DropFuture(_) => InHandler(c.stage)
      case ProcessStarts(_) => c.box.StartSent?
      case StartRefused(_) => c.box.StartSent?
      case ProcessEnds(_) => c.box.Running?
  }

  // ---- what ends a future or a stream, and what that frees ----

  function Put(p: Pool, id: CallId, c: Call): Pool
    requires id < |p.calls|
  {
    p.(calls := p.calls[id := c])
  }

  /** The handler's future is over, returned or dropped: a permit among its locals goes back. */
  function FutureEnds(p: Pool, id: CallId, c: Call): Pool
    requires id < |p.calls|
  {
    if c.permit.InFuture? then Put(p, id, c.(permit := NoPermit)).(available := p.available + 1) else Put(p, id, c)
  }

  /** The stream is dropped: a permit it owns goes back. */
  function StreamEnds(p: Pool, id: CallId, c: Call): Pool
    requires id < |p.calls|
  {
    if c.permit.InStream? then Put(p, id, c.(permit := NoPermit)).(available := p.available + 1) else Put(p, id, c)
  }

  function Leaves(c: Call): Call { c.(stage := Gone(c.stage)) }

  /** Starting has succeeded: a one-shot call goes on, a streaming handler moves its permit into the stream and returns. */
  function Started(p: Pool, id: CallId): Pool
    requires id < |p.calls|
  {
    var c := p.calls[id];
    if c.streaming then FutureEnds(p, id, c.(stage := Streaming(ExecRuns.FRESH), permit := InStream))
    else Put(p, id, c.(stage := Collecting(ExecRuns.JOIN_START)))
  }

  function OneShotStep(p: Pool, id: CallId, a: ExecRuns.JoinAction): Pool
    requires id < |p.calls| && p.calls[id].stage.Collecting? && p.calls[id].stage.join.taken <= |p.calls[id].attach|
  {
    var c := p.calls[id];
    var j := ExecRuns.JoinStep(c.attach, c.wait, c.stage.join, a);
    if j.elapsed then Put(p, id, c.(stage := KillAwaited, issued := c.issued + [Kill(false)]))
    else if ExecRuns.JoinOver(j) then FutureEnds(p, id, Leaves(c.(stage := Collecting(j))))
    else Put(p, id, c.(stage := Collecting(j)))
  }

  function StreamStep(p: Pool, id: CallId, a: ExecRuns.Action): Pool
    requires id < |p.calls| && p.calls[id].stage.Streaming? && p.calls[id].stage.gen.taken <= |p.calls[id].attach|
    requires ExecRuns.Enabled(p.calls[id].stage.gen, a)
  {
    var c := p.calls[id];
    var g := ExecRuns.Step(c.attach, c.wait, c.stage.gen, a);
    if a.DropStream? then StreamEnds(p, id, Leaves(c.(stage := Streaming(g)))) else Put(p, id, c.(stage := Streaming(g)))
  }

  function Dismissed(p: Pool, id: CallId): Pool
    requires id < |p.calls|
  {
    FutureEnds(p, id, Leaves(p.calls[id]))
  }

  function Apply(p: Pool, s: Step): Pool
    requires Enabled(p, s)
  {
    match s
    case Arrive(streaming, attach, wait) =>
      p.(calls := p.calls + [Call(streaming, attach, wait, Queued, NoPermit, NoBox, [])])
    case Acquire(id) =>
      Put(p, id, p.calls[id].(stage := Admitted, permit := InFuture)).(available := p.available - 1)
    case QueueTimeout(id) => Dismissed(p, id)
    case ParamError(id) => Dismissed(p, id)
    case CreateError(id) => Dismissed(p, id)
    case CreateDone(id) => Put(p, id, p.calls[id].(stage := Attaching, box := Created))
    case AttachError(id) => Dismissed(p, id)
    case AttachDone(id) => Put(p, id, p.calls[id].(stage := Starting, box := StartSent))
    case StartError(id) => Dismissed(p, id)
    case StartDone(id) => Started(p, id)
    case OneShot(id, a) => OneShotStep(p, id, a)
    case KillDone(id) => Put(p, id, p.calls[id].(stage := RemoveAwaited, issued := p.calls[id].issued + [Remove(false)]))
    case RemoveDone(id) => Dismissed(p, id)
    case Stream(id, a) => StreamStep(p, id, a)
    case DropFuture(id) => Dismissed(p, id)
    case ProcessStarts(id) => Put(p, id, p.calls[id].(box := Running))
    case StartRefused(id) => Put(p, id, p.calls[id].(box := Refused))
    case ProcessEnds(id) => Put(p, id, p.calls[id].(box := Over))
  }

  function Run(p: Pool, steps: seq<Step>): Option<Pool>
    decreases |steps|
  {
    if steps == [] then Some(p)
    else if Enabled(p, steps[0]) then Run(Apply(p, steps[0]), steps[1..])
    else None
  }

  // ---- the invariant of every run ----

  ghost function Holders(p: Pool): set<CallId> {
    set id: CallId | 0 <= id < |p.calls| && !p.calls[id].permit.NoPermit?
  }

  ghost function RunningBoxes(p: Pool): set<CallId> {
    set id: CallId | 0 <= id < |p.calls| && p.calls[id].box.Running?
  }

  ghost function LiveBoxes(p: Pool): set<CallId> {
    set id: CallId | 0 <= id < |p.calls| && p.calls[id].box.Running? && !p.calls[id].stage.Gone?
  }

  /** Calls that are over while their container runs, or while a start that is out may still make it run. */
  ghost function Loose(p: Pool): set<CallId> {
    set id: CallId | 0 <= id < |p.calls| && p.calls[id].stage.Gone? && (p.calls[id].box.Running? || p.calls[id].box.StartSent?)
  }

  function PermitPlace(s: Stage): Place {
    match s
    case Queued => NoPermit
    case Gone(_) => NoPermit
    case Streaming(_) => InStream
    case _ => InFuture
  }

  predicate BoxFits(s: Stage, b: Box) {
    match s
    case Queued => b == NoBox
    case Admitted => b == NoBox
    case Attaching => b == Created
    case Starting => b != NoBox && b != Created
    case Gone(from) => BoxFits(from, b)
    case _ => b == Running || b == Over
  }

  /** The control calls a one-shot call has issued. */
  function IssuedIn(s: Stage): seq<Control> {
    match s
    case KillAwaited => [Kill(false)]
    case RemoveAwaited => EXPLICIT_CLEANUP
    case Gone(from) => IssuedIn(from)
    case _ => []
  }

  /** The machine inside a call keeps its own invariant, and a delivered code means an ended process. */
  ghost predicate MachineFits(c: Call, s: Stage) {
    match s
    case Collecting(j) =>
      && !c.streaming && j.taken <= |c.attach| && ExecRuns.JoinInv(c.attach, c.wait, j) && !j.elapsed
      && (j.waitDone ==> CodeMayArrive(c))
    case Streaming(g) =>
      && c.streaming && g.taken <= |c.attach| && ExecRuns.Inv(c.attach, c.wait, g)
      && (g.waitDone ==> CodeMayArrive(c))
    case KillAwaited => !c.streaming
    case RemoveAwaited => !c.streaming
    case Gone(from) => !from.Gone? && MachineFits(c, from)
    case _ => true
  }

  /** A generator still in the client's hands has not been dropped; one whose call is over has. */
  predicate DroppedFits(s: Stage) {
    match s
    case Streaming(g) => !g.phase.Dropped?
    case Gone(Streaming(g)) => g.phase.Dropped? && !g.phase.from.Dropped?
    case _ => true
  }

  ghost predicate CallInv(c: Call) {
    && c.permit == PermitPlace(c.stage) && BoxFits(c.stage, c.box) && c.issued == IssuedIn(c.stage)
    && MachineFits(c, c.stage) && DroppedFits(c.stage)
  }

  ghost predicate Inv(p: Pool) {
    && p.available + |Holders(p)| == p.capacity
    && forall id :: 0 <= id < |p.calls| ==> CallInv(p.calls[id])
  }

  lemma StartInv(maxConcurrent: nat, queueTimeout: bool)
    ensures Inv(Start(maxConcurrent, queueTimeout))
  {
    assert Holders(Start(maxConcurrent, queueTimeout)) == {};
  }

  /** Replacing one call changes the sets that count calls at that call only. */
  lemma HoldersAfterPut(p: Pool, id: CallId, c: Call)
    requires id < |p.calls|
    ensures Holders(Put(p, id, c)) == if c.permit.NoPermit? then Holders(p) - {id} else Holders(p) + {id}
  {
  }

  lemma PutKeeps(p: Pool, id: CallId, c: Call)
    requires Inv(p) && id < |p.calls| && CallInv(c)
    requires c.permit.NoPermit? <==> p.calls[id].permit.NoPermit?
    ensures Inv(Put(p, id, c))
  {
    HoldersAfterPut(p, id, c);
    assert Holders(Put(p, id, c)) == Holders(p);
  }

  /** When an owner of the call's permit ends, the permit that leaves the call is the one that becomes available. */
  lemma EndKeeps(p: Pool, id: CallId, c: Call, q: Pool)
    requires Inv(p) && id < |p.calls| && CallInv(c) && c.permit.NoPermit?
    requires q == Put(p, id, c).(available := if p.calls[id].permit.NoPermit? then p.available else p.available + 1)
    ensures Inv(q)
  {
    HoldersAfterPut(p, id, c);
    assert Holders(q) == Holders(Put(p, id, c));
  }

  lemma ArriveKeeps(p: Pool, s: Step)
    requires Inv(p) && s.Arrive?
    ensures Inv(Apply(p, s))
  {
    assert Holders(Apply(p, s)) == Holders(p);
  }

  lemma AcquireKeeps(p: Pool, id: CallId)
    requires Inv(p) && Enabled(p, Acquire(id))
    ensures Inv(Apply(p, Acquire(id)))
  {
    var q := Apply(p, Acquire(id));
    assert CallInv(p.calls[id]);
    assert Holders(q) == Holders(p) + {id};
  }

  /** A future that ends in the handler, whatever it waits for, gives back what it holds. */
  lemma LeavingKeeps(p: Pool, id: CallId)
    requires Inv(p) && id < |p.calls| && InHandler(p.calls[id].stage)
    ensures Inv(FutureEnds(p, id, Leaves(p.calls[id])))
  {
    var c := p.calls[id];
    assert CallInv(c);
    EndKeeps(p, id, Leaves(c).(permit := NoPermit), FutureEnds(p, id, Leaves(c)));
  }

  lemma FreshGenFits(attach: seq<LogItem>, wait: WaitItem)
    ensures ExecRuns.Inv(attach, wait, ExecRuns.FRESH)
    ensures ExecRuns.JoinInv(attach, wait, ExecRuns.JOIN_START)
  {
    ExecRuns.RunKeeps(attach, wait, []);
    ExecRuns.JoinRunKeeps(attach, wait, []);
  }

  lemma StartedKeeps(p: Pool, id: CallId)
    requires Inv(p) && Enabled(p, StartDone(id))
    ensures Inv(Started(p, id))
  {
    var c := p.calls[id];
    assert CallInv(c);
    FreshGenFits(c.attach, c.wait);
    PutKeeps(p, id, if c.streaming then c.(stage := Streaming(ExecRuns.FRESH), permit := InStream)
                    else c.(stage := Collecting(ExecRuns.JOIN_START)));
  }

  lemma JoinedCall(c: Call, a: ExecRuns.JoinAction)
    requires c.stage.Collecting? && CallInv(c)
    requires ExecRuns.JoinEnabled(c.stage.join, a) && (a.Await? ==> CodeMayArrive(c))
    ensures var j := ExecRuns.JoinStep(c.attach, c.wait, c.stage.join, a);
            && (!j.elapsed ==> CallInv(c.(stage := Collecting(j))))
            && (!j.elapsed ==> CallInv(Leaves(c.(stage := Collecting(j))).(permit := NoPermit)))
  {
    ExecRuns.JoinStepKeeps(c.attach, c.wait, c.stage.join, a);
  }

  lemma LeavesKeeps(p: Pool, id: CallId, c: Call)
    requires Inv(p) && id < |p.calls| && p.calls[id].permit.InFuture? && c.permit.InFuture?
    requires CallInv(Leaves(c).(permit := NoPermit))
    ensures Inv(FutureEnds(p, id, Leaves(c)))
  {
    EndKeeps(p, id, Leaves(c).(permit := NoPermit), FutureEnds(p, id, Leaves(c)));
  }

  lemma OneShotKeeps(p: Pool, id: CallId, a: ExecRuns.JoinAction)
    requires Inv(p) && Enabled(p, OneShot(id, a))
    ensures Inv(OneShotStep(p, id, a))
  {
    var c := p.calls[id];
    assert CallInv(c);
    JoinedCall(c, a);
    var j := ExecRuns.JoinStep(c.attach, c.wait, c.stage.join, a);
    if j.elapsed {
      PutKeeps(p, id, c.(stage := KillAwaited, issued := c.issued + [Kill(false)]));
    } else if ExecRuns.JoinOver(j) {
      LeavesKeeps(p, id, c.(stage := Collecting(j)));
    } else {
      PutKeeps(p, id, c.(stage := Collecting(j)));
    }
  }

  lemma StreamedCall(c: Call, a: ExecRuns.Action)
    requires c.stage.Streaming? && CallInv(c)
    requires ExecRuns.Enabled(c.stage.gen, a) && (a.WaitReady? ==> CodeMayArrive(c))
    ensures var g := ExecRuns.Step(c.attach, c.wait, c.stage.gen, a);
            if a.DropStream? then CallInv(Leaves(c.(stage := Streaming(g))).(permit := NoPermit))
            else CallInv(c.(stage := Streaming(g)))
  {
    ExecRuns.StepKeeps(c.attach, c.wait, c.stage.gen, a);
    ExecRuns.StepFlags(c.attach, c.wait, c.stage.gen, a);
    StreamedFits(c, ExecRuns.Step(c.attach, c.wait, c.stage.gen, a));
  }

  lemma StreamedFits(c: Call, g: ExecRuns.Gen)
    requires c.stage.Streaming? && CallInv(c)
    requires ExecRuns.Inv(c.attach, c.wait, g) && (g.waitDone ==> CodeMayArrive(c))
    requires g.phase.Dropped? ==> !g.phase.from.Dropped?
    ensures if g.phase.Dropped? then CallInv(Leaves(c.(stage := Streaming(g))).(permit := NoPermit))
            else CallInv(c.(stage := Streaming(g)))
  {
    assert g.taken <= |Readable(c.attach)| <= |c.attach|;
  }

  lemma StreamKeeps(p: Pool, id: CallId, a: ExecRuns.Action)
    requires Inv(p) && Enabled(p, Stream(id, a))
    ensures Inv(StreamStep(p, id, a))
  {
    var c := p.calls[id];
    assert CallInv(c);
    StreamedCall(c, a);
    var g := ExecRuns.Step(c.attach, c.wait, c.stage.gen, a);
    if a.DropStream? {
      EndKeeps(p, id, Leaves(c.(stage := Streaming(g))).(permit := NoPermit), StreamStep(p, id, a));
    } else {
      PutKeeps(p, id, c.(stage := Streaming(g)));
    }
  }

  lemma {:induction false} OverStillFits(c: Call, s: Stage)
    requires MachineFits(c, s)
    ensures MachineFits(c.(box := Over), s)
    decreases s
  {
    if s.Gone? { OverStillFits(c, s.from); }
  }

  lemma {:induction false} BoxChangeFits(c: Call, s: Stage, b: Box)
    requires MachineFits(c, s) && BoxFits(s, c.box) && c.box.StartSent? && (b.Running? || b.Refused?)
    ensures MachineFits(c.(box := b), s) && BoxFits(s, b)
    decreases s
  {
    if s.Gone? { BoxChangeFits(c, s.from, b); }
  }

  lemma {:induction false} OverBoxFits(s: Stage, b: Box)
    requires BoxFits(s, b) && b.Running?
    ensures BoxFits(s, Over)
    decreases s
  {
    if s.Gone? { OverBoxFits(s.from, b); }
  }

  /** What the daemon does to a container touches no permit. */
  lemma DaemonKeeps(p: Pool, s: Step)
    requires Inv(p) && Enabled(p, s) && (s.ProcessStarts? || s.StartRefused? || s.ProcessEnds?)
    ensures Inv(Apply(p, s))
  {
    var c := p.calls[s.id];
    assert CallInv(c);
    match s
    case ProcessStarts(id) =>
      BoxChangeFits(c, c.stage, Running);
      PutKeeps(p, id, c.(box := Running));
    case StartRefused(id) =>
      BoxChangeFits(c, c.stage, Refused);
      PutKeeps(p, id, c.(box := Refused));
    case ProcessEnds(id) =>
      OverStillFits(c, c.stage);
      OverBoxFits(c.stage, c.box);
      PutKeeps(p, id, c.(box := Over));
  }

  lemma HandlerKeeps(p: Pool, s: Step)
    requires Inv(p) && Enabled(p, s) && (s.CreateDone? || s.AttachDone? || s.KillDone?)
    ensures Inv(Apply(p, s))
  {
    var c := p.calls[s.id];
    assert CallInv(c);
    match s
    case CreateDone(id) => PutKeeps(p, id, c.(stage := Attaching, box := Created));
    case AttachDone(id) => PutKeeps(p, id, c.(stage := Starting, box := StartSent));
    case KillDone(id) => PutKeeps(p, id, c.(stage := RemoveAwaited, issued := c.issued + [Remove(false)]));
  }

  /** The handler's future ends: refused, failed, answered, or dropped by its client. */
  predicate Dismisses(s: Step) {
    s.QueueTimeout? || s.ParamError? || s.CreateError? || s.AttachError? || s.StartError? || s.RemoveDone? || s.DropFuture?
  }

  lemma DismissalKeeps(p: Pool, s: Step)
    requires Inv(p) && Enabled(p, s) && Dismisses(s)
    ensures Apply(p, s) == Dismissed(p, s.id) && Inv(Apply(p, s))
  {
    LeavingKeeps(p, s.id);
  }

  lemma StepKeepsInv(p: Pool, s: Step)
    requires Inv(p) && Enabled(p, s)
    ensures Inv(Apply(p, s)) && Apply(p, s).capacity == p.capacity
  {
    CapacityStays(p, s);
    if Dismisses(s) {
      DismissalKeeps(p, s);
    } else {
      ProgressKeeps(p, s);
    }
  }

  lemma CapacityStays(p: Pool, s: Step)
    requires Enabled(p, s)
    ensures Apply(p, s).capacity == p.capacity
  {
  }

  lemma ProgressKeeps(p: Pool, s: Step)
    requires Inv(p) && Enabled(p, s) && !Dismisses(s)
    ensures Inv(Apply(p, s))
  {
    match s
    case Arrive(_, _, _) => ArriveKeeps(p, s);
    case Acquire(id) => AcquireKeeps(p, id);
    case StartDone(id) => StartedKeeps(p, id);
    case OneShot(id, a) => OneShotKeeps(p, id, a);
    case Stream(id, a) => StreamKeeps(p, id, a);
    case _ =>
      if s.CreateDone? || s.AttachDone? || s.KillDone? { HandlerKeeps(p, s); } else { DaemonKeeps(p, s); }
  }

  lemma LiveWithinCapacity(p: Pool)
    requires Inv(p)
    ensures LiveBoxes(p) <= Holders(p) && |LiveBoxes(p)| <= |Holders(p)| <= p.capacity
  {
    forall id | id in LiveBoxes(p)
      ensures id in Holders(p)
    {
      assert CallInv(p.calls[id]);
    }
    SubsetSize(LiveBoxes(p), Holders(p));
  }

  lemma {:induction false} SubsetSize<T>(a: set<T>, b: set<T>)
    requires a <= b
    ensures |a| <= |b|
    ensures |a| == |b| ==> a == b
  {
    if a != {} {
      var x :| x in a;
      SubsetSize(a - {x}, b - {x});
      assert a == a - {x} + {x} && b == b - {x} + {x};
    }
  }

  /**
   * Over any interleaving of calls: available permits and calls whose future or stream owns one always add up to the
   * capacity, which never changes, and the running containers of calls that are not over never exceed it.
   */
  lemma {:induction false} PermitsConserved(p: Pool, steps: seq<Step>)
    requires Inv(p) && Run(p, steps).Some?
    ensures var q := Run(p, steps).value;
            && Inv(q) && q.capacity == p.capacity
            && q.available + |Holders(q)| == p.capacity
            && |LiveBoxes(q)| <= p.capacity
            && (Holders(q) == {} ==> q.available == p.capacity)
    decreases |steps|
  {
    if steps == [] {
      LiveWithinCapacity(p);
    } else {
      StepKeepsInv(p, steps[0]);
      PermitsConserved(Apply(p, steps[0]), steps[1..]);
    }
  }

  /**
   * From the start of a service configured for `k` calls, after any steps, free permits and permits held are `k`
   * together; zero stands for ten.
   */
  lemma PermitsOfService(maxConcurrent: nat, queueTimeout: bool, steps: seq<Step>)
    requires Run(Start(maxConcurrent, queueTimeout), steps).Some?
    ensures var q := Run(Start(maxConcurrent, queueTimeout), steps).value;
            && (maxConcurrent > 0 ==> q.available + |Holders(q)| == maxConcurrent && |LiveBoxes(q)| <= maxConcurrent)
            && (maxConcurrent == 0 ==> q.available + |Holders(q)| == 10 && |LiveBoxes(q)| <= 10)
  {
    StartInv(maxConcurrent, queueTimeout);
    PermitsConserved(Start(maxConcurrent, queueTimeout), steps);
  }

  /** Without a configured queue timeout no call is ever turned away from the queue; with one, every queued call can be. */
  lemma {:induction false} QueueTimeoutsAsConfigured(p: Pool, steps: seq<Step>, id: CallId)
    requires Run(p, steps).Some?
    ensures !p.queueTimeout ==> forall i :: 0 <= i < |steps| ==> !steps[i].QueueTimeout?
    ensures p.queueTimeout && At(Run(p, steps).value, id, Queued) ==> Enabled(Run(p, steps).value, QueueTimeout(id))
    decreases |steps|
  {
    if steps != [] {
      assert Apply(p, steps[0]).queueTimeout == p.queueTimeout;
      QueueTimeoutsAsConfigured(Apply(p, steps[0]), steps[1..], id);
    }
  }

  // ---- every permit goes back exactly once ----

  /** How many permits call `id` has taken over a run, and how many steps have put one back for it. */
  function Taken(p: Pool, steps: seq<Step>, id: CallId): nat
    requires Run(p, steps).Some?
    decreases |steps|
  {
    if steps == [] then 0
    else (if steps[0] == Acquire(id) then 1 else 0) + Taken(Apply(p, steps[0]), steps[1..], id)
  }

  function Returned(p: Pool, steps: seq<Step>, id: CallId): nat
    requires Run(p, steps).Some?
    decreases |steps|
  {
    if steps == [] then 0
    else
      var q := Apply(p, steps[0]);
      (if q.available > p.available && steps[0].id == id then 1 else 0) + Returned(q, steps[1..], id)
  }

  predicate At(p: Pool, id: CallId, s: Stage) { id < |p.calls| && p.calls[id].stage == s }

  predicate IsGone(p: Pool, id: CallId) { id < |p.calls| && p.calls[id].stage.Gone? }

  predicate Holds(p: Pool, id: CallId) { id < |p.calls| && !p.calls[id].permit.NoPermit? }

  function Owed(p: Pool, id: CallId): int { if Holds(p, id) then 1 else 0 }

  lemma OthersUntouched(p: Pool, s: Step, id: CallId)
    requires Enabled(p, s) && (s.Arrive? || s.id != id)
    ensures id < |p.calls| ==> id < |Apply(p, s).calls| && Apply(p, s).calls[id] == p.calls[id]
    ensures Holds(Apply(p, s), id) == Holds(p, id)
    ensures s.Arrive? ==> Apply(p, s).available == p.available
  {
  }

  /** From `p` to `q` call `id` has at most given its permit up, it is what became available, and `id` is not queued. */
  predicate AtMostGives(p: Pool, q: Pool, id: CallId) {
    && |q.calls| == |p.calls| && q.available == p.available + Owed(p, id) - Owed(q, id)
    && Owed(q, id) <= Owed(p, id) && (At(q, id, Queued) ==> At(p, id, Queued))
  }

  lemma PutGives(p: Pool, id: CallId, c: Call)
    requires id < |p.calls| && (c.stage.Queued? ==> p.calls[id].stage.Queued?)
    requires c.permit.NoPermit? <==> p.calls[id].permit.NoPermit?
    ensures AtMostGives(p, Put(p, id, c), id)
  {
  }

  lemma DismissedGives(p: Pool, id: CallId)
    requires id < |p.calls| && CallInv(p.calls[id]) && InHandler(p.calls[id].stage)
    ensures AtMostGives(p, Dismissed(p, id), id)
  {
  }

  lemma OneShotGives(p: Pool, id: CallId, a: ExecRuns.JoinAction)
    requires Enabled(p, OneShot(id, a)) && CallInv(p.calls[id])
    ensures AtMostGives(p, OneShotStep(p, id, a), id)
  {
  }

  lemma StreamGives(p: Pool, id: CallId, a: ExecRuns.Action)
    requires Enabled(p, Stream(id, a)) && CallInv(p.calls[id])
    ensures AtMostGives(p, StreamStep(p, id, a), id)
  {
  }

  /** Steps that only move a call on, or change its container. */
  predicate MovesOn(s: Step) {
    s.CreateDone? || s.AttachDone? || s.KillDone? || s.ProcessStarts? || s.StartRefused? || s.ProcessEnds?
  }

  lemma MovingGives(p: Pool, s: Step)
    requires Enabled(p, s) && MovesOn(s) && CallInv(p.calls[s.id])
    ensures AtMostGives(p, Apply(p, s), s.id)
  {
  }

  /** The call a step is about either acquires a permit, or at most gives up the one it has. */
  lemma OwnStep(p: Pool, s: Step)
    requires Inv(p) && Enabled(p, s) && !s.Arrive? && !s.Acquire?
    ensures AtMostGives(p, Apply(p, s), s.id)
  {
    var c := p.calls[s.id];
    assert CallInv(c);
    if Dismisses(s) {
      DismissalKeeps(p, s);
      DismissedGives(p, s.id);
    } else if s.OneShot? {
      OneShotGives(p, s.id, s.join);
    } else if s.Stream? {
      StreamGives(p, s.id, s.action);
    } else if s.StartDone? {
      PutGives(p, s.id, if c.streaming then c.(stage := Streaming(ExecRuns.FRESH), permit := InStream)
                        else c.(stage := Collecting(ExecRuns.JOIN_START)));
    } else {
      MovingGives(p, s);
    }
  }

  lemma OwnAcquire(p: Pool, s: Step)
    requires Inv(p) && Enabled(p, s) && s.Acquire?
    ensures At(p, s.id, Queued) && Owed(p, s.id) == 0 && Owed(Apply(p, s), s.id) == 1
    ensures Apply(p, s).available == p.available - 1 && !At(Apply(p, s), s.id, Queued)
    ensures |Apply(p, s).calls| == |p.calls|
  {
    assert CallInv(p.calls[s.id]);
  }

  /** A call takes at most one permit, and however it ends the permit it took has come back exactly once. */
  lemma {:induction false} PermitReturnedOnce(p: Pool, steps: seq<Step>, id: CallId)
    requires Inv(p) && Run(p, steps).Some?
    ensures Taken(p, steps, id) + Owed(p, id) == Returned(p, steps, id) + Owed(Run(p, steps).value, id)
    ensures Taken(p, steps, id) <= if id >= |p.calls| || At(p, id, Queued) then 1 else 0
    ensures IsGone(Run(p, steps).value, id) ==> Returned(p, steps, id) == Taken(p, steps, id) + Owed(p, id)
    decreases |steps|
  {
    if steps == [] {
      if IsGone(p, id) { assert CallInv(p.calls[id]); }
    } else {
      var s := steps[0];
      StepKeepsInv(p, s);
      PermitReturnedOnce(Apply(p, s), steps[1..], id);
      if s.Arrive? || s.id != id {
        OthersUntouched(p, s, id);
      }
      if s.Acquire? { OwnAcquire(p, s); }
      if !s.Arrive? && !s.Acquire? { OwnStep(p, s); }
    }
  }

  /** A stream keeps its permit past Finished and past its own end: only dropping it gives the permit back. */
  lemma StreamHoldsUntilDropped(p: Pool, steps: seq<Step>, id: CallId, s: Step)
    requires Inv(p) && Run(p, steps).Some? && Enabled(Run(p, steps).value, s)
    requires id < |Run(p, steps).value.calls| && Run(p, steps).value.calls[id].stage.Streaming?
    ensures Run(p, steps).value.calls[id].permit == InStream
    ensures Holds(Apply(Run(p, steps).value, s), id) <==> s != Stream(id, ExecRuns.DropStream)
  {
    PermitsConserved(p, steps);
    var q := Run(p, steps).value;
    assert CallInv(q.calls[id]);
    if s.Arrive? || s.id != id {
      OthersUntouched(q, s, id);
    } else {
      StreamingStays(q, s);
    }
  }

  lemma StreamingStays(p: Pool, s: Step)
    requires Enabled(p, s) && !s.Arrive? && p.calls[s.id].stage.Streaming? && CallInv(p.calls[s.id])
    ensures Holds(Apply(p, s), s.id) <==> s != Stream(s.id, ExecRuns.DropStream)
  {
    assert s.Stream? || s.ProcessStarts? || s.StartRefused? || s.ProcessEnds?;
  }
}

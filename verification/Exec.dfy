/** What an exec answers: the attach and wait sources, the one-shot call and the streaming call. */
module Exec {
  import opened Basics

  /** An item of the attach stream; after the last item the stream ends. */
  datatype LogItem = StdOut(message: Bytes) | StdErr(message: Bytes) | OtherOutput | LogError

  /** The first answer of the wait stream. Codes are 64-bit. */
  datatype WaitItem = Exited(code: int) | WaitError(code: int) | OtherError | WaitEnded

  /** `i32::try_from(code).unwrap_or(-1)`. */
  function NarrowCode(code: int): int {
    if -0x8000_0000 <= code <= 0x7fff_ffff then code else -1
  }

  function DeliveredCode(wait: WaitItem): Option<int> {
    match wait
    case Exited(code) => Some(NarrowCode(code))
    case WaitError(code) => Some(NarrowCode(code))
    case _ => None
  }

  function ExitCode(wait: WaitItem): int {
    match DeliveredCode(wait)
    case Some(code) => code
    case None => -1
  }

  /** The items read before the attach stream fails or ends. */
  function Readable(attach: seq<LogItem>): (items: seq<LogItem>)
    ensures items <= attach
    ensures |items| < |attach| ==> attach[|items|].LogError?
    ensures forall i :: 0 <= i < |items| ==> !items[i].LogError?
  {
    if attach == [] || attach[0].LogError? then [] else [attach[0]] + Readable(attach[1..])
  }

  function StdoutBytes(items: seq<LogItem>): Bytes {
    if |items| == 0 then []
    else
      var last := items[|items| - 1];
      StdoutBytes(items[..|items| - 1]) + if last.StdOut? then last.message else []
  }

  function StderrBytes(items: seq<LogItem>): Bytes {
    if |items| == 0 then []
    else
      var last := items[|items| - 1];
      StderrBytes(items[..|items| - 1]) + if last.StdErr? then last.message else []
  }

  datatype Answer = Answer(exitCode: int, stdout: Bytes, stderr: Bytes, timedOut: bool)

  /** The answer when both sources reached their end. */
  function FullAnswer(attach: seq<LogItem>, wait: WaitItem): Answer {
    Answer(ExitCode(wait), StdoutBytes(Readable(attach)), StderrBytes(Readable(attach)), false)
  }

  /** The answer when the deadline fell after `n` items. */
  function CutAnswer(attach: seq<LogItem>, n: nat): Answer
    requires n <= |Readable(attach)|
  {
    Answer(-1, StdoutBytes(Readable(attach)[..n]), StderrBytes(Readable(attach)[..n]), true)
  }

  /**
   * The exit code a caller may see when the call was not cut: the one the wait delivered, if it fits 32 bits signed;
   * -1 if it does not, and -1 if the wait failed otherwise or ended without one.
   */
  predicate ReportsCode(wait: WaitItem, exitCode: int) {
    match wait
    case Exited(code) => if -2_147_483_648 <= code <= 2_147_483_647 then exitCode == code else exitCode == -1
    case WaitError(code) => if -2_147_483_648 <= code <= 2_147_483_647 then exitCode == code else exitCode == -1
    case OtherError => exitCode == -1
    case WaitEnded => exitCode == -1
  }

  /** What a full answer is, in the numbers a caller sees. */
  lemma FullAnswerCode(attach: seq<LogItem>, wait: WaitItem)
    ensures !FullAnswer(attach, wait).timedOut
    ensures forall code :: (wait == Exited(code) || wait == WaitError(code)) && -0x8000_0000 <= code < 0x8000_0000 ==>
              FullAnswer(attach, wait).exitCode == code
    ensures forall code :: (wait == Exited(code) || wait == WaitError(code)) && !(-0x8000_0000 <= code < 0x8000_0000) ==>
              FullAnswer(attach, wait).exitCode == -1
    ensures wait.OtherError? || wait.WaitEnded? ==> FullAnswer(attach, wait).exitCode == -1
    ensures ReportsCode(wait, FullAnswer(attach, wait).exitCode)
  {
  }

  // ---- container control ----

  datatype Control = Kill(detached: bool) | Remove(detached: bool)

  /** The control calls issued for one container; their answers are ignored. */
  class Container {
    var controls: seq<Control>

    constructor ()
      ensures controls == []
    {
      controls := [];
    }

    method Issue(call: Control)
      modifies this
      ensures controls == old(controls) + [call]
    {
      controls := controls + [call];
    }

    /** Kill, then force-remove. */
    method KillAndRemove(detached: bool)
      modifies this
      ensures controls == old(controls) + [Kill(detached), Remove(detached)]
    {
      Issue(Kill(detached));
      Issue(Remove(detached));
    }
  }

  const EXPLICIT_CLEANUP := [Kill(false), Remove(false)]
  const DETACHED_CLEANUP := [Kill(true), Remove(true)]

  /** The timer of one call; it can fall at any moment, but only once it is recorded here. */
  class Deadline {
    var fallen: bool

    constructor ()
      ensures !fallen
    {
      fallen := false;
    }

    method Fall()
      modifies this
      ensures fallen
    {
      fallen := true;
    }
  }

  // ---- reading one more item ----

  lemma ReadableStep(attach: seq<LogItem>, n: nat)
    requires n <= |Readable(attach)|
    ensures n == |Readable(attach)| <==> n == |attach| || attach[n].LogError?
    ensures n < |Readable(attach)| ==> Readable(attach)[n] == attach[n]
  {
  }

  lemma OutputStep(items: seq<LogItem>, n: nat)
    requires n < |items|
    ensures StdoutBytes(items[..n + 1]) == StdoutBytes(items[..n]) + if items[n].StdOut? then items[n].message else []
    ensures StderrBytes(items[..n + 1]) == StderrBytes(items[..n]) + if items[n].StdErr? then items[n].message else []
  {
    assert items[..n + 1][..n] == items[..n];
  }

  // ---- the event stream ----

  datatype StreamEvent =
    | Stdout(data: Bytes)
    | Stderr(data: Bytes)
    | Finished(exitCode: int, timedOut: bool, durationMs: nat)

  /** The chunk events of some items; other output yields nothing. */
  function ChunkEvents(items: seq<LogItem>): seq<StreamEvent> {
    if |items| == 0 then []
    else
      ChunkEvents(items[..|items| - 1]) +
      match items[|items| - 1]
      case StdOut(message) => [Stdout(message)]
      case StdErr(message) => [Stderr(message)]
      case _ => []
  }

  lemma ChunkStep(items: seq<LogItem>, n: nat)
    requires n < |items|
    ensures ChunkEvents(items[..n + 1]) == ChunkEvents(items[..n]) +
              match items[n]
              case StdOut(message) => [Stdout(message)]
              case StdErr(message) => [Stderr(message)]
              case _ => []
  {
    assert items[..n + 1][..n] == items[..n];
  }

  /** The drop guard: unless disarmed, dropping it starts a detached kill and removal. */
  class ContainerCleanupGuard {
    const container: Container
    var disarmed: bool

    constructor (container: Container)
      ensures this.container == container && !disarmed
    {
      this.container := container;
      disarmed := false;
    }

    method Disarm()
      modifies this
      ensures disarmed
    {
      disarmed := true;
    }

    method Drop()
      modifies container
      ensures container.controls == old(container.controls) + if disarmed then [] else DETACHED_CLEANUP
    {
      if disarmed {
        return;
      }
      container.KillAndRemove(true);
    }
  }

  /** The events of a drained stream: chunks for the first `n` items, then one Finished. */
  ghost predicate StreamResult(attach: seq<LogItem>, wait: WaitItem, n: nat, events: seq<StreamEvent>) {
    && n <= |Readable(attach)| && |events| > 0
    && var last := events[|events| - 1];
       && last.Finished?
       && events[..|events| - 1] == ChunkEvents(Readable(attach)[..n])
       && if last.timedOut then last.exitCode == -1
          else n == |Readable(attach)| && last.exitCode == ExitCode(wait)
  }

  // ---- comparing the two calls ----

  function EventStdout(events: seq<StreamEvent>): Bytes {
    if |events| == 0 then []
    else
      var last := events[|events| - 1];
      EventStdout(events[..|events| - 1]) + if last.Stdout? then last.data else []
  }

  function EventStderr(events: seq<StreamEvent>): Bytes {
    if |events| == 0 then []
    else
      var last := events[|events| - 1];
      EventStderr(events[..|events| - 1]) + if last.Stderr? then last.data else []
  }

  lemma EventSnoc(events: seq<StreamEvent>, e: StreamEvent)
    ensures EventStdout(events + [e]) == EventStdout(events) + if e.Stdout? then e.data else []
    ensures EventStderr(events + [e]) == EventStderr(events) + if e.Stderr? then e.data else []
  {
    assert (events + [e])[..|events|] == events;
  }

  lemma {:induction false} ChunksCarryOutput(items: seq<LogItem>)
    ensures EventStdout(ChunkEvents(items)) == StdoutBytes(items)
    ensures EventStderr(ChunkEvents(items)) == StderrBytes(items)
    ensures forall i :: 0 <= i < |ChunkEvents(items)| ==> !ChunkEvents(items)[i].Finished?
  {
    if |items| > 0 {
      var before := items[..|items| - 1];
      ChunksCarryOutput(before);
      match items[|items| - 1]
      case StdOut(message) => EventSnoc(ChunkEvents(before), Stdout(message));
      case StdErr(message) => EventSnoc(ChunkEvents(before), Stderr(message));
      case _ => assert ChunkEvents(items) == ChunkEvents(before);
    }
  }

  /** What a client of the stream puts together once Finished has arrived. */
  function ClientAnswer(events: seq<StreamEvent>): Option<Answer> {
    if |events| == 0 || !events[|events| - 1].Finished? then None
    else
      var last := events[|events| - 1];
      Some(Answer(last.exitCode, EventStdout(events), EventStderr(events), last.timedOut))
  }

  /** A drained stream carries exactly the one-shot answer, full or cut after the same items. */
  lemma StreamCarriesAnswer(attach: seq<LogItem>, wait: WaitItem, n: nat, events: seq<StreamEvent>)
    requires StreamResult(attach, wait, n, events)
    ensures ClientAnswer(events) ==
              Some(if events[|events| - 1].timedOut then CutAnswer(attach, n) else FullAnswer(attach, wait))
  {
    var chunks, last := events[..|events| - 1], events[|events| - 1];
    assert events == chunks + [last];
    EventSnoc(chunks, last);
    ChunksCarryOutput(Readable(attach)[..n]);
    assert n == |Readable(attach)| ==> Readable(attach)[..n] == Readable(attach);
    assert EventStdout(events) == StdoutBytes(Readable(attach)[..n]);
    assert EventStderr(events) == StderrBytes(Readable(attach)[..n]);
  }

  // ---- the RPC's event grammar ----

  datatype ExecEvent = Started(containerId: string) | Chunk(event: StreamEvent) | Done(event: StreamEvent)

  /** The handler's stream: Started, then the runtime's events one for one. */
  function RpcEvents(containerId: string, events: seq<StreamEvent>): (r: seq<ExecEvent>)
    ensures |r| == |events| + 1
  {
    if |events| == 0 then [Started(containerId)]
    else
      var last := events[|events| - 1];
      RpcEvents(containerId, events[..|events| - 1]) + [if last.Finished? then Done(last) else Chunk(last)]
  }

  lemma {:induction false} RpcEventAt(containerId: string, events: seq<StreamEvent>, i: nat)
    requires i < |events|
    ensures RpcEvents(containerId, events)[i + 1] == if events[i].Finished? then Done(events[i]) else Chunk(events[i])
    ensures RpcEvents(containerId, events)[0] == Started(containerId)
  {
    var n := |events| - 1;
    if i < n {
      RpcEventAt(containerId, events[..n], i);
    } else if n > 0 {
      RpcEventAt(containerId, events[..n], n - 1);
    }
  }

  /** A fully drained stream is Started, any number of chunks, exactly one Finished, and nothing more. */
  lemma EventGrammar(containerId: string, attach: seq<LogItem>, wait: WaitItem, n: nat, events: seq<StreamEvent>)
    requires StreamResult(attach, wait, n, events)
    ensures var r := RpcEvents(containerId, events);
            && r[0] == Started(containerId)
            && r[|r| - 1].Done?
            && forall i :: 0 < i < |r| - 1 ==> r[i].Chunk?
  {
    var r := RpcEvents(containerId, events);
    ChunksCarryOutput(Readable(attach)[..n]);
    forall i | 0 <= i < |events|
      ensures r[i + 1] == (if events[i].Finished? then Done(events[i]) else Chunk(events[i])) && r[0] == Started(containerId)
    {
      RpcEventAt(containerId, events, i);
    }
    forall i | 0 < i < |r| - 1
      ensures r[i].Chunk?
    {
      assert r[i - 1 + 1] == r[i];
      assert events[i - 1] == events[..|events| - 1][i - 1];
    }
  }
}

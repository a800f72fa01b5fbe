/** Uploading a file: single put or multipart, over any short reads and any failing calls. */
module Multipart {
  import opened Basics
  import opened FileTree
  import opened ShortReads

  type Key = string
  type UploadId = string
  type ETag = string

  datatype CompletedPart = CompletedPart(number: int, etag: Option<ETag>)

  datatype RpcError = RpcFailed

  datatype UploadError = Io(io: IoError) | CreateFailed | MissingUploadId | PartFailed(number: int) | CompleteFailed | PutFailed

  /** A call issued to the store, with its answer where the service looks at it. */
  datatype Call =
    | Create(key: Key, created: Result<Option<UploadId>, RpcError>)
    | Part(key: Key, id: UploadId, number: int, body: Bytes, stored: Result<Option<ETag>, RpcError>)
    | Complete(key: Key, id: UploadId, parts: seq<CompletedPart>, completed: Result<(), RpcError>)
    | Abort(key: Key, id: UploadId, detached: bool)
    | Put(key: Key, body: Bytes, put: Result<(), RpcError>)

  /** The remote store: any call may fail or succeed; `log` is every call issued, in order. */
  class RemoteStore {
    var log: seq<Call>

    constructor ()
      ensures log == []
    {
      log := [];
    }

    method CreateMultipartUpload(key: Key) returns (r: Result<Option<UploadId>, RpcError>)
      modifies this
      ensures log == old(log) + [Create(key, r)]
    {
      r := *;
      log := log + [Create(key, r)];
    }

    method UploadPart(key: Key, id: UploadId, number: int, body: Bytes) returns (r: Result<Option<ETag>, RpcError>)
      modifies this
      ensures log == old(log) + [Part(key, id, number, body, r)]
    {
      r := *;
      log := log + [Part(key, id, number, body, r)];
    }

    method CompleteMultipartUpload(key: Key, id: UploadId, parts: seq<CompletedPart>) returns (r: Result<(), RpcError>)
      modifies this
      ensures log == old(log) + [Complete(key, id, parts, r)]
    {
      r := *;
      log := log + [Complete(key, id, parts, r)];
    }

    /** The answer to an abort is ignored, whether it is awaited or sent from a detached task. */
    method AbortMultipartUpload(key: Key, id: UploadId, detached: bool)
      modifies this
      ensures log == old(log) + [Abort(key, id, detached)]
    {
      log := log + [Abort(key, id, detached)];
    }

    method PutObject(key: Key, body: Bytes) returns (r: Result<(), RpcError>)
      modifies this
      ensures log == old(log) + [Put(key, body, r)]
    {
      r := *;
      log := log + [Put(key, body, r)];
    }
  }

  // ---- the parts of a file ----

  /** The content cut into consecutive pieces of `size` bytes, the last one possibly shorter. */
  function Chunks(content: Bytes, size: nat): seq<Bytes>
    requires size > 0
    decreases |content|
  {
    if |content| == 0 then []
    else if |content| <= size then [content]
    else [content[..size]] + Chunks(content[size..], size)
  }

  lemma {:induction false} FlattenCons(first: Bytes, rest: seq<Bytes>)
    ensures Flatten([first] + rest) == first + Flatten(rest)
    decreases |rest|
  {
    if rest == [] {
      assert [first] + rest == [] + [first];
      FlattenSnoc([], first);
    } else {
      var init, last := rest[..|rest| - 1], rest[|rest| - 1];
      FlattenCons(first, init);
      assert [first] + rest == ([first] + init) + [last];
      FlattenSnoc([first] + init, last);
      assert rest == init + [last];
    }
  }

  lemma {:induction false} ChunksFlatten(content: Bytes, size: nat)
    requires size > 0
    ensures Flatten(Chunks(content, size)) == content
    decreases |content|
  {
    if |content| == 0 {
    } else if |content| <= size {
      FlattenCons(content, []);
    } else {
      ChunksFlatten(content[size..], size);
      FlattenCons(content[..size], Chunks(content[size..], size));
    }
  }

  /** There are ceil(length / part size) parts; all but the last are full and none is empty. */
  lemma {:induction false} ChunkSizes(content: Bytes, size: nat)
    requires size > 0
    ensures |content| <= |Chunks(content, size)| * size < |content| + size
    ensures forall i :: 0 <= i < |Chunks(content, size)| - 1 ==> |Chunks(content, size)[i]| == size
    ensures forall i :: 0 <= i < |Chunks(content, size)| ==> 0 < |Chunks(content, size)[i]| <= size
    decreases |content|
  {
    if |content| > size {
      ChunkSizes(content[size..], size);
      var k := |Chunks(content[size..], size)|;
      assert (k + 1) * size == k * size + size;
    }
  }

  // ---- part numbers ----

  /** A signed 32-bit value, wrapping. */
  function WrapI32(n: int): int { (n + 0x8000_0000) % 0x1_0000_0000 - 0x8000_0000 }

  /** The number carried by the part at index `i`: counted from 1 in a 32-bit counter. */
  function PartNumber(i: nat): int { WrapI32(i + 1) }

  lemma NextPartNumber(i: nat, number: int)
    requires number == PartNumber(i)
    ensures WrapI32(number + 1) == PartNumber(i + 1)
  {
  }

  /** Parts are numbered 1, 2, 3, ... exactly as long as the 32-bit counter does not wrap. */
  lemma PartNumbersCount(k: nat)
    ensures (forall i :: 0 <= i < k ==> PartNumber(i) == i + 1) <==> k <= 0x7fff_ffff
  {
    if k > 0x7fff_ffff {
      assert PartNumber(0x7fff_ffff) == -0x8000_0000;
    }
  }

  /** A counter that has wrapped still gives every part its own number, up to 2^32 parts and no further. */
  lemma PartNumbersDistinct(k: nat)
    ensures (forall i, j :: 0 <= i < j < k ==> PartNumber(i) != PartNumber(j)) <==> k <= 0x1_0000_0000
  {
    if k > 0x1_0000_0000 {
      assert PartNumber(0) == PartNumber(0x1_0000_0000);
    }
  }

  // ---- the calls of a run ----

  /** The calls that store `bodies` as parts, one after the other, with the etags answered. */
  function PartCalls(key: Key, id: UploadId, bodies: seq<Bytes>, etags: seq<Option<ETag>>): (calls: seq<Call>)
    requires |bodies| == |etags|
    ensures |calls| == |bodies|
  {
    if |bodies| == 0 then []
    else
      var n := |bodies| - 1;
      PartCalls(key, id, bodies[..n], etags[..n]) + [Part(key, id, PartNumber(n), bodies[n], Ok(etags[n]))]
  }

  function CompletedParts(etags: seq<Option<ETag>>): (parts: seq<CompletedPart>)
    ensures |parts| == |etags|
  {
    if |etags| == 0 then []
    else
      var n := |etags| - 1;
      CompletedParts(etags[..n]) + [CompletedPart(PartNumber(n), etags[n])]
  }

  lemma {:induction false} PartCallAt(key: Key, id: UploadId, bodies: seq<Bytes>, etags: seq<Option<ETag>>, i: nat)
    requires |bodies| == |etags| && i < |bodies|
    ensures PartCalls(key, id, bodies, etags)[i] == Part(key, id, PartNumber(i), bodies[i], Ok(etags[i]))
    ensures CompletedParts(etags)[i] == CompletedPart(PartNumber(i), etags[i])
  {
    var n := |bodies| - 1;
    if i < n { PartCallAt(key, id, bodies[..n], etags[..n], i); }
  }

  /**
   * The calls of a part loop that stopped early: some first parts stored, then nothing when it was a read that failed,
   * and one refused part otherwise.
   */
  ghost predicate StoppedParts(calls: seq<Call>, key: Key, id: UploadId, bodies: seq<Bytes>, etags: seq<Option<ETag>>,
                               readFailed: bool)
  {
    && |etags| <= |bodies|
    && var done := PartCalls(key, id, bodies[..|etags|], etags);
       if readFailed then calls == done
       else
         |etags| < |bodies|
         && calls == done + [Part(key, id, PartNumber(|etags|), bodies[|etags|], Err(RpcFailed))]
  }

  lemma StoppedBetweenParts(key: Key, id: UploadId, bodies: seq<Bytes>, etags: seq<Option<ETag>>, rest: seq<Bytes>)
    requires |bodies| == |etags|
    ensures StoppedParts(PartCalls(key, id, bodies, etags), key, id, bodies + rest, etags, true)
  {
    assert (bodies + rest)[..|etags|] == bodies;
  }

  lemma StoppedAtRefusal(key: Key, id: UploadId, bodies: seq<Bytes>, etags: seq<Option<ETag>>, body: Bytes, rest: seq<Bytes>)
    requires |bodies| == |etags|
    ensures StoppedParts(PartCalls(key, id, bodies, etags) + [Part(key, id, PartNumber(|etags|), body, Err(RpcFailed))],
                         key, id, bodies + ([body] + rest), etags, false)
  {
    assert (bodies + ([body] + rest))[..|etags|] == bodies;
  }

  lemma PartCallsSnoc(key: Key, id: UploadId, bodies: seq<Bytes>, etags: seq<Option<ETag>>, body: Bytes, etag: Option<ETag>)
    requires |bodies| == |etags|
    ensures PartCalls(key, id, bodies + [body], etags + [etag]) ==
              PartCalls(key, id, bodies, etags) + [Part(key, id, PartNumber(|bodies|), body, Ok(etag))]
    ensures CompletedParts(etags + [etag]) == CompletedParts(etags) + [CompletedPart(PartNumber(|etags|), etag)]
  {
    var n := |bodies|;
    assert (bodies + [body])[..n] == bodies && (etags + [etag])[..n] == etags;
  }

  /** A full buffer, or whatever is left of the file, is the next chunk. */
  lemma NextChunk(chunk: Bytes, rest: Bytes, size: nat)
    requires 0 < |chunk| <= size && (|chunk| < size ==> rest == [])
    ensures Chunks(chunk + rest, size) == [chunk] + Chunks(rest, size)
  {
    var all := chunk + rest;
    assert all[..|chunk|] == chunk && all[|chunk|..] == rest;
    if rest == [] { assert all == chunk; }
  }

  /** Where the part loop stands: what is hashed, stored and still to come. */
  ghost predicate Progress(content: Bytes, size: nat, rest: Bytes, absorbed: Bytes, bodies: seq<Bytes>,
                           etags: seq<Option<ETag>>, number: int, completed: seq<CompletedPart>)
    requires size > 0
  {
    && content == absorbed + rest
    && |bodies| == |etags| && Chunks(content, size) == bodies + Chunks(rest, size)
    && number == PartNumber(|etags|) && completed == CompletedParts(etags)
  }

  lemma ProgressStart(content: Bytes, size: nat)
    requires size > 0
    ensures Progress(content, size, content, [], [], [], 1, [])
  {
    assert [] + content == content;
    assert [] + Chunks(content, size) == Chunks(content, size);
  }

  lemma ProgressStep(content: Bytes, size: nat, rest: Bytes, absorbed: Bytes, bodies: seq<Bytes>,
                     etags: seq<Option<ETag>>, number: int, completed: seq<CompletedPart>,
                     chunk: Bytes, rest': Bytes, etag: Option<ETag>)
    requires size > 0 && Progress(content, size, rest, absorbed, bodies, etags, number, completed)
    requires rest == chunk + rest' && 0 < |chunk| <= size && (|chunk| < size ==> rest' == [])
    ensures Progress(content, size, rest', absorbed + chunk, bodies + [chunk], etags + [etag],
                     WrapI32(number + 1), completed + [CompletedPart(number, etag)])
  {
    NextChunk(chunk, rest', size);
    assert bodies + ([chunk] + Chunks(rest', size)) == bodies + [chunk] + Chunks(rest', size);
    PartCallsSnoc("", "", bodies, etags, chunk, etag);
    NextPartNumber(|etags|, number);
  }

  lemma ProgressDone(key: Key, id: UploadId, content: Bytes, size: nat, rest: Bytes, absorbed: Bytes, bodies: seq<Bytes>,
                     etags: seq<Option<ETag>>, number: int, completed: seq<CompletedPart>, sha: Bytes -> Digest)
    requires size > 0 && Progress(content, size, rest, absorbed, bodies, etags, number, completed)
    requires rest == []
    ensures StreamedAll(PartCalls(key, id, bodies, etags), key, id, content, size, etags, completed, sha(absorbed), sha)
  {
    assert bodies + [] == bodies && absorbed + [] == absorbed;
    assert bodies == Chunks(content, size);
  }

  lemma ProgressStopped(key: Key, id: UploadId, content: Bytes, size: nat, rest: Bytes, absorbed: Bytes,
                        bodies: seq<Bytes>, etags: seq<Option<ETag>>, number: int, completed: seq<CompletedPart>)
    requires size > 0 && Progress(content, size, rest, absorbed, bodies, etags, number, completed)
    ensures forall io :: StreamedSome(PartCalls(key, id, bodies, etags), key, id, content, size, etags, Io(io), true)
  {
    StoppedBetweenParts(key, id, bodies, etags, Chunks(rest, size));
  }

  lemma ProgressRefused(key: Key, id: UploadId, content: Bytes, size: nat, rest: Bytes, absorbed: Bytes,
                        bodies: seq<Bytes>, etags: seq<Option<ETag>>, number: int, completed: seq<CompletedPart>,
                        chunk: Bytes, rest': Bytes, error: RpcError)
    requires size > 0 && Progress(content, size, rest, absorbed, bodies, etags, number, completed)
    requires rest == chunk + rest' && 0 < |chunk| <= size && (|chunk| < size ==> rest' == [])
    ensures StoppedParts(PartCalls(key, id, bodies, etags) + [Part(key, id, number, chunk, Err(error))],
                         key, id, Chunks(content, size), etags, false)
  {
    assert error == RpcFailed;
    NextChunk(chunk, rest', size);
    StoppedAtRefusal(key, id, bodies, etags, chunk, Chunks(rest', size));
  }

  lemma LogStep(log0: seq<Call>, key: Key, id: UploadId, bodies: seq<Bytes>, etags: seq<Option<ETag>>,
                number: int, body: Bytes, etag: Option<ETag>)
    requires |bodies| == |etags| && number == PartNumber(|etags|)
    ensures log0 + PartCalls(key, id, bodies, etags) + [Part(key, id, number, body, Ok(etag))] ==
              log0 + PartCalls(key, id, bodies + [body], etags + [etag])
  {
    PartCallsSnoc(key, id, bodies, etags, body, etag);
  }

  /** The calls of a part loop that ends with a refused part, which its error names. */
  lemma RefusedCalls(log0: seq<Call>, key: Key, id: UploadId, content: Bytes, size: nat, rest: Bytes, absorbed: Bytes,
                     bodies: seq<Bytes>, etags: seq<Option<ETag>>, number: int, completed: seq<CompletedPart>,
                     chunk: Bytes, rest': Bytes, error: RpcError)
    returns (calls: seq<Call>)
    requires size > 0 && Progress(content, size, rest, absorbed, bodies, etags, number, completed)
    requires rest == chunk + rest' && 0 < |chunk| <= size && (|chunk| < size ==> rest' == [])
    ensures log0 + PartCalls(key, id, bodies, etags) + [Part(key, id, number, chunk, Err(error))] == log0 + calls
    ensures StreamedSome(calls, key, id, content, size, etags, PartFailed(number), false)
  {
    calls := PartCalls(key, id, bodies, etags) + [Part(key, id, number, chunk, Err(error))];
    ProgressRefused(key, id, content, size, rest, absorbed, bodies, etags, number, completed, chunk, rest', error);
  }

  /** The error names the last of these calls, a part the store refused. */
  predicate BlamesLast(calls: seq<Call>, error: UploadError) {
    |calls| > 0 && BlamesPart(calls[|calls| - 1], error)
  }

  /** The inner loop of `stream_parts`: reads until the buffer is full or the file ends. */
  method FillBuffer(file: OpenFile, buf: array<byte>) returns (r: Result<nat, IoError>)
    requires file.Valid()
    modifies file`pos, buf, file.faults
    ensures file.Valid()
    ensures r.Ok? <==> file.faults.count == old(file.faults.count)
    ensures file.faults.count >= old(file.faults.count)
    ensures r.Ok? ==>
              && r.value <= buf.Length && old(file.Rest()) == buf[..r.value] + file.Rest()
              && (r.value < buf.Length ==> file.Rest() == [])
  {
    var filled := 0;
    ghost var start := file.pos;
    while filled < buf.Length
      invariant file.Valid() && filled <= buf.Length && file.pos == start + filled
      invariant buf[..filled] == file.content[start..file.pos]
      invariant file.faults.count == old(file.faults.count)
      decreases |file.content| - file.pos
    {
      ghost var before, held := filled, buf[..filled];
      var n := file.Read(buf, filled);
      if n.Err? {
        return Err(n.error);
      }
      if n.value == 0 {
        break;
      }
      filled := filled + n.value;
      assert buf[..filled] == held + buf[before..filled];
    }
    return Ok(filled);
  }

  /** The error names this part call, which the store refused. */
  predicate BlamesPart(call: Call, error: UploadError) {
    call.Part? && call.stored.Err? && error == PartFailed(call.number)
  }

  /** Every part of the file has been stored. */
  ghost predicate StreamedAll(calls: seq<Call>, key: Key, id: UploadId, content: Bytes, size: nat, etags: seq<Option<ETag>>,
                              completed: seq<CompletedPart>, digest: Digest, sha: Bytes -> Digest)
    requires size > 0
  {
    && |etags| == |Chunks(content, size)|
    && calls == PartCalls(key, id, Chunks(content, size), etags)
    && completed == CompletedParts(etags) && digest == sha(content)
  }

  /** The part loop stopped early, and the error says why. */
  ghost predicate StreamedSome(calls: seq<Call>, key: Key, id: UploadId, content: Bytes, size: nat,
                               etags: seq<Option<ETag>>, error: UploadError, readFailed: bool)
    requires size > 0
  {
    && StoppedParts(calls, key, id, Chunks(content, size), etags, readFailed)
    && if readFailed then error.Io? else BlamesLast(calls, error)
  }

  /** `stream_parts`: fills a buffer over short reads, uploads each filled part, hashes as it goes. */
  method StreamParts(store: RemoteStore, faults: Faults, key: Key, content: Bytes, id: UploadId, partSize: nat,
                     sha: Bytes -> Digest)
    returns (r: Result<(seq<CompletedPart>, Digest), UploadError>, ghost etags: seq<Option<ETag>>, ghost calls: seq<Call>)
    requires partSize > 0
    modifies store, faults
    ensures store.log == old(store.log) + calls && faults.count >= old(faults.count)
    ensures if r.Ok? then faults.count == old(faults.count)
                          && StreamedAll(calls, key, id, content, partSize, etags, r.value.0, r.value.1, sha)
            else StreamedSome(calls, key, id, content, partSize, etags, r.error, faults.count > old(faults.count))
  {
    ghost var log0, bodies := store.log, [];
    etags, calls := [], [];
    var completedParts: seq<CompletedPart> := [];
    var partNumber := 1;
    ProgressStart(content, partSize);
    ProgressStopped(key, id, content, partSize, content, [], bodies, etags, partNumber, completedParts);
    var attempt := Open(content, faults);
    if attempt.Err? {
      return Err(Io(attempt.error)), etags, calls;
    }
    var file := attempt.value;
    var hasher := Hasher([]);
    var buf := new byte[partSize](_ => 0);

    while true
      invariant file.Valid() && fresh(file) && fresh(buf)
      invariant buf.Length == partSize && file.faults == faults && faults.count == old(faults.count)
      invariant Progress(content, partSize, file.Rest(), hasher.absorbed, bodies, etags, partNumber, completedParts)
      invariant store.log == log0 + PartCalls(key, id, bodies, etags)
      decreases |file.Rest()|
    {
      ghost var rest, absorbed := file.Rest(), hasher.absorbed;
      calls := PartCalls(key, id, bodies, etags);
      ProgressStopped(key, id, content, partSize, rest, absorbed, bodies, etags, partNumber, completedParts);
      var filling := FillBuffer(file, buf);
      if filling.Err? {
        return Err(Io(filling.error)), etags, calls;
      }
      var filled := filling.value;
      if filled == 0 {
        break;
      }
      var chunk := buf[..filled];
      hasher := hasher.Update(chunk);

      var part := store.UploadPart(key, id, partNumber, chunk);
      if part.Err? {
        calls := RefusedCalls(log0, key, id, content, partSize, rest, absorbed, bodies, etags, partNumber, completedParts,
                              chunk, file.Rest(), part.error);
        return Err(PartFailed(partNumber)), etags, calls;
      }
      ProgressStep(content, partSize, rest, absorbed, bodies, etags, partNumber, completedParts,
                   chunk, file.Rest(), part.value);
      LogStep(log0, key, id, bodies, etags, partNumber, chunk, part.value);
      completedParts := completedParts + [CompletedPart(partNumber, part.value)];
      bodies, etags := bodies + [chunk], etags + [part.value];
      partNumber := WrapI32(partNumber + 1);
      if filled < buf.Length {
        break;
      }
    }
    ProgressDone(key, id, content, partSize, file.Rest(), hasher.absorbed, bodies, etags, partNumber, completedParts, sha);
    calls := PartCalls(key, id, bodies, etags);
    return Ok((completedParts, hasher.Finalize(sha))), etags, calls;
  }

  // ---- whole uploads ----

  datatype UploadOutcome = UploadOutcome(key: Key, sizeBytes: nat, sha256: Digest)

  /** The id a successful create answered with, if it did. */
  predicate GotId(call: Call) { call.Create? && call.created.Ok? && call.created.value.Some? }

  /** Every call a multipart upload can issue, with the result it then returns; `parts` are its part calls. */
  ghost predicate MultipartRun(run: seq<Call>, key: Key, content: Bytes, partSize: nat, parts: seq<Call>,
                               etags: seq<Option<ETag>>, ok: bool, readFailed: bool)
    requires partSize > 0
  {
    && |run| > 0 && run[0].Create? && run[0].key == key
    && if !GotId(run[0]) then !ok && |run| == 1 && !readFailed
       else
         || (!readFailed && ClosedRun(run, key, content, partSize, parts, etags, ok))
         || (!ok && AbortedRun(run, key, content, partSize, parts, etags, readFailed))
  }

  ghost predicate ClosedRun(run: seq<Call>, key: Key, content: Bytes, partSize: nat, parts: seq<Call>,
                            etags: seq<Option<ETag>>, ok: bool)
    requires partSize > 0 && |run| > 0 && GotId(run[0])
  {
    var id := run[0].created.value.value;
    && |etags| == |Chunks(content, partSize)|
    && parts == PartCalls(key, id, Chunks(content, partSize), etags)
    && run == [run[0]] + parts + Ending(key, id, etags, ok)
  }

  ghost predicate AbortedRun(run: seq<Call>, key: Key, content: Bytes, partSize: nat, parts: seq<Call>,
                             etags: seq<Option<ETag>>, readFailed: bool)
    requires partSize > 0 && |run| > 0 && GotId(run[0])
  {
    var id := run[0].created.value.value;
    && StoppedParts(parts, key, id, Chunks(content, partSize), etags, readFailed)
    && run == [run[0]] + parts + [Abort(key, id, false)]
  }

  /** Completing: done on success, otherwise aborted from a detached task. */
  function Ending(key: Key, id: UploadId, etags: seq<Option<ETag>>, ok: bool): seq<Call> {
    if ok then [Complete(key, id, CompletedParts(etags), Ok(()))]
    else [Complete(key, id, CompletedParts(etags), Err(RpcFailed)), Abort(key, id, true)]
  }

  /** Completes the upload; when that fails, a detached task aborts it. */
  method CompleteOrAbort(store: RemoteStore, key: Key, id: UploadId, completedParts: seq<CompletedPart>,
                         ghost etags: seq<Option<ETag>>)
    returns (r: Result<(), UploadError>)
    requires completedParts == CompletedParts(etags)
    modifies store
    ensures store.log == old(store.log) + Ending(key, id, etags, r.Ok?)
    ensures r.Err? ==> r.error == CompleteFailed
  {
    var completed := store.CompleteMultipartUpload(key, id, completedParts);
    if completed.Err? {
      assert completed.error == RpcFailed;
      store.AbortMultipartUpload(key, id, true);
      return Err(CompleteFailed);
    }
    assert completed.value == ();
    return Ok(());
  }

  /** The error is about what went wrong in the run: a failed file operation, or the call that was refused. */
  ghost predicate Blames(error: UploadError, run: seq<Call>, readFailed: bool) {
    match error
    case Io(_) => readFailed
    case CreateFailed => exists i :: 0 <= i < |run| && run[i].Create? && run[i].created.Err?
    case MissingUploadId => exists i :: 0 <= i < |run| && run[i].Create? && run[i].created == Ok(None)
    case PartFailed(_) => exists i :: 0 <= i < |run| && BlamesPart(run[i], error)
    case CompleteFailed => exists i :: 0 <= i < |run| && run[i].Complete? && run[i].completed.Err?
    case PutFailed => exists i :: 0 <= i < |run| && run[i].Put? && run[i].put.Err?
  }

  /** `upload_file_multipart`. */
  method UploadFileMultipart(store: RemoteStore, faults: Faults, key: Key, content: Bytes, sizeBytes: nat, partSize: nat,
                             sha: Bytes -> Digest)
    returns (r: Result<UploadOutcome, UploadError>, ghost run: seq<Call>, ghost parts: seq<Call>, ghost etags: seq<Option<ETag>>)
    requires partSize > 0
    modifies store, faults
    ensures store.log == old(store.log) + run && faults.count >= old(faults.count)
    ensures MultipartRun(run, key, content, partSize, parts, etags, r.Ok?, faults.count > old(faults.count))
    ensures r.Ok? ==> GotId(run[0]) && r.value == UploadOutcome(key, sizeBytes, sha(content))
    ensures r.Err? ==> Blames(r.error, run, faults.count > old(faults.count))
  {
    parts, etags := [], [];
    var created := store.CreateMultipartUpload(key);
    run := [Create(key, created)];
    if created.Err? {
      return Err(CreateFailed), run, parts, etags;
    }
    if created.value.None? {
      return Err(MissingUploadId), run, parts, etags;
    }
    var id := created.value.value;
    ghost var create := run[0];
    var uploaded;
    uploaded, etags, parts := StreamParts(store, faults, key, content, id, partSize, sha);
    if uploaded.Err? {
      store.AbortMultipartUpload(key, id, false);
      run := AbortedIsRun(old(store.log), create, key, id, content, partSize, parts, etags,
                          faults.count > old(faults.count), uploaded.error);
      return Err(uploaded.error), run, parts, etags;
    }
    var (completedParts, digest) := uploaded.value;
    var closed := CompleteOrAbort(store, key, id, completedParts, etags);
    run := ClosedIsRun(old(store.log), create, key, id, content, partSize, parts, etags, closed.Ok?);
    if closed.Err? {
      return Err(closed.error), run, parts, etags;
    }
    return Ok(UploadOutcome(key, sizeBytes, digest)), run, parts, etags;
  }

  lemma AbortedIsRun(log0: seq<Call>, create: Call, key: Key, id: UploadId, content: Bytes, partSize: nat,
                     parts: seq<Call>, etags: seq<Option<ETag>>, readFailed: bool, error: UploadError)
    returns (run: seq<Call>)
    requires partSize > 0 && create == Create(key, Ok(Some(id)))
    requires if readFailed then error.Io? else BlamesLast(parts, error)
    requires StoppedParts(parts, key, id, Chunks(content, partSize), etags, readFailed)
    ensures MultipartRun(run, key, content, partSize, parts, etags, false, readFailed)
    ensures log0 + [create] + parts + [Abort(key, id, false)] == log0 + run
    ensures Blames(error, run, readFailed)
  {
    run := [create] + parts + [Abort(key, id, false)];
    LogJoin(log0, [create], parts, [Abort(key, id, false)]);
    assert run[0] == create;
    assert AbortedRun(run, key, content, partSize, parts, etags, readFailed);
    assert !readFailed ==> run[|parts|] == parts[|parts| - 1];
  }

  lemma ClosedIsRun(log0: seq<Call>, create: Call, key: Key, id: UploadId, content: Bytes, partSize: nat,
                    parts: seq<Call>, etags: seq<Option<ETag>>, ok: bool)
    returns (run: seq<Call>)
    requires partSize > 0 && create == Create(key, Ok(Some(id)))
    requires |etags| == |Chunks(content, partSize)| && parts == PartCalls(key, id, Chunks(content, partSize), etags)
    ensures MultipartRun(run, key, content, partSize, parts, etags, ok, false) && GotId(run[0])
    ensures log0 + [create] + parts + Ending(key, id, etags, ok) == log0 + run
    ensures !ok ==> Blames(CompleteFailed, run, false)
  {
    run := [create] + parts + Ending(key, id, etags, ok);
    LogJoin(log0, [create], parts, Ending(key, id, etags, ok));
    assert run[0] == create;
    assert ClosedRun(run, key, content, partSize, parts, etags, ok);
    assert !ok ==> run[1 + |parts|] == Complete(key, id, CompletedParts(etags), Err(RpcFailed));
  }

  lemma LogJoin(a: seq<Call>, b: seq<Call>, c: seq<Call>, d: seq<Call>)
    ensures a + b + c + d == a + (b + c + d)
  {
  }

  // ---- what every run keeps ----

  predicate ForUpload(call: Call, key: Key, id: UploadId) {
    match call
    case Part(k, i, _, _, _) => k == key && i == id
    case Complete(k, i, _, _) => k == key && i == id
    case Abort(k, i, _) => k == key && i == id
    case _ => false
  }

  function Aborts(run: seq<Call>): nat {
    if |run| == 0 then 0 else Aborts(run[..|run| - 1]) + if run[|run| - 1].Abort? then 1 else 0
  }

  lemma {:induction false} AbortsConcat(a: seq<Call>, b: seq<Call>)
    ensures Aborts(a + b) == Aborts(a) + Aborts(b)
    decreases |b|
  {
    if |b| == 0 {
      assert a + b == a;
    } else {
      assert (a + b)[..|a + b| - 1] == a + b[..|b| - 1];
      AbortsConcat(a, b[..|b| - 1]);
    }
  }

  lemma {:induction false} NoAborts(run: seq<Call>)
    requires forall i :: 0 <= i < |run| ==> !run[i].Abort?
    ensures Aborts(run) == 0
  {
    if |run| > 0 { NoAborts(run[..|run| - 1]); }
  }

  /** All calls are parts, except a create at the front and the closing calls at the back. */
  ghost predicate PartsOnly(calls: seq<Call>, key: Key, id: UploadId) {
    forall i :: 0 <= i < |calls| ==> calls[i].Part? && ForUpload(calls[i], key, id)
  }

  lemma PartCallsOnly(key: Key, id: UploadId, bodies: seq<Bytes>, etags: seq<Option<ETag>>)
    requires |bodies| == |etags|
    ensures PartsOnly(PartCalls(key, id, bodies, etags), key, id)
  {
    forall i | 0 <= i < |bodies|
      ensures PartCalls(key, id, bodies, etags)[i] == Part(key, id, PartNumber(i), bodies[i], Ok(etags[i]))
    {
      PartCallAt(key, id, bodies, etags, i);
    }
  }

  /** The shape of a run once an upload id is known: create, parts, closing calls. */
  lemma RunShape(run: seq<Call>, key: Key, content: Bytes, partSize: nat, parts: seq<Call>, etags: seq<Option<ETag>>,
                 ok: bool, readFailed: bool)
    returns (ending: seq<Call>)
    requires partSize > 0 && MultipartRun(run, key, content, partSize, parts, etags, ok, readFailed) && GotId(run[0])
    ensures Shaped(run, key, run[0].created.value.value, etags, ok, parts, ending)
  {
    var id := run[0].created.value.value;
    var bodies := Chunks(content, partSize);
    if ClosedRun(run, key, content, partSize, parts, etags, ok) {
      ending := Ending(key, id, etags, ok);
      PartCallsOnly(key, id, bodies, etags);
    } else {
      ending := [Abort(key, id, false)];
      PartCallsOnly(key, id, bodies[..|etags|], etags);
    }
  }

  /** No part is sent once the upload has been completed or aborted. */
  ghost predicate NothingAfterClosing(run: seq<Call>) {
    forall i, j :: 0 <= i < j < |run| && (run[i].Complete? || run[i].Abort?) ==> !run[j].Part? && !run[j].Create?
  }

  /**
   * Safety of every multipart run. With an id in hand: success means one successful complete and no abort at all;
   * failure means exactly one abort, no successful complete. All calls name this upload, and nothing follows the
   * closing calls. Without an id nothing but the create was issued.
   */
  lemma MultipartSafety(run: seq<Call>, key: Key, content: Bytes, partSize: nat, parts: seq<Call>,
                        etags: seq<Option<ETag>>, ok: bool, readFailed: bool)
    requires partSize > 0 && MultipartRun(run, key, content, partSize, parts, etags, ok, readFailed)
    ensures GotId(run[0]) ==> Aborts(run) == if ok then 0 else 1
    ensures GotId(run[0]) ==>
              (ok <==> exists i :: 0 <= i < |run| && run[i].Complete? && run[i].completed.Ok?)
    ensures GotId(run[0]) ==> forall i :: 1 <= i < |run| ==> ForUpload(run[i], key, run[0].created.value.value)
    ensures NothingAfterClosing(run)
    ensures !GotId(run[0]) ==> !ok && |run| == 1
  {
    if GotId(run[0]) {
      var ending := RunShape(run, key, content, partSize, parts, etags, ok, readFailed);
      var id := run[0].created.value.value;
      ShapedCounts(run, key, id, etags, ok, parts, ending);
      ShapedOrder(run, key, id, etags, ok, parts, ending);
      ShapedCompletion(run, key, id, etags, ok, parts, ending);
    }
  }

  /** Create, then parts, then the closing calls. */
  ghost predicate Shaped(run: seq<Call>, key: Key, id: UploadId, etags: seq<Option<ETag>>, ok: bool,
                         parts: seq<Call>, ending: seq<Call>) {
    && |run| == 1 + |parts| + |ending| && run[0].Create?
    && (forall i :: 1 <= i <= |parts| ==> run[i].Part? && ForUpload(run[i], key, id))
    && run[1 + |parts|..] == ending
    && (ending == Ending(key, id, etags, ok) || (!ok && ending == [Abort(key, id, false)]))
  }

  lemma ShapedCounts(run: seq<Call>, key: Key, id: UploadId, etags: seq<Option<ETag>>, ok: bool,
                     parts: seq<Call>, ending: seq<Call>)
    requires Shaped(run, key, id, etags, ok, parts, ending)
    ensures Aborts(run) == if ok then 0 else 1
  {
    var n := 1 + |parts|;
    assert run == run[..n] + ending;
    NoAborts(run[..n]);
    AbortsConcat(run[..n], ending);
    EndingAborts(key, id, etags, ok);
    assert [Abort(key, id, false)][..0] == [];
    assert Aborts([Abort(key, id, false)]) == 1;
  }

  lemma ShapedOrder(run: seq<Call>, key: Key, id: UploadId, etags: seq<Option<ETag>>, ok: bool,
                    parts: seq<Call>, ending: seq<Call>)
    requires Shaped(run, key, id, etags, ok, parts, ending)
    ensures forall i :: 1 <= i < |run| ==> ForUpload(run[i], key, id)
    ensures NothingAfterClosing(run)
  {
    forall i | 1 + |parts| <= i < |run|
      ensures ForUpload(run[i], key, id) && (run[i].Complete? || run[i].Abort?)
    {
      assert run[i] == ending[i - 1 - |parts|];
    }
  }

  lemma ShapedCompletion(run: seq<Call>, key: Key, id: UploadId, etags: seq<Option<ETag>>, ok: bool,
                         parts: seq<Call>, ending: seq<Call>)
    requires Shaped(run, key, id, etags, ok, parts, ending)
    ensures ok <==> exists i :: 0 <= i < |run| && run[i].Complete? && run[i].completed.Ok?
  {
    var n := 1 + |parts|;
    forall i | n <= i < |run|
      ensures run[i] == ending[i - n]
    {
    }
    if ok {
      assert run[n].Complete? && run[n].completed.Ok?;
    }
  }

  lemma EndingAborts(key: Key, id: UploadId, etags: seq<Option<ETag>>, ok: bool)
    ensures Aborts(Ending(key, id, etags, ok)) == if ok then 0 else 1
  {
    var e := Ending(key, id, etags, ok);
    if ok {
      NoAborts(e);
    } else {
      assert e[..1] == [e[0]];
      NoAborts([e[0]]);
    }
  }

  // ---- what the store ends up holding ----

  /** The body last stored under a part number in a run, as the store resolves it on completion. */
  function StoredBody(calls: seq<Call>, number: int): Bytes {
    if |calls| == 0 then []
    else
      var last := calls[|calls| - 1];
      if StoresUnder(last, number) then last.body
      else StoredBody(calls[..|calls| - 1], number)
  }

  /** The object assembled on completion: the stored bodies of the listed parts, in list order. */
  function Assembled(calls: seq<Call>, parts: seq<CompletedPart>): Bytes {
    if |parts| == 0 then []
    else Assembled(calls, parts[..|parts| - 1]) + StoredBody(calls, parts[|parts| - 1].number)
  }

  const NUMBERS: nat := 0x1_0000_0000

  /** Parts a whole round of the counter apart. */
  predicate Alike(i: nat, j: nat) { i % NUMBERS == j % NUMBERS }

  /** The number of the part in slot `r` of its round. */
  function SlotNumber(r: nat): int { if r < 0x7fff_ffff then r + 1 else r + 1 - NUMBERS }

  lemma NumberOfSlot(i: nat, q: nat, r: nat)
    requires i == q * NUMBERS + r && r < NUMBERS
    ensures PartNumber(i) == SlotNumber(r)
  {
    if r < 0x7fff_ffff {
      assert i + 1 + 0x8000_0000 == q * NUMBERS + (r + 1 + 0x8000_0000);
    } else {
      assert i + 1 + 0x8000_0000 == (q + 1) * NUMBERS + (r + 1 - 0x8000_0000);
    }
  }

  lemma SameNumber(i: nat, j: nat)
    ensures PartNumber(i) == PartNumber(j) <==> Alike(i, j)
  {
    NumberOfSlot(i, i / NUMBERS, i % NUMBERS);
    NumberOfSlot(j, j / NUMBERS, j % NUMBERS);
    DistinctSlots(i % NUMBERS, j % NUMBERS);
  }

  lemma DistinctSlots(r: nat, t: nat)
    requires r < NUMBERS && t < NUMBERS
    ensures SlotNumber(r) == SlotNumber(t) <==> r == t
  {
  }

  /** The last of the first `n` parts that carries the number of part `i`. */
  function LastAlike(i: nat, n: nat): (j: nat)
    requires i < n
    ensures i <= j < n && Alike(i, j)
  {
    if Alike(i, n - 1) then n - 1 else LastAlike(i, n - 1)
  }

  predicate StoresUnder(call: Call, number: int) { call.Part? && call.number == number && call.stored.Ok? }

  lemma {:induction false} LastStored(calls: seq<Call>, number: int, j: nat)
    requires j < |calls| && StoresUnder(calls[j], number)
    requires forall k :: j < k < |calls| ==> !StoresUnder(calls[k], number)
    ensures StoredBody(calls, number) == calls[j].body
  {
    if j < |calls| - 1 { LastStored(calls[..|calls| - 1], number, j); }
  }

  lemma {:induction false} AfterLastAlike(i: nat, k: nat, n: nat)
    requires i < n && LastAlike(i, n) < k < n
    ensures !Alike(i, k)
  {
    if k < n - 1 { AfterLastAlike(i, k, n - 1); }
  }

  lemma StoredUnder(key: Key, id: UploadId, bodies: seq<Bytes>, etags: seq<Option<ETag>>, i: nat, k: nat)
    requires |bodies| == |etags| && k < |bodies|
    ensures StoresUnder(PartCalls(key, id, bodies, etags)[k], PartNumber(i)) <==> Alike(i, k)
    ensures StoresUnder(PartCalls(key, id, bodies, etags)[k], PartNumber(i)) ==>
              PartCalls(key, id, bodies, etags)[k].body == bodies[k]
  {
    PartCallAt(key, id, bodies, etags, k);
    SameNumber(i, k);
  }

  /** The store resolves a number to the last part stored under it. */
  lemma StoredBodyAt(key: Key, id: UploadId, bodies: seq<Bytes>, etags: seq<Option<ETag>>, i: nat)
    requires |bodies| == |etags| && i < |bodies|
    ensures StoredBody(PartCalls(key, id, bodies, etags), PartNumber(i)) == bodies[LastAlike(i, |bodies|)]
  {
    var calls, j := PartCalls(key, id, bodies, etags), LastAlike(i, |bodies|);
    forall k | j < k < |calls|
      ensures !StoresUnder(calls[k], PartNumber(i))
    {
      AfterLastAlike(i, k, |bodies|);
      StoredUnder(key, id, bodies, etags, i, k);
    }
    StoredUnder(key, id, bodies, etags, i, j);
    LastStored(calls, PartNumber(i), j);
  }

  /** The bodies the first `m` listed parts resolve to. */
  function Resolved(bodies: seq<Bytes>, m: nat): (r: seq<Bytes>)
    requires m <= |bodies|
    ensures |r| == m && forall i :: 0 <= i < m ==> r[i] == bodies[LastAlike(i, |bodies|)]
  {
    if m == 0 then [] else Resolved(bodies, m - 1) + [bodies[LastAlike(m - 1, |bodies|)]]
  }

  lemma AssembledSnoc(calls: seq<Call>, parts: seq<CompletedPart>, part: CompletedPart)
    ensures Assembled(calls, parts + [part]) == Assembled(calls, parts) + StoredBody(calls, part.number)
  {
    assert (parts + [part])[..|parts|] == parts;
  }

  lemma CompletedTake(etags: seq<Option<ETag>>, k: nat)
    requires 0 < k <= |etags|
    ensures CompletedParts(etags[..k]) ==
              CompletedParts(etags[..k - 1]) + [CompletedPart(PartNumber(k - 1), etags[k - 1])]
  {
    assert etags[..k][..k - 1] == etags[..k - 1];
  }

  lemma {:induction false} AssembledPrefix(key: Key, id: UploadId, bodies: seq<Bytes>, etags: seq<Option<ETag>>, k: nat)
    requires |bodies| == |etags| && k <= |bodies|
    ensures Assembled(PartCalls(key, id, bodies, etags), CompletedParts(etags[..k])) == Flatten(Resolved(bodies, k))
  {
    if k > 0 {
      AssembledPrefix(key, id, bodies, etags, k - 1);
      StoredBodyAt(key, id, bodies, etags, k - 1);
      CompletedTake(etags, k);
      FlattenSnoc(Resolved(bodies, k - 1), bodies[LastAlike(k - 1, |bodies|)]);
      AssembledSnoc(PartCalls(key, id, bodies, etags), CompletedParts(etags[..k - 1]),
                    CompletedPart(PartNumber(k - 1), etags[k - 1]));
    }
  }

  lemma EqualTails(a: Bytes, x: Bytes, b: Bytes, y: Bytes)
    requires a + x == b + y && |a| <= |b| && |x| <= |y|
    ensures a == b && x == y
  {
    assert |a + x| == |a| + |x| && |b + y| == |b| + |y|;
    assert a == (a + x)[..|a|] && b == (b + y)[..|b|];
    assert x == (a + x)[|a|..] && y == (b + y)[|b|..];
  }

  lemma {:induction false} ShorterPieces(a: seq<Bytes>, b: seq<Bytes>)
    requires |a| == |b| && forall i :: 0 <= i < |a| ==> |a[i]| <= |b[i]|
    ensures |Flatten(a)| <= |Flatten(b)|
    ensures Flatten(a) == Flatten(b) ==> a == b
  {
    if |a| > 0 {
      var n := |a| - 1;
      ShorterPieces(a[..n], b[..n]);
      assert |a[n]| <= |b[n]|;
      if Flatten(a) == Flatten(b) {
        EqualTails(Flatten(a[..n]), a[n], Flatten(b[..n]), b[n]);
        assert a == a[..n] + [a[n]] && b == b[..n] + [b[n]];
      }
    }
  }

  /** Parts that share a number carry the same bytes. */
  ghost predicate AlikeAgree(bodies: seq<Bytes>) {
    forall i, j :: 0 <= i < j < |bodies| && Alike(i, j) ==> bodies[i] == bodies[j]
  }

  lemma {:induction false} LastAlikeSame(i: nat, j: nat, n: nat)
    requires i < n && j < n && Alike(i, j)
    ensures LastAlike(i, n) == LastAlike(j, n)
  {
    if !Alike(i, n - 1) { LastAlikeSame(i, j, n - 1); }
  }

  lemma ResolvedAgreeAt(bodies: seq<Bytes>, i: nat, j: nat)
    requires Resolved(bodies, |bodies|) == bodies && i < |bodies| && j < |bodies| && Alike(i, j)
    ensures bodies[i] == bodies[j]
  {
    LastAlikeSame(i, j, |bodies|);
    assert Resolved(bodies, |bodies|)[i] == bodies[LastAlike(i, |bodies|)];
    assert Resolved(bodies, |bodies|)[j] == bodies[LastAlike(j, |bodies|)];
  }

  lemma ResolvedAgree(bodies: seq<Bytes>)
    requires Resolved(bodies, |bodies|) == bodies
    ensures AlikeAgree(bodies)
  {
    forall i, j | 0 <= i < j < |bodies| && Alike(i, j)
      ensures bodies[i] == bodies[j]
    {
      ResolvedAgreeAt(bodies, i, j);
    }
  }

  lemma AgreeResolvedAt(bodies: seq<Bytes>, i: nat)
    requires AlikeAgree(bodies) && i < |bodies|
    ensures bodies[LastAlike(i, |bodies|)] == bodies[i]
  {
    var j := LastAlike(i, |bodies|);
    assert i < j ==> bodies[i] == bodies[j];
  }

  lemma AgreeResolved(bodies: seq<Bytes>)
    requires AlikeAgree(bodies)
    ensures Resolved(bodies, |bodies|) == bodies
  {
    forall i | 0 <= i < |bodies|
      ensures Resolved(bodies, |bodies|)[i] == bodies[i]
    {
      AgreeResolvedAt(bodies, i);
    }
  }

  lemma ResolvedIsBodies(bodies: seq<Bytes>)
    ensures Resolved(bodies, |bodies|) == bodies <==> AlikeAgree(bodies)
  {
    if Resolved(bodies, |bodies|) == bodies { ResolvedAgree(bodies); }
    if AlikeAgree(bodies) { AgreeResolved(bodies); }
  }

  lemma ResolvedNotLonger(bodies: seq<Bytes>, size: nat)
    requires forall i :: 0 <= i < |bodies| ==> |bodies[i]| <= size
    requires forall i :: 0 <= i < |bodies| - 1 ==> |bodies[i]| == size
    ensures forall i :: 0 <= i < |bodies| ==> |Resolved(bodies, |bodies|)[i]| <= |bodies[i]|
  {
    forall i | 0 <= i < |bodies|
      ensures |Resolved(bodies, |bodies|)[i]| <= |bodies[i]|
    {
      var j := LastAlike(i, |bodies|);
      assert i == |bodies| - 1 ==> j == i;
    }
  }

  /**
   * The parts listed on completion assemble to the file that was read if and only if parts that share a number carry
   * the same bytes.
   */
  lemma UploadedObjectIsFile(key: Key, id: UploadId, content: Bytes, partSize: nat, etags: seq<Option<ETag>>)
    requires partSize > 0 && |etags| == |Chunks(content, partSize)|
    ensures Assembled(PartCalls(key, id, Chunks(content, partSize), etags), CompletedParts(etags)) == content
            <==> AlikeAgree(Chunks(content, partSize))
  {
    var bodies := Chunks(content, partSize);
    AssembledPrefix(key, id, bodies, etags, |bodies|);
    assert etags[..|bodies|] == etags;
    ChunksFlatten(content, partSize);
    ChunkSizes(content, partSize);
    ResolvedNotLonger(bodies, partSize);
    ShorterPieces(Resolved(bodies, |bodies|), bodies);
    ResolvedIsBodies(bodies);
  }

  /** A multipart upload that returns success ended in a completion whose parts are the file, under that condition. */
  lemma SuccessStoresFile(run: seq<Call>, key: Key, content: Bytes, partSize: nat, parts: seq<Call>, etags: seq<Option<ETag>>)
    requires partSize > 0 && MultipartRun(run, key, content, partSize, parts, etags, true, false)
    ensures var last := run[|run| - 1];
            && last.Complete? && last.completed.Ok?
            && (Assembled(parts, last.parts) == content <==> AlikeAgree(Chunks(content, partSize)))
  {
    var id := run[0].created.value.value;
    assert Ending(key, id, etags, true)[0] == run[|run| - 1];
    UploadedObjectIsFile(key, id, content, partSize, etags);
  }

  // ---- how many parts are safe for every file ----

  function Zeroes(n: nat): (z: Bytes)
    ensures |z| == n && forall i :: 0 <= i < n ==> z[i] == 0
  {
    if n == 0 then [] else Zeroes(n - 1) + [0]
  }

  lemma {:induction false} ZeroPieces(content: Bytes, size: nat, i: nat)
    requires size > 0 && (forall k :: 0 <= k < |content| ==> content[k] == 0) && i < |Chunks(content, size)|
    ensures |Chunks(content, size)[i]| > 0 && Chunks(content, size)[i][0] == 0
    decreases |content|
  {
    ChunkSizes(content, size);
    if |content| > size && i > 0 {
      ZeroPieces(content[size..], size, i - 1);
    }
  }

  /** A file of `k` parts whose first part is like no other. */
  function Marked(k: nat, size: nat): (content: Bytes)
    requires k > 0 && size > 0
    ensures |content| == k * size
  {
    assert k * size >= 1;
    [1] + Zeroes(k * size - 1)
  }

  lemma MarkedParts(k: nat, size: nat)
    requires k > 1 && size > 0
    ensures |Chunks(Marked(k, size), size)| == k
    ensures forall j :: 0 < j < k ==> Chunks(Marked(k, size), size)[0] != Chunks(Marked(k, size), size)[j]
  {
    var content := Marked(k, size);
    ChunkSizes(content, size);
    ExactCount(|Chunks(content, size)|, k, size);
    assert k * size > size;
    var rest := content[size..];
    assert Chunks(content, size) == [content[..size]] + Chunks(rest, size);
    forall j | 0 < j < k
      ensures Chunks(content, size)[0] != Chunks(content, size)[j]
    {
      ZeroPieces(rest, size, j - 1);
      assert Chunks(content, size)[0][0] == 1;
    }
  }

  lemma {:induction false} MoreParts(a: nat, b: nat, size: nat)
    ensures a < b ==> a * size + size <= b * size
  {
    if a + 1 < b {
      MoreParts(a, b - 1, size);
      assert b * size == (b - 1) * size + size;
    } else if a + 1 == b {
      assert b * size == a * size + size;
    }
  }

  lemma ExactCount(n: nat, k: nat, size: nat)
    requires size > 0 && k * size <= n * size < k * size + size
    ensures n == k
  {
    MoreParts(n, k, size);
    MoreParts(k, n, size);
  }

  ghost predicate StoredIntact(key: Key, id: UploadId, content: Bytes, partSize: nat, etags: seq<Option<ETag>>)
    requires partSize > 0 && |etags| == |Chunks(content, partSize)|
  {
    Assembled(PartCalls(key, id, Chunks(content, partSize), etags), CompletedParts(etags)) == content
  }

  function NoTags(n: nat): (etags: seq<Option<ETag>>)
    ensures |etags| == n
  {
    if n == 0 then [] else NoTags(n - 1) + [None]
  }

  lemma FewPartsAgree(bodies: seq<Bytes>)
    requires |bodies| <= NUMBERS
    ensures AlikeAgree(bodies)
  {
  }

  /** With one part more than there are numbers, a later part takes the place of the first. */
  lemma MarkedIsNotIntact(key: Key, id: UploadId, partSize: nat, k: nat)
    requires partSize > 0 && k > NUMBERS
    ensures |Chunks(Marked(k, partSize), partSize)| == k
    ensures !StoredIntact(key, id, Marked(k, partSize), partSize, NoTags(k))
  {
    MarkedParts(k, partSize);
    UploadedObjectIsFile(key, id, Marked(k, partSize), partSize, NoTags(k));
    var bodies := Chunks(Marked(k, partSize), partSize);
    assert Alike(0, NUMBERS) && bodies[0] != bodies[NUMBERS];
  }

  /** Every file of `k` parts is stored intact if and only if there are no more than 2^32 parts. */
  lemma IntactUpTo(key: Key, id: UploadId, partSize: nat, k: nat)
    requires partSize > 0
    ensures (forall content: Bytes, etags: seq<Option<ETag>> :: |Chunks(content, partSize)| == |etags| == k ==>
               StoredIntact(key, id, content, partSize, etags)) <==> k <= NUMBERS
  {
    if k <= NUMBERS {
      forall content: Bytes, etags: seq<Option<ETag>> | |Chunks(content, partSize)| == |etags| == k
        ensures StoredIntact(key, id, content, partSize, etags)
      {
        FewPartsAgree(Chunks(content, partSize));
        UploadedObjectIsFile(key, id, content, partSize, etags);
      }
    } else {
      MarkedIsNotIntact(key, id, partSize, k);
    }
  }

  // ---- choosing the path ----

  const MIN_PART_SIZE: nat := 5 * 1024 * 1024

  /** The clamp in `connect`. */
  function PartSize(configured: nat): nat {
    if configured >= MIN_PART_SIZE then configured else MIN_PART_SIZE
  }

  /** A file above the threshold has a part to send, and every part but the last is at least 5 MiB. */
  lemma MultipartHasParts(content: Bytes, threshold: nat, configured: nat)
    requires |content| > threshold
    ensures |Chunks(content, PartSize(configured))| >= 1
    ensures forall i :: 0 <= i < |Chunks(content, PartSize(configured))| - 1 ==>
              |Chunks(content, PartSize(configured))[i]| >= MIN_PART_SIZE
  {
    ChunkSizes(content, PartSize(configured));
  }

  /** In a run, every part that another part follows has exactly this many bytes, and no part has none or more. */
  ghost predicate PartsFilled(run: seq<Call>, size: nat) {
    && (forall i :: 0 < i < |run| && run[i - 1].Part? && run[i].Part? ==> |run[i - 1].body| == size)
    && (forall i :: 0 <= i < |run| && run[i].Part? ==> 0 < |run[i].body| <= size)
  }

  lemma StoredBodies(key: Key, id: UploadId, bodies: seq<Bytes>, etags: seq<Option<ETag>>, calls: seq<Call>)
    requires |etags| <= |bodies| && calls == PartCalls(key, id, bodies[..|etags|], etags)
    ensures forall i :: 0 <= i < |etags| ==> calls[i].Part? && calls[i].body == bodies[i]
  {
    forall i | 0 <= i < |etags|
      ensures calls[i].Part? && calls[i].body == bodies[i]
    {
      PartCallAt(key, id, bodies[..|etags|], etags, i);
    }
  }

  lemma StoppedBodies(key: Key, id: UploadId, bodies: seq<Bytes>, etags: seq<Option<ETag>>, calls: seq<Call>, readFailed: bool)
    requires StoppedParts(calls, key, id, bodies, etags, readFailed)
    ensures |calls| <= |bodies|
    ensures forall i :: 0 <= i < |calls| ==> calls[i].Part? && calls[i].body == bodies[i]
  {
    StoredBodies(key, id, bodies, etags, PartCalls(key, id, bodies[..|etags|], etags));
  }

  /** The part calls of a run carry the chunks of the file, in order, and no other call is a part. */
  lemma PartsAreChunks(run: seq<Call>, key: Key, content: Bytes, size: nat, parts: seq<Call>, etags: seq<Option<ETag>>,
                       ok: bool, readFailed: bool)
    returns (ending: seq<Call>)
    requires size > 0 && MultipartRun(run, key, content, size, parts, etags, ok, readFailed) && GotId(run[0])
    ensures |parts| <= |Chunks(content, size)|
    ensures forall i :: 0 <= i < |parts| ==> parts[i].Part? && parts[i].body == Chunks(content, size)[i]
    ensures run == [run[0]] + parts + ending && forall i :: 0 <= i < |ending| ==> !ending[i].Part?
  {
    var id := run[0].created.value.value;
    if ClosedRun(run, key, content, size, parts, etags, ok) {
      ending := Ending(key, id, etags, ok);
      assert Chunks(content, size)[..|etags|] == Chunks(content, size);
      StoredBodies(key, id, Chunks(content, size), etags, parts);
    } else {
      ending := [Abort(key, id, false)];
      StoppedBodies(key, id, Chunks(content, size), etags, parts, readFailed);
    }
  }

  /** Parts are cut at the configured size, raised to 5 MiB: all but the last have exactly that many bytes. */
  lemma PartsAsConfigured(run: seq<Call>, key: Key, content: Bytes, configured: nat, parts: seq<Call>,
                          etags: seq<Option<ETag>>, ok: bool, readFailed: bool)
    requires MultipartRun(run, key, content, PartSize(configured), parts, etags, ok, readFailed)
    ensures PartsFilled(run, if configured >= 5 * 1024 * 1024 then configured else 5 * 1024 * 1024)
  {
    var size := if configured >= 5 * 1024 * 1024 then configured else 5 * 1024 * 1024;
    if GotId(run[0]) {
      var ending := PartsAreChunks(run, key, content, size, parts, etags, ok, readFailed);
      ChunkSizes(content, size);
      RunParts(run, Chunks(content, size), size, parts, ending);
    }
  }

  lemma RunParts(run: seq<Call>, bodies: seq<Bytes>, size: nat, parts: seq<Call>, ending: seq<Call>)
    requires |run| > 0 && run[0].Create? && run == [run[0]] + parts + ending
    requires forall i :: 0 <= i < |ending| ==> !ending[i].Part?
    requires |parts| <= |bodies| && forall i :: 0 <= i < |parts| ==> parts[i].Part? && parts[i].body == bodies[i]
    requires forall i :: 0 <= i < |bodies| - 1 ==> |bodies[i]| == size
    requires forall i :: 0 <= i < |bodies| ==> 0 < |bodies[i]| <= size
    ensures PartsFilled(run, size)
  {
    forall i | 1 <= i < |run|
      ensures run[i] == if i <= |parts| then parts[i - 1] else ending[i - 1 - |parts|]
    {
    }
  }

  /** `upload_file_single`: the whole file in one put. */
  method UploadFileSingle(store: RemoteStore, faults: Faults, key: Key, content: Bytes, sizeBytes: nat, sha: Bytes -> Digest)
    returns (r: Result<UploadOutcome, UploadError>, ghost run: seq<Call>)
    modifies store, faults
    ensures store.log == old(store.log) + run && faults.count >= old(faults.count)
    ensures r.Ok? ==> run == [Put(key, content, Ok(()))] && r.value == UploadOutcome(key, sizeBytes, sha(content))
    ensures r.Err? ==> run == if faults.count > old(faults.count) then [] else [Put(key, content, Err(RpcFailed))]
    ensures r.Ok? ==> faults.count == old(faults.count)
    ensures r.Err? ==> Blames(r.error, run, faults.count > old(faults.count))
  {
    run := [];
    if * {
      faults.Strike();
      return Err(Io(Failed)), run;
    }
    var hasher := Hasher([]).Update(content);
    var put := store.PutObject(key, content);
    run := [Put(key, content, put)];
    if put.Err? {
      assert put.error == RpcFailed && run[0].Put?;
      return Err(PutFailed), run;
    }
    assert put.value == ();
    assert [] + content == content;
    return Ok(UploadOutcome(key, sizeBytes, hasher.Finalize(sha))), run;
  }

  /** A call of the run was refused, or the create answered without an id. */
  predicate Refused(call: Call) {
    match call
    case Create(_, created) => created.Err? || created.value.None?
    case Part(_, _, _, _, stored) => stored.Err?
    case Complete(_, _, _, completed) => completed.Err?
    case Put(_, _, put) => put.Err?
    case Abort(_, _, _) => false
  }

  ghost predicate SomeRefused(run: seq<Call>) { exists i :: 0 <= i < |run| && Refused(run[i]) }

  /** A multipart upload fails only because a read failed or a call was refused. */
  lemma MultipartFailsForCause(run: seq<Call>, key: Key, content: Bytes, partSize: nat, parts: seq<Call>,
                               etags: seq<Option<ETag>>, ok: bool, readFailed: bool)
    requires partSize > 0 && MultipartRun(run, key, content, partSize, parts, etags, ok, readFailed)
    ensures ok <==> !readFailed && !SomeRefused(run)
  {
    if GotId(run[0]) {
      var id := run[0].created.value.value;
      if !readFailed && ClosedRun(run, key, content, partSize, parts, etags, ok) {
        ClosedRunRefusals(run, key, id, Chunks(content, partSize), parts, etags, ok);
      } else if !readFailed {
        assert Refused(run[|parts|]) by { assert run[|parts|] == parts[|parts| - 1]; }
      }
    } else {
      assert Refused(run[0]);
    }
  }

  lemma ClosedRunRefusals(run: seq<Call>, key: Key, id: UploadId, bodies: seq<Bytes>, parts: seq<Call>,
                          etags: seq<Option<ETag>>, ok: bool)
    requires |run| > 0 && GotId(run[0]) && |etags| == |bodies|
    requires parts == PartCalls(key, id, bodies, etags) && run == [run[0]] + parts + Ending(key, id, etags, ok)
    ensures ok <==> !SomeRefused(run)
  {
    var n := 1 + |parts|;
    assert run[n] == Ending(key, id, etags, ok)[0];
    forall i | 0 <= i < n
      ensures !Refused(run[i])
    {
      if i > 0 { PartCallAt(key, id, bodies, etags, i - 1); }
    }
    assert ok ==> |run| == n + 1 && !Refused(run[n]);
    assert !ok ==> Refused(run[n]);
  }

  /** `upload_file` on a file that does not change: multipart strictly above the threshold, one put otherwise. */
  method UploadFile(store: RemoteStore, faults: Faults, key: Key, content: Bytes, threshold: nat, configured: nat,
                    sha: Bytes -> Digest)
    returns (r: Result<UploadOutcome, UploadError>, ghost run: seq<Call>, ghost parts: seq<Call>, ghost etags: seq<Option<ETag>>)
    modifies store, faults
    ensures store.log == old(store.log) + run && faults.count >= old(faults.count)
    ensures r.Ok? <==> faults.count == old(faults.count) && !SomeRefused(run)
    ensures run == [] ==> faults.count > old(faults.count)
    ensures r.Ok? ==> r.value == UploadOutcome(key, |content|, sha(content))
    ensures r.Err? ==> Blames(r.error, run, faults.count > old(faults.count))
    ensures |content| > threshold ==>
              PartsFilled(run, if configured >= 5 * 1024 * 1024 then configured else 5 * 1024 * 1024)
    ensures |content| <= threshold ==>
              run == if r.Ok? then [Put(key, content, Ok(()))]
                     else if faults.count > old(faults.count) then [] else [Put(key, content, Err(RpcFailed))]
    ensures |content| > threshold && run != [] ==>
              MultipartRun(run, key, content, PartSize(configured), parts, etags, r.Ok?, faults.count > old(faults.count))
  {
    parts, etags := [], [];
    if * {
      faults.Strike();
      return Err(Io(NotFound)), [], parts, etags;
    }
    var sizeBytes := |content|;
    if sizeBytes > threshold {
      r, run, parts, etags := UploadFileMultipart(store, faults, key, content, sizeBytes, PartSize(configured), sha);
      MultipartFailsForCause(run, key, content, PartSize(configured), parts, etags, r.Ok?,
                             faults.count > old(faults.count));
      PartsAsConfigured(run, key, content, configured, parts, etags, r.Ok?, faults.count > old(faults.count));
    } else {
      r, run := UploadFileSingle(store, faults, key, content, sizeBytes, sha);
      assert r.Err? && run != [] ==> Refused(run[0]);
    }
  }
}

/** Exporting a file or directory as a chunked stream, and what importing that stream gives. */
module Export {
  import opened Basics
  import opened FileTree
  import opened WorkspacePath
  import opened Archive
  import opened Pack
  import opened ShortReads
  import opened TempFiles
  import opened Transfer

  datatype ExportError =
    | WorkspaceIdRequired | BadSource(path: PathError) | NoSuchPath | ExpectsFile | ExpectsDirectory
    | ExportEncodingRequired | ExportIo(io: IoError) | PackFailed(pack: IoError)

  /** The header of an export, and the bytes its chunks will carry. */
  datatype PreparedExport = PreparedExport(basename: string, size: nat, digest: Digest, payload: Bytes)

  /** The payload is the archive of the directory `source`, packed in some order. */
  ghost predicate IsArchiveOf(payload: Bytes, encode: seq<TarItem> -> Bytes, fs: Fs, source: Path) {
    exists items :: IsPacking(items, RootName(fs, source), Subtree(fs, source)) && payload == encode(items)
  }

  /** A source of the wrong kind for the encoding. */
  function KindRefusal(node: Node, encoding: Encoding): Option<ExportError> {
    match encoding
    case Raw => if node.Dir? then Some(ExpectsFile) else None
    case TarGz => if node.File? then Some(ExpectsDirectory) else None
    case Unspecified => Some(ExportEncodingRequired)
  }

  /** The request is refused before anything is read, and why. */
  function Refusal(fs: Fs, root: Path, id: string, path: string, encoding: Encoding): Option<ExportError> {
    if id == "" then Some(WorkspaceIdRequired)
    else
      match ResolvePath(root, id, path)
      case Err(e) => Some(BadSource(e))
      case Ok(source) =>
        match Metadata(fs, source)
        case Missing => Some(NoSuchPath)
        case Blocked => Some(ExportIo(NotADirectory))
        case Found(node) => KindRefusal(node, encoding)
  }

  /** The path resolves to a file, to be sent as it is, or to a directory, to be sent as an archive. */
  ghost predicate Exportable(fs: Fs, root: Path, id: string, path: string, encoding: Encoding) {
    && ResolvePath(root, id, path).Ok?
    && var source := ResolvePath(root, id, path).value;
       (encoding.Raw? && IsFile(fs, source)) || (encoding.TarGz? && IsDir(fs, source))
  }

  /** What a request is told that cannot be exported: the first thing that stands against it. */
  ghost predicate BlamesRequest(fs: Fs, root: Path, id: string, path: string, encoding: Encoding, error: ExportError) {
    var resolved := ResolvePath(root, id, path);
    if id == "" then error == WorkspaceIdRequired
    else if resolved.Err? then error == BadSource(resolved.error)
    else if resolved.value !in fs then
      error == if exists q :: q < resolved.value && IsFile(fs, q) then ExportIo(NotADirectory) else NoSuchPath
    else
      match encoding
      case Raw => error == ExpectsFile
      case TarGz => error == ExpectsDirectory
      case Unspecified => error == ExportEncodingRequired
  }

  /** Refused is exactly what cannot be exported, and for its reason. */
  lemma RefusalIs(fs: Fs, root: Path, id: string, path: string, encoding: Encoding)
    ensures Refusal(fs, root, id, path, encoding).None? <==> Exportable(fs, root, id, path, encoding)
    ensures Refusal(fs, root, id, path, encoding).Some? ==>
              BlamesRequest(fs, root, id, path, encoding, Refusal(fs, root, id, path, encoding).value)
  {
    if ResolvePath(root, id, path).Ok? { MetadataIs(fs, ResolvePath(root, id, path).value); }
  }

  /** The payload is what the source holds: the file's bytes, or an archive of the directory. */
  ghost predicate Carries(payload: Bytes, fs: Fs, source: Path, encoding: Encoding, encode: seq<TarItem> -> Bytes) {
    match encoding
    case Raw => source in fs && fs[source] == File(payload)
    case TarGz => IsDir(fs, source) && IsArchiveOf(payload, encode, fs, source)
    case Unspecified => false
  }

  /** The basename sent along. */
  function Basename(source: Path, encoding: Encoding): string {
    if encoding.TarGz? then FileName(source, "workspace") + ".tar.gz" else FileName(source, "artifact")
  }

  /** What is sent for a source of the right kind, with the guard of the temporary archive it was packed into. */
  method ExportPayload(fs: Fs, source: Path, encoding: Encoding, encode: seq<TarItem> -> Bytes,
                       temps: TempDir, tempName: Name, faults: Faults)
    returns (r: Result<Bytes, ExportError>, cleanup: Option<TempFileGuard>)
    requires TreeShaped(fs) && source in fs
    requires (encoding.Raw? && fs[source].File?) || (encoding.TarGz? && fs[source].Dir?)
    modifies temps, faults
    ensures r.Ok? <==> faults.count == old(faults.count)
    ensures faults.count >= old(faults.count)
    ensures r.Ok? ==> Carries(r.value, fs, source, encoding, encode)
    ensures r.Err? ==> r.error.ExportIo? || r.error.PackFailed?
    ensures Guards(cleanup, temps, tempName) && (cleanup.Some? <==> r.Ok? && encoding.TarGz?)
    ensures temps.names ==
              old(temps.names) + if cleanup.Some? || (r.Err? && r.error.PackFailed?) then {tempName} else {}
  {
    if encoding.Raw? {
      return Ok(fs[source].data), None;
    }
    var packed := TarGzIntoTemp(fs, source, temps, tempName, faults);
    if packed.Err? {
      return Err(if packed.error.NotCreated? then ExportIo(packed.error.io) else PackFailed(packed.error.io)), None;
    }
    var guard := new TempFileGuard(temps, tempName);
    return Ok(encode(packed.value)), Some(guard);
  }

  /** A guard, if there is one, is for this file. */
  ghost predicate Guards(cleanup: Option<TempFileGuard>, temps: TempDir, tempName: Name) {
    cleanup.Some? ==> cleanup.value.dir == temps && cleanup.value.name == tempName
  }

  lemma RefusalCases(fs: Fs, root: Path, id: string, path: string, encoding: Encoding)
    requires id != "" && ResolvePath(root, id, path).Ok?
    ensures var source := ResolvePath(root, id, path).value;
            && source != []
            && Refusal(fs, root, id, path, encoding) ==
                 match Metadata(fs, source)
                 case Missing => Some(NoSuchPath)
                 case Blocked => Some(ExportIo(NotADirectory))
                 case Found(node) => KindRefusal(node, encoding)
  {
    assert |Home(root, id)| <= |ResolvePath(root, id, path).value|;
  }

  /**
   * `do_export_workspace_object`: the header speaks of exactly the bytes that will be sent. A temporary archive stays,
   * guarded, for a prepared export, and unguarded only when packing failed half way; every other failure removes it.
   */
  method PrepareExport(fs: Fs, root: Path, id: string, path: string, encoding: Encoding,
                       sha: Bytes -> Digest, encode: seq<TarItem> -> Bytes, temps: TempDir, tempName: Name, faults: Faults)
    returns (r: Result<PreparedExport, ExportError>, cleanup: Option<TempFileGuard>)
    requires TreeShaped(fs) && tempName !in temps.names
    modifies temps, faults
    ensures r.Ok? <==> Exportable(fs, root, id, path, encoding) && faults.count == old(faults.count)
    ensures faults.count >= old(faults.count)
    ensures r.Err? ==>
              if Exportable(fs, root, id, path, encoding) then r.error.ExportIo? || r.error.PackFailed?
              else BlamesRequest(fs, root, id, path, encoding, r.error)
    ensures r.Ok? ==>
              && var source := ResolvePath(root, id, path).value;
              && Carries(r.value.payload, fs, source, encoding, encode)
              && source != []
              && r.value.basename == source[|source| - 1] + (if encoding.TarGz? then ".tar.gz" else "")
              && r.value.size == |r.value.payload| && r.value.digest == sha(r.value.payload)
    ensures Guards(cleanup, temps, tempName) && (cleanup.Some? <==> r.Ok? && encoding.TarGz?)
    ensures temps.names ==
              old(temps.names) + if cleanup.Some? || (r.Err? && r.error.PackFailed?) then {tempName} else {}
  {
    cleanup := None;
    RefusalIs(fs, root, id, path, encoding);
    if id == "" {
      return Err(WorkspaceIdRequired), cleanup;
    }
    var resolved := ResolvePath(root, id, path);
    if resolved.Err? {
      return Err(BadSource(resolved.error)), cleanup;
    }
    var source := resolved.value;
    RefusalCases(fs, root, id, path, encoding);
    var meta := Metadata(fs, source);
    if !meta.Found? {
      return Err(if meta.Missing? then NoSuchPath else ExportIo(NotADirectory)), cleanup;
    }
    var wrongKind := KindRefusal(meta.node, encoding);
    if wrongKind.Some? {
      return Err(wrongKind.value), cleanup;
    }
    r, cleanup := Describe(fs, source, encoding, sha, encode, temps, tempName, faults);
  }

  /** Packs if need be, and measures what will be sent. */
  method Describe(fs: Fs, source: Path, encoding: Encoding, sha: Bytes -> Digest, encode: seq<TarItem> -> Bytes,
                  temps: TempDir, tempName: Name, faults: Faults)
    returns (r: Result<PreparedExport, ExportError>, cleanup: Option<TempFileGuard>)
    requires TreeShaped(fs) && source in fs && KindRefusal(fs[source], encoding).None? && tempName !in temps.names
    modifies temps, faults
    ensures r.Ok? <==> faults.count == old(faults.count)
    ensures faults.count >= old(faults.count)
    ensures r.Err? ==> r.error.ExportIo? || r.error.PackFailed?
    ensures r.Ok? ==>
              && Carries(r.value.payload, fs, source, encoding, encode)
              && r.value.basename == Basename(source, encoding)
              && r.value.size == |r.value.payload| && r.value.digest == sha(r.value.payload)
    ensures Guards(cleanup, temps, tempName) && (cleanup.Some? <==> r.Ok? && encoding.TarGz?)
    ensures temps.names ==
              old(temps.names) + if cleanup.Some? || (r.Err? && r.error.PackFailed?) then {tempName} else {}
  {
    var payload;
    payload, cleanup := ExportPayload(fs, source, encoding, encode, temps, tempName, faults);
    if payload.Err? {
      return Err(payload.error), None;
    }
    var digest := Measure(payload.value, sha, faults);
    if digest.Err? {
      if cleanup.Some? { cleanup.value.Drop(); }
      return Err(ExportIo(digest.error)), None;
    }
    return Ok(PreparedExport(Basename(source, encoding), |payload.value|, digest.value, payload.value)), cleanup;
  }

  /** The length, which may fail to be read, and the digest. */
  method Measure(payload: Bytes, sha: Bytes -> Digest, faults: Faults) returns (r: Result<Digest, IoError>)
    modifies faults
    ensures r.Ok? <==> faults.count == old(faults.count)
    ensures faults.count >= old(faults.count)
    ensures r.Ok? ==> r.value == sha(payload)
  {
    if * {
      faults.Strike();
      return Err(Failed);
    }
    r := Sha256File(payload, sha, faults);
  }

  /** The chunk loop: one message per read; what has been sent is always a beginning of the payload. */
  method StreamPayload(payload: Bytes, faults: Faults) returns (chunks: seq<Bytes>, r: Result<(), IoError>)
    modifies faults
    ensures r.Ok? <==> faults.count == old(faults.count)
    ensures faults.count >= old(faults.count)
    ensures forall i :: 0 <= i < |chunks| ==> 0 < |chunks[i]| <= 65_536
    ensures Flatten(chunks) <= payload
    ensures r.Ok? ==> Flatten(chunks) == payload
  {
    chunks := [];
    var attempt := Open(payload, faults);
    if attempt.Err? {
      return chunks, Err(attempt.error);
    }
    var file := attempt.value;
    var buf := new byte[TRANSFER_CHUNK](_ => 0);
    while true
      invariant file.Valid() && fresh(file) && fresh(buf) && file.content == payload
      invariant file.faults == faults && faults.count == old(faults.count)
      invariant Flatten(chunks) == payload[..file.pos]
      invariant forall i :: 0 <= i < |chunks| ==> 0 < |chunks[i]| <= TRANSFER_CHUNK
      decreases |payload| - file.pos
    {
      ghost var before := file.pos;
      var n := file.Read(buf, 0);
      if n.Err? {
        assert payload[..file.pos] <= payload;
        return chunks, Err(n.error);
      }
      if n.value == 0 {
        break;
      }
      var chunk := buf[..n.value];
      assert chunk == buf[0..n.value] == payload[before..file.pos];
      FlattenSnoc(chunks, chunk);
      assert payload[..file.pos] == payload[..before] + payload[before..file.pos];
      chunks := chunks + [chunk];
    }
    assert payload[..file.pos] == payload;
    return chunks, Ok(());
  }

  /** The export stream: the payload in chunks; its end, good or bad, drops the guard of the temporary archive. */
  method ExportStream(prepared: PreparedExport, cleanup: Option<TempFileGuard>, temps: TempDir, faults: Faults)
    returns (chunks: seq<Bytes>, r: Result<(), IoError>)
    requires cleanup.Some? ==> cleanup.value.dir == temps
    modifies temps, faults
    ensures forall i :: 0 <= i < |chunks| ==> 0 < |chunks[i]| <= 65_536
    ensures Flatten(chunks) <= prepared.payload
    ensures r.Ok? ==> Flatten(chunks) == prepared.payload
    ensures r.Ok? <==> faults.count == old(faults.count)
    ensures faults.count >= old(faults.count)
    ensures temps.names == old(temps.names) - if cleanup.Some? then {cleanup.value.name} else {}
  {
    chunks, r := StreamPayload(prepared.payload, faults);
    if cleanup.Some? { cleanup.value.Drop(); }
  }

  // ---- export, then import ----

  /** The receiving side can reach the target. */
  predicate Reachable(fs: Fs, root: Path, header: Header) {
    var resolved := ResolvePath(root, header.workspaceId, header.targetPath);
    resolved.Ok? && CanPrepare(fs, Home(root, header.workspaceId), resolved.value)
  }

  /**
   * A file sent in any chunks and received in any other chunks arrives byte for byte, in this or another tree,
   * and the reported size is its length up to the largest 64-bit number.
   */
  lemma FileRoundTrip(fs: Fs, source: Path, sent: seq<Bytes>,
                      fs': Fs, root: Path, received: seq<Incoming>, decode: Bytes -> seq<TarItem>)
    requires IsFile(fs, source) && Flatten(sent) == fs[source].data
    requires HeaderThenChunks(received) && Body(received) == Flatten(sent)
    requires received[0].payload.value.header.encoding.Raw?
    ensures var header := received[0].payload.value.header;
            && (Imported(fs', root, header, Body(received), decode).Some? <==> Reachable(fs', root, header))
            && (Reachable(fs', root, header) ==>
                  Subtree(Imported(fs', root, header, Body(received), decode).value,
                          ResolvePath(root, header.workspaceId, header.targetPath).value) == map[[] := fs[source]])
    ensures |fs[source].data| <= U64_MAX ==> Saturated(|Body(received)|) == |fs[source].data|
  {
    var header := received[0].payload.value.header;
    if Reachable(fs', root, header) {
      ImportedTarget(fs', root, header, Body(received), decode);
    }
  }

  /** Decompressing undoes compressing for the archives of this directory. */
  ghost predicate CodecWorks(decode: Bytes -> seq<TarItem>, encode: seq<TarItem> -> Bytes, fs: Fs, source: Path) {
    forall items :: IsPacking(items, RootName(fs, source), Subtree(fs, source)) ==> decode(encode(items)) == items
  }

  /**
   * A directory exported as an archive and imported again is the same directory at the target,
   * given only that decompressing undoes compressing for its archives.
   */
  lemma DirectoryRoundTrip(fs: Fs, source: Path, payload: Bytes, sent: seq<Bytes>, encode: seq<TarItem> -> Bytes,
                           fs': Fs, root: Path, received: seq<Incoming>, decode: Bytes -> seq<TarItem>)
    requires TreeShaped(fs) && IsDir(fs, source) && IsArchiveOf(payload, encode, fs, source)
    requires CodecWorks(decode, encode, fs, source)
    requires Flatten(sent) == payload
    requires HeaderThenChunks(received) && Body(received) == Flatten(sent)
    requires received[0].payload.value.header.encoding.TarGz?
    ensures var header := received[0].payload.value.header;
            && (Imported(fs', root, header, Body(received), decode).Some? <==> Reachable(fs', root, header))
            && (Reachable(fs', root, header) ==>
                  Subtree(Imported(fs', root, header, Body(received), decode).value,
                          ResolvePath(root, header.workspaceId, header.targetPath).value) == Subtree(fs, source))
  {
    var header := received[0].payload.value.header;
    ArchiveUnpacks(fs, source, payload, encode, decode);
    if Reachable(fs', root, header) {
      ImportedTarget(fs', root, header, Body(received), decode);
    }
  }

  lemma ArchiveUnpacks(fs: Fs, source: Path, payload: Bytes, encode: seq<TarItem> -> Bytes, decode: Bytes -> seq<TarItem>)
    requires TreeShaped(fs) && IsDir(fs, source) && IsArchiveOf(payload, encode, fs, source)
    requires CodecWorks(decode, encode, fs, source)
    ensures Extracted(decode(payload)).Some?
    ensures Unwrapped(Extracted(decode(payload)).value) == Subtree(fs, source)
  {
    var items :| IsPacking(items, RootName(fs, source), Subtree(fs, source)) && payload == encode(items);
    PackedSource(fs, source, items);
  }

  // ---- a client that sends back what it receives ----

  function ChunkMessages(chunks: seq<Bytes>): (msgs: seq<Incoming>)
    ensures |msgs| == |chunks|
  {
    if chunks == [] then [] else [Message(Some(Chunk(chunks[0])))] + ChunkMessages(chunks[1..])
  }

  lemma {:induction false} ChunkMessagesLead(chunks: seq<Bytes>)
    ensures LeadingChunks(ChunkMessages(chunks)) == chunks && AllChunks(ChunkMessages(chunks))
  {
    if chunks != [] {
      var msgs := ChunkMessages(chunks);
      assert msgs[1..] == ChunkMessages(chunks[1..]);
      ChunkMessagesLead(chunks[1..]);
      assert forall i :: 0 < i < |msgs| ==> msgs[i] == msgs[1..][i - 1];
    }
  }

  function Resend(header: Header, chunks: seq<Bytes>): seq<Incoming> {
    [Message(Some(HeaderMessage(header)))] + ChunkMessages(chunks)
  }

  lemma ResendIs(header: Header, chunks: seq<Bytes>)
    ensures HeaderThenChunks(Resend(header, chunks)) && Resend(header, chunks)[0].payload.value.header == header
    ensures Body(Resend(header, chunks)) == Flatten(chunks)
  {
    assert Resend(header, chunks)[1..] == ChunkMessages(chunks);
    ChunkMessagesLead(chunks);
  }

  /** What an import of the exported payload leaves at the target is what the export read at the source. */
  lemma CarriedOver(fs: Fs, source: Path, payload: Bytes, encode: seq<TarItem> -> Bytes,
                    root: Path, header: Header, decode: Bytes -> seq<TarItem>)
    requires TreeShaped(fs) && Carries(payload, fs, source, header.encoding, encode)
    requires header.encoding.TarGz? ==> CodecWorks(decode, encode, fs, source)
    ensures Imported(fs, root, header, payload, decode).Some? <==> Reachable(fs, root, header)
    ensures Reachable(fs, root, header) ==>
              Subtree(Imported(fs, root, header, payload, decode).value,
                      ResolvePath(root, header.workspaceId, header.targetPath).value) == Subtree(fs, source)
  {
    if header.encoding.TarGz? {
      ArchiveUnpacks(fs, source, payload, encode, decode);
    } else {
      SubtreeRooted(fs, source);
    }
    if Reachable(fs, root, header) {
      ImportedTarget(fs, root, header, payload, decode);
    }
  }

  datatype CopyError = ExportFailed(refused: ExportError) | StreamFailed(stream: IoError) | ImportFailed(imported: ImportError)

  /**
   * Exporting one path and importing what arrives at another: it succeeds if and only if the export is not refused,
   * no read fails and the target can be reached, and then the filesystem is the one with the payload imported, whose
   * target holds exactly what the source held. A failed copy changes nothing that existed.
   */
  method ExportAndImport(disk: Disk, root: Path, id: string, path: string, header: Header,
                         stagingName: Name, extractionName: Name, sha: Bytes -> Digest,
                         encode: seq<TarItem> -> Bytes, decode: Bytes -> seq<TarItem>,
                         temps: TempDir, tempName: Name, faults: Faults)
    returns (r: Result<nat, CopyError>, ghost payload: Bytes)
    requires TreeShaped(disk.nodes) && ValidNames(root) && tempName !in temps.names
    requires FreshTemps(disk.nodes, root, [Message(Some(HeaderMessage(header)))], stagingName, extractionName)
    requires header.encoding.TarGz? && ResolvePath(root, id, path).Ok? ==>
               CodecWorks(decode, encode, disk.nodes, ResolvePath(root, id, path).value)
    modifies disk, temps, faults
    ensures TreeShaped(disk.nodes)
    ensures r.Ok? <==>
              && Exportable(old(disk.nodes), root, id, path, header.encoding)
              && faults.count == old(faults.count) && Reachable(old(disk.nodes), root, header)
    ensures r.Ok? ==>
              && ResolvePath(root, id, path).Ok?
              && Carries(payload, old(disk.nodes), ResolvePath(root, id, path).value, header.encoding, encode)
              && Imported(old(disk.nodes), root, header, payload, decode) == Some(disk.nodes)
              && r.value == Saturated(|payload|)
              && Subtree(disk.nodes, ResolvePath(root, header.workspaceId, header.targetPath).value)
                 == Subtree(old(disk.nodes), ResolvePath(root, id, path).value)
    ensures r.Err? ==>
              || disk.nodes == old(disk.nodes)
              || OnlyLeftovers(old(disk.nodes), disk.nodes, root, header, stagingName, extractionName)
    ensures temps.names ==
              old(temps.names) + if r.Err? && r.error.ExportFailed? && r.error.refused.PackFailed? then {tempName} else {}
  {
    ghost var fs := disk.nodes;
    payload := [];
    var ready, cleanup := PrepareExport(disk.nodes, root, id, path, header.encoding, sha, encode, temps, tempName, faults);
    if ready.Err? {
      return Err(ExportFailed(ready.error)), payload;
    }
    payload := ready.value.payload;
    var chunks, streamed := ExportStream(ready.value, cleanup, temps, faults);
    if streamed.Err? {
      return Err(StreamFailed(streamed.error)), payload;
    }
    ResendIs(header, chunks);
    CarriedOver(fs, ResolvePath(root, id, path).value, payload, encode, root, header, decode);
    var imported := ImportWorkspaceObject(disk, root, Resend(header, chunks), decode, stagingName, extractionName);
    if imported.Err? {
      return Err(ImportFailed(imported.error)), payload;
    }
    return Ok(imported.value), payload;
  }
}

/** Moving files and directories into and out of a workspace over a message stream. */
module Transfer {
  import opened Basics
  import opened Text
  import opened FileTree
  import opened WorkspacePath
  import opened Archive
  import opened Pack
  import opened Replace
  import opened ShortReads

  datatype Encoding = Unspecified | Raw | TarGz

  datatype Header = Header(workspaceId: string, targetPath: string, encoding: Encoding)

  datatype Payload = HeaderMessage(header: Header) | Chunk(data: Bytes)

  /** What the client's stream yields before it ends: messages, possibly empty ones, or a transport error. */
  datatype Incoming = Message(payload: Option<Payload>) | Broken

  datatype ImportError =
    | Transport | HeaderRequired | HeaderMustBeFirst | FirstEmpty | HeaderOnlyOnce | EmptyMessage
    | BadPath(path: PathError) | Io(io: IoError) | BadArchive(archive: ArchiveError) | EncodingRequired

  predicate IsChunk(m: Incoming) { m.Message? && m.payload.Some? && m.payload.value.Chunk? }

  predicate IsHeader(m: Incoming) { m.Message? && m.payload.Some? && m.payload.value.HeaderMessage? }

  /** The data received before the first message that is not a chunk. */
  function LeadingChunks(msgs: seq<Incoming>): (chunks: seq<Bytes>)
    ensures |chunks| <= |msgs|
  {
    if msgs == [] || !IsChunk(msgs[0]) then []
    else [msgs[0].payload.value.data] + LeadingChunks(msgs[1..])
  }

  predicate AllChunks(msgs: seq<Incoming>) { forall i :: 0 <= i < |msgs| ==> IsChunk(msgs[i]) }

  predicate HeaderThenChunks(stream: seq<Incoming>) {
    stream != [] && IsHeader(stream[0]) && AllChunks(stream[1..])
  }

  /** Everything the chunks of the stream carry, in order. */
  function Body(stream: seq<Incoming>): Bytes
    requires stream != []
  {
    Flatten(LeadingChunks(stream[1..]))
  }

  lemma ChunksTail(msgs: seq<Incoming>)
    requires msgs != [] && AllChunks(msgs)
    ensures AllChunks(msgs[1..])
  {
    forall j | 0 <= j < |msgs[1..]|
      ensures IsChunk(msgs[1..][j])
    {
      assert msgs[1..][j] == msgs[j + 1];
    }
  }

  lemma {:induction false} LeadingUpTo(msgs: seq<Incoming>, i: nat)
    requires i <= |msgs| && AllChunks(msgs[..i])
    ensures |LeadingChunks(msgs[..i])| == i
    ensures i == |msgs| || !IsChunk(msgs[i]) ==> LeadingChunks(msgs) == LeadingChunks(msgs[..i])
    ensures i < |msgs| && IsChunk(msgs[i]) ==>
              LeadingChunks(msgs[..i + 1]) == LeadingChunks(msgs[..i]) + [msgs[i].payload.value.data]
  {
    if i > 0 {
      assert msgs[..i][0] == msgs[0] && msgs[..i][1..] == msgs[1..][..i - 1];
      ChunksTail(msgs[..i]);
      LeadingUpTo(msgs[1..], i - 1);
      if i < |msgs| { assert msgs[..i + 1][1..] == msgs[1..][..i]; }
    } else if msgs != [] {
      assert msgs[..1] == [msgs[0]] && [msgs[0]][1..] == [];
    }
  }

  lemma OneMoreChunk(msgs: seq<Incoming>, i: nat)
    requires i < |msgs| && AllChunks(msgs[..i]) && IsChunk(msgs[i])
    ensures AllChunks(msgs[..i + 1])
    ensures Flatten(LeadingChunks(msgs[..i + 1])) == Flatten(LeadingChunks(msgs[..i])) + msgs[i].payload.value.data
  {
    LeadingUpTo(msgs, i);
    FlattenSnoc(LeadingChunks(msgs[..i]), msgs[i].payload.value.data);
    assert msgs[..i + 1] == msgs[..i] + [msgs[i]];
  }

  lemma ChunksStop(msgs: seq<Incoming>, i: nat)
    requires i <= |msgs| && AllChunks(msgs[..i]) && (i == |msgs| || !IsChunk(msgs[i]))
    ensures LeadingChunks(msgs) == LeadingChunks(msgs[..i]) && |LeadingChunks(msgs)| == i
    ensures AllChunks(msgs) <==> i == |msgs|
  {
    LeadingUpTo(msgs, i);
    if i == |msgs| { assert msgs[..i] == msgs; }
  }

  function SaturatingAdd(a: nat, b: nat): nat { if a + b > U64_MAX then U64_MAX else a + b }

  function Saturated(n: nat): nat { if n > U64_MAX then U64_MAX else n }

  /** The complaint about a message that is not a chunk, after the header. */
  function Defect(m: Incoming): ImportError {
    if m.Broken? then Transport else if IsHeader(m) then HeaderOnlyOnce else EmptyMessage
  }

  /** The receiving loop: every chunk goes to the staging file; anything else ends the import. */
  method ReceiveChunks(disk: Disk, staging: Path, msgs: seq<Incoming>) returns (r: Result<nat, ImportError>)
    requires staging in disk.nodes && disk.nodes[staging] == File([])
    modifies disk
    ensures disk.nodes == old(disk.nodes)[staging := File(Flatten(LeadingChunks(msgs)))]
    ensures r.Ok? <==> AllChunks(msgs)
    ensures r.Ok? ==> r.value == Saturated(|Flatten(LeadingChunks(msgs))|)
    ensures r.Err? ==> |LeadingChunks(msgs)| < |msgs| && r.error == Defect(msgs[|LeadingChunks(msgs)|])
    ensures r.Err? ==> AllChunks(msgs[..|LeadingChunks(msgs)|]) && !IsChunk(msgs[|LeadingChunks(msgs)|])
  {
    var written: nat := 0;
    var i := 0;
    while i < |msgs|
      invariant i <= |msgs| && AllChunks(msgs[..i])
      invariant disk.nodes == old(disk.nodes)[staging := File(Flatten(LeadingChunks(msgs[..i])))]
      invariant written == Saturated(|Flatten(LeadingChunks(msgs[..i]))|)
    {
      var m := msgs[i];
      if !IsChunk(m) {
        ChunksStop(msgs, i);
        return Err(if m.Broken? then Transport else if m.payload.None? then EmptyMessage else HeaderOnlyOnce);
      }
      OneMoreChunk(msgs, i);
      var data := m.payload.value.data;
      disk.Append(staging, data);
      written := SaturatingAdd(written, |data|);
      i := i + 1;
    }
    ChunksStop(msgs, i);
    return Ok(written);
  }

  // ---- what an import does to the filesystem ----

  /** The workspace home and the directory of the target exist afterwards. */
  function Prepared(fs: Fs, home: Path, target: Path): Fs {
    WithDirs(WithDirs(fs, home), Parent(target))
  }

  predicate CanPrepare(fs: Fs, home: Path, target: Path) {
    DirsPossible(fs, home) && DirsPossible(WithDirs(fs, home), Parent(target))
  }

  /** The installed object, in a prepared filesystem. */
  ghost function Installed(prepared: Fs, target: Path, encoding: Encoding, body: Bytes, decode: Bytes -> seq<TarItem>): Option<Fs> {
    match encoding
    case Raw => Some(Without(prepared, target)[target := File(body)])
    case TarGz =>
      var extracted := Extracted(decode(body));
      if extracted.None? then None else Some(Without(prepared, target) + Graft(target, Unwrapped(extracted.value)))
    case Unspecified => None
  }

  /** The whole effect of a well-formed import with this header and body, or nothing when it is refused. */
  ghost function Imported(fs: Fs, root: Path, header: Header, body: Bytes, decode: Bytes -> seq<TarItem>): Option<Fs> {
    var home, resolved := Home(root, header.workspaceId), ResolvePath(root, header.workspaceId, header.targetPath);
    if resolved.Err? || !CanPrepare(fs, home, resolved.value) then None
    else Installed(Prepared(fs, home, resolved.value), resolved.value, header.encoding, body, decode)
  }

  /** `name` can be used for a temporary file beside the target: nobody uses it. */
  ghost predicate FreshName(fs: Fs, target: Path, name: Name) {
    ValidName(name) && name !in target && forall q :: q in fs ==> name !in q
  }

  // ---- facts about prepared filesystems ----

  lemma {:induction false} CleanKeepsNames(stack: Path, parts: seq<string>)
    requires ValidNames(stack)
    requires forall i :: 0 <= i < |parts| ==> parts[i] == ".." || ValidName(parts[i])
    ensures ValidNames(CleanOnto(stack, parts))
    decreases |parts|
  {
    if parts != [] {
      CleanKeepsNames(if parts[0] == ".." then Parent(stack) else stack + [parts[0]], parts[1..]);
    }
  }

  lemma PartsAreNames(path: string)
    ensures forall i :: 0 <= i < |Parts(path)| ==> Parts(path)[i] == ".." || ValidName(Parts(path)[i])
  {
    forall i | 0 <= i < |Parts(path)|
      ensures Parts(path)[i] == ".." || ValidName(Parts(path)[i])
    {
      var n := Parts(path)[i];
      DropDotsKeeps(Split(path), n);
      var j :| 0 <= j < |Split(path)| && Split(path)[j] == n;
      PiecesHaveNoSlash(path, j);
    }
  }

  /** Whatever text a client sends, an accepted path consists of proper names. */
  lemma ResolvedNames(root: Path, id: string, relative: string)
    requires ValidNames(root) && ResolvePath(root, id, relative).Ok?
    ensures ValidNames(ResolvePath(root, id, relative).value)
  {
    HomeNames(root, id);
    PartsAreNames(relative);
    CleanKeepsNames([], Join(Home(root, id), relative));
  }

  lemma PreparedShape(fs: Fs, home: Path, target: Path)
    requires TreeShaped(fs) && ValidNames(home) && ValidNames(target) && CanPrepare(fs, home, target)
    ensures TreeShaped(Prepared(fs, home, target)) && IsDir(Prepared(fs, home, target), Parent(target))
  {
    WithDirsShape(fs, home);
    WithDirsShape(WithDirs(fs, home), Parent(target));
  }

  lemma PreparedAt(fs: Fs, home: Path, target: Path, q: Path)
    ensures q in Prepared(fs, home, target) <==> q in fs || q <= home || q <= Parent(target)
    ensures q in fs ==> Prepared(fs, home, target)[q] == fs[q]
    ensures q in Prepared(fs, home, target) && q !in fs ==> Prepared(fs, home, target)[q] == Dir
  {
    WithDirsAt(fs, home, q);
    WithDirsAt(WithDirs(fs, home), Parent(target), q);
  }

  lemma StillFresh(fs: Fs, home: Path, target: Path, name: Name)
    requires FreshName(fs, target, name) && home <= target && target != []
    ensures NothingAt(Prepared(fs, home, target), Parent(target) + [name])
    ensures Siblings(Parent(target) + [name], target)
  {
    var p := Parent(target) + [name];
    assert target == Parent(target) + [target[|target| - 1]];
    forall q | q in Prepared(fs, home, target)
      ensures !(p <= q)
    {
      PreparedAt(fs, home, target, q);
      assert q <= home ==> q <= target;
      assert q <= Parent(target) ==> q <= target;
      PrefixElements(q, target, name);
      assert p[|p| - 1] == name;
      PrefixElements(p, q, name);
    }
  }

  lemma GraftNothing(base: Fs, p: Path)
    ensures base + Graft(p, map[]) == base
  {
    assert Graft(p, map[]) == map[];
  }

  lemma OneNode(base: Fs, p: Path, n: Node)
    ensures base + Graft(p, map[[] := n]) == base[p := n]
  {
    GraftNothing(base, p);
    GraftUpdate(base, p, map[], [], n);
    assert p + [] == p;
  }

  /** A file at a free name beside the target keeps the tree a tree. */
  lemma Staged(fs: Fs, staging: Path, target: Path, data: Bytes)
    requires TreeShaped(fs) && ValidNames(staging) && NothingAt(fs, staging) && Siblings(staging, target)
    requires IsDir(fs, Parent(target))
    ensures var x := fs[staging := File(data)];
            && TreeShaped(x) && IsFile(x, staging) && IsDir(x, Parent(target))
            && Without(x, staging) == fs
            && Without(Without(x, target), staging) == Without(fs, target)
  {
    UpdateShape(fs, staging, File(data));
    SiblingsApart(staging, target);
    assert Parent(target) != staging;
  }

  lemma NotBlocked(fs: Fs, target: Path)
    requires TreeShaped(fs) && IsDir(fs, Parent(target))
    ensures !Metadata(fs, target).Blocked?
  {
    forall i | 0 <= i < |target|
      ensures !IsFile(fs, target[..i])
    {
      assert target[..i] == Parent(target)[..i];
      if i < |Parent(target)| { AncestorsAreDirs(fs, Parent(target), i); }
      assert i == |Parent(target)| ==> target[..i] == Parent(target);
    }
  }

  // ---- putting the staged data in place ----

  lemma FileMoves(fs: Fs, staging: Path, target: Path)
    requires TreeShaped(fs) && IsFile(fs, staging) && Siblings(staging, target)
    ensures var y := Without(fs, target);
            && staging in y && y[staging] == fs[staging] && NothingAt(y, target) && !(staging <= target)
            && Without(y, staging) + Graft(target, Subtree(y, staging))
               == Without(Without(fs, target), staging)[target := fs[staging]]
  {
    SiblingsApart(staging, target);
    WithoutShape(fs, target);
    SubtreeRooted(Without(fs, target), staging);
    OneNode(Without(Without(fs, target), staging), target, fs[staging]);
  }

  /** `replace_workspace_file_from_staging`: whatever stood at the target, even a directory, gives way to the file. */
  method ReplaceFileFromStaging(disk: Disk, staging: Path, target: Path) returns (r: Result<(), IoError>)
    requires TreeShaped(disk.nodes) && IsFile(disk.nodes, staging) && Siblings(staging, target)
    requires IsDir(disk.nodes, Parent(target))
    modifies disk
    ensures r.Ok?
    ensures disk.nodes ==
              Without(Without(old(disk.nodes), target), staging)[target := old(disk.nodes)[staging]]
  {
    ghost var fs := disk.nodes;
    ExistingDir(fs, Parent(target));
    var made := disk.CreateDirAll(Parent(target));
    NotBlocked(fs, target);
    if target !in disk.nodes { AbsentMeansNothing(fs, target); }
    r := RemovePathIfExists(disk, target);
    assert disk.nodes == Without(fs, target);
    FileMoves(fs, staging, target);
    SiblingsApart(staging, target);
    assert !(target <= Parent(target));
    disk.Rename(staging, target);
  }

  /** `replace_workspace_directory_from_archive_path`. */
  method ReplaceDirectoryFromArchive(disk: Disk, decode: Bytes -> seq<TarItem>, staging: Path, extraction: Path, target: Path)
    returns (r: Result<(), ArchiveError>)
    requires TreeShaped(disk.nodes) && IsFile(disk.nodes, staging) && IsDir(disk.nodes, Parent(target))
    requires Neighbours(staging, extraction, target) && NothingAt(disk.nodes, extraction)
    modifies disk
    ensures var items := decode(old(disk.nodes)[staging].data);
            && (r.Ok? <==> Extracted(items).Some?)
            && (r.Ok? ==> disk.nodes == Without(Without(old(disk.nodes), target), staging)
                                        + Graft(target, Unwrapped(Extracted(items).value)))
    ensures r.Err? ==>
              disk.nodes == old(disk.nodes) + Graft(extraction, ExtractedUntil(decode(old(disk.nodes)[staging].data)))
    ensures r.Err? ==> Without(disk.nodes, extraction) == old(disk.nodes)
    ensures r.Err? ==> exists i :: StopsAt(decode(old(disk.nodes)[staging].data), i, r.error)
  {
    ExistingDir(disk.nodes, Parent(target));
    var made := disk.CreateDirAll(Parent(target));
    AbsentIsKept(disk.nodes, extraction);
    assert extraction <= extraction;
    r := ExtractArchiveAndReplace(disk, decode, staging, extraction, target);
  }

  // ---- the whole import ----

  /** Everything is in place for the staged data to replace the target. */
  ghost predicate ReadyToInstall(prepared: Fs, staging: Path, extraction: Path, target: Path) {
    && TreeShaped(prepared) && IsDir(prepared, Parent(target)) && ValidNames(staging)
    && NothingAt(prepared, staging) && NothingAt(prepared, extraction) && Neighbours(staging, extraction, target)
  }

  /** What receiving `msgs` and installing them makes of a prepared filesystem, accepted or refused. */
  ghost function Settled(prepared: Fs, encoding: Encoding, msgs: seq<Incoming>, decode: Bytes -> seq<TarItem>,
                         staging: Path, extraction: Path, target: Path): Fs
  {
    var body := Flatten(LeadingChunks(msgs));
    if !AllChunks(msgs) then prepared[staging := File(body)]
    else if Installed(prepared, target, encoding, body, decode).Some?
      then Installed(prepared, target, encoding, body, decode).value
    else if encoding.TarGz?
      then prepared[staging := File(body)] + Graft(extraction, ExtractedUntil(decode(body)))
    else prepared
  }

  lemma NoStagingLeft(base: Fs, staging: Path, target: Path, n: Node)
    requires NothingAt(base, staging) && Siblings(staging, target)
    ensures staging !in base[target := n]
  {
    SiblingsApart(staging, target);
    assert staging !in base;
  }

  lemma NoStagingInTree(base: Fs, staging: Path, target: Path, u: Fs)
    requires NothingAt(base, staging) && Siblings(staging, target)
    ensures staging !in base + Graft(target, u)
  {
    SiblingsApart(staging, target);
    NothingAtGraft(base, target, u, staging);
    assert staging <= staging;
  }

  lemma TempsAbsent(prepared: Fs, staging: Path, extraction: Path, data: Bytes)
    requires NothingAt(prepared, staging) && NothingAt(prepared, extraction) && Siblings(staging, extraction)
    ensures NothingAt(prepared[staging := File(data)], extraction)
    ensures Without(Without(prepared, extraction), staging) == prepared
  {
    SiblingsApart(staging, extraction);
  }

  /** The complaint of an archive import: about the entry its extraction stops at. */
  ghost predicate BlamesEntry(items: seq<TarItem>, error: ImportError) {
    error.BadArchive? && exists i :: StopsAt(items, i, error.archive)
  }

  method InstallArchive(disk: Disk, decode: Bytes -> seq<TarItem>, staging: Path, extraction: Path,
                        target: Path, ghost prepared: Fs, ghost body: Bytes)
    returns (r: Result<(), ImportError>)
    requires ReadyToInstall(prepared, staging, extraction, target)
    requires disk.nodes == prepared[staging := File(body)]
    modifies disk
    ensures r.Ok? <==> Extracted(decode(body)).Some?
    ensures r.Ok? ==> disk.nodes == Without(prepared, target) + Graft(target, Unwrapped(Extracted(decode(body)).value))
    ensures r.Err? ==> disk.nodes == prepared[staging := File(body)] + Graft(extraction, ExtractedUntil(decode(body)))
    ensures r.Err? ==> Without(Without(disk.nodes, extraction), staging) == prepared
    ensures staging in disk.nodes <==> r.Err?
    ensures r.Err? ==> BlamesEntry(decode(body), r.error)
  {
    Staged(prepared, staging, target, body);
    TempsAbsent(prepared, staging, extraction, body);
    var replaced := ReplaceDirectoryFromArchive(disk, decode, staging, extraction, target);
    if replaced.Err? {
      assert staging in Without(disk.nodes, extraction);
      return Err(BadArchive(replaced.error));
    }
    NoStagingInTree(Without(prepared, target), staging, target, Unwrapped(Extracted(decode(body)).value));
    return Ok(());
  }

  method InstallFile(disk: Disk, staging: Path, target: Path, ghost prepared: Fs, ghost body: Bytes)
    requires TreeShaped(prepared) && IsDir(prepared, Parent(target)) && ValidNames(staging)
    requires NothingAt(prepared, staging) && Siblings(staging, target)
    requires disk.nodes == prepared[staging := File(body)]
    modifies disk
    ensures disk.nodes == Without(prepared, target)[target := File(body)] && staging !in disk.nodes
  {
    Staged(prepared, staging, target, body);
    var replaced := ReplaceFileFromStaging(disk, staging, target);
    NoStagingLeft(Without(prepared, target), staging, target, File(body));
  }

  /** The last part of an import: the staged data replaces the target as its encoding says. */
  method Install(disk: Disk, encoding: Encoding, decode: Bytes -> seq<TarItem>, staging: Path, extraction: Path,
                 target: Path, ghost prepared: Fs, ghost body: Bytes)
    returns (r: Result<(), ImportError>)
    requires ReadyToInstall(prepared, staging, extraction, target)
    requires disk.nodes == prepared[staging := File(body)]
    modifies disk
    ensures r.Ok? <==> Installed(prepared, target, encoding, body, decode).Some?
    ensures r.Ok? ==> disk.nodes == Installed(prepared, target, encoding, body, decode).value
    ensures r.Err? ==> Without(Without(disk.nodes, extraction), staging) == prepared
    ensures staging in disk.nodes <==> encoding.TarGz? && Extracted(decode(body)).None?
    ensures encoding.Unspecified? ==> r == Err(EncodingRequired) && disk.nodes == prepared
    ensures r.Err? && encoding.TarGz? ==>
              disk.nodes == prepared[staging := File(body)] + Graft(extraction, ExtractedUntil(decode(body)))
    ensures r.Err? && encoding.TarGz? ==> BlamesEntry(decode(body), r.error)
  {
    match encoding {
      case Raw =>
        InstallFile(disk, staging, target, prepared, body);
      case TarGz =>
        var installed := InstallArchive(disk, decode, staging, extraction, target, prepared, body);
        if installed.Err? {
          return installed;
        }
      case Unspecified =>
        CanStage(prepared, staging, extraction, target, body);
        TempsAbsent(prepared, staging, extraction, body);
        disk.TryRemoveFile(staging);
        RemovedAgain(prepared, staging, File(body));
        return Err(EncodingRequired);
    }
    disk.TryRemoveFile(staging);
    return Ok(());
  }

  lemma RemovedAgain(fs: Fs, p: Path, n: Node)
    requires NothingAt(fs, p)
    ensures Without(fs[p := n], p) == fs && p !in fs
  {
    assert p <= p;
  }

  lemma TempNames(target: Path, stagingName: Name, extractionName: Name)
    requires target != [] && stagingName != extractionName
    requires Siblings(Parent(target) + [stagingName], target) && Siblings(Parent(target) + [extractionName], target)
    requires ValidNames(target) && ValidName(stagingName)
    ensures Neighbours(Parent(target) + [stagingName], Parent(target) + [extractionName], target)
    ensures ValidNames(Parent(target) + [stagingName])
  {
    assert (Parent(target) + [stagingName])[|target| - 1] == stagingName;
    assert (Parent(target) + [extractionName])[|target| - 1] == extractionName;
  }

  lemma ReadyWhenFresh(fs: Fs, root: Path, header: Header, target: Path, stagingName: Name, extractionName: Name)
    requires TreeShaped(fs) && ValidNames(root) && CanPrepare(fs, Home(root, header.workspaceId), target)
    requires ResolvePath(root, header.workspaceId, header.targetPath) == Ok(target)
    requires FreshName(fs, target, stagingName) && FreshName(fs, target, extractionName) && stagingName != extractionName
    ensures target != [] && ReadyToInstall(Prepared(fs, Home(root, header.workspaceId), target),
                                           Parent(target) + [stagingName], Parent(target) + [extractionName], target)
  {
    HomeNames(root, header.workspaceId);
    ResolvedNames(root, header.workspaceId, header.targetPath);
    assert |Home(root, header.workspaceId)| <= |target|;
    PreparedShape(fs, Home(root, header.workspaceId), target);
    StillFresh(fs, Home(root, header.workspaceId), target, stagingName);
    StillFresh(fs, Home(root, header.workspaceId), target, extractionName);
    TempNames(target, stagingName, extractionName);
  }

  /** The two temporary names are used by nobody, if the target is known. */
  ghost predicate FreshFor(fs: Fs, root: Path, header: Header, stagingName: Name, extractionName: Name) {
    var resolved := ResolvePath(root, header.workspaceId, header.targetPath);
    stagingName != extractionName &&
    (resolved.Ok? ==> FreshName(fs, resolved.value, stagingName) && FreshName(fs, resolved.value, extractionName))
  }

  /** The temporary names of this import, when it gets as far as needing them, are used by nobody. */
  ghost predicate FreshTemps(fs: Fs, root: Path, stream: seq<Incoming>, stagingName: Name, extractionName: Name) {
    stream != [] && IsHeader(stream[0]) ==> FreshFor(fs, root, stream[0].payload.value.header, stagingName, extractionName)
  }

  function Letters(n: nat): (name: Name)
    ensures |name| == n && forall i :: 0 <= i < n ==> name[i] == 'x'
  {
    seq(n, _ => 'x')
  }

  lemma {:induction false} LongestIn(names: seq<Name>) returns (n: nat)
    ensures forall m :: m in names ==> |m| <= n
  {
    if |names| == 0 {
      n := 0;
    } else {
      n := LongestIn(names[1..]);
      n := if |names[0]| > n then |names[0]| else n;
    }
  }

  lemma {:induction false} LongestName(paths: set<Path>) returns (n: nat)
    ensures forall q, m :: q in paths && m in q ==> |m| <= n
  {
    if paths == {} {
      n := 0;
    } else {
      var p :| p in paths;
      var a := LongestName(paths - {p});
      var b := LongestIn(p);
      n := if a > b then a else b;
      forall q, m | q in paths && m in q
        ensures |m| <= n
      {
        assert q != p ==> q in paths - {p};
      }
    }
  }

  lemma LongNameIsFresh(fs: Fs, target: Path, n: nat, longest: nat)
    requires n > longest && n > 2 && forall q, m :: q in fs.Keys + {target} && m in q ==> |m| <= longest
    ensures FreshName(fs, target, Letters(n))
  {
    var name := Letters(n);
    assert name[0] == 'x';
    assert target in fs.Keys + {target};
    forall q | q in fs
      ensures name !in q
    {
      assert q in fs.Keys + {target};
    }
  }

  /** Whatever the filesystem holds and whatever is sent, there are two names that nobody uses. */
  lemma FreshNamesExist(fs: Fs, root: Path, stream: seq<Incoming>) returns (stagingName: Name, extractionName: Name)
    ensures FreshTemps(fs, root, stream, stagingName, extractionName)
  {
    var target: Path := [];
    if stream != [] && IsHeader(stream[0]) {
      var header := stream[0].payload.value.header;
      var resolved := ResolvePath(root, header.workspaceId, header.targetPath);
      if resolved.Ok? { target := resolved.value; }
    }
    var longest := LongestName(fs.Keys + {target});
    stagingName, extractionName := Letters(longest + 3), Letters(longest + 4);
    LongNameIsFresh(fs, target, longest + 3, longest);
    LongNameIsFresh(fs, target, longest + 4, longest);
  }

  predicate OnTheWay(root: Path, header: Header, q: Path) {
    var resolved := ResolvePath(root, header.workspaceId, header.targetPath);
    q <= Home(root, header.workspaceId) || (resolved.Ok? && q <= Parent(resolved.value))
  }

  predicate InTemp(root: Path, header: Header, name: Name, q: Path) {
    var resolved := ResolvePath(root, header.workspaceId, header.targetPath);
    resolved.Ok? && Parent(resolved.value) + [name] <= q
  }

  /** A refused import changed no node that was there; it may have left temporary files and the directories on the way. */
  ghost predicate OnlyLeftovers(fs: Fs, after: Fs, root: Path, header: Header, stagingName: Name, extractionName: Name) {
    && (forall q :: q in fs ==> q in after && after[q] == fs[q])
    && (forall q :: q in after && q !in fs ==>
          || InTemp(root, header, stagingName, q) || InTemp(root, header, extractionName, q)
          || (after[q].Dir? && OnTheWay(root, header, q)))
  }

  lemma PreparedLeaves(fs: Fs, after: Fs, root: Path, header: Header, target: Path, stagingName: Name, extractionName: Name)
    requires ResolvePath(root, header.workspaceId, header.targetPath) == Ok(target)
    requires Without(Without(after, Parent(target) + [extractionName]), Parent(target) + [stagingName])
             == Prepared(fs, Home(root, header.workspaceId), target)
    ensures OnlyLeftovers(fs, after, root, header, stagingName, extractionName)
  {
    var home := Home(root, header.workspaceId);
    var staging, extraction := Parent(target) + [stagingName], Parent(target) + [extractionName];
    var prepared := Without(Without(after, extraction), staging);
    forall q
      ensures q in fs ==> q in after && after[q] == fs[q]
      ensures q in after && q !in fs ==>
                || InTemp(root, header, stagingName, q) || InTemp(root, header, extractionName, q)
                || (after[q].Dir? && OnTheWay(root, header, q))
    {
      PreparedAt(fs, home, target, q);
      assert q in prepared <==> q in after && !(extraction <= q) && !(staging <= q);
    }
  }

  lemma TargetIsNoTemp(root: Path, header: Header, target: Path, name: Name, r: Path)
    requires ResolvePath(root, header.workspaceId, header.targetPath) == Ok(target) && target != [] && name !in target
    ensures !InTemp(root, header, name, target + r)
  {
    assert target[|target| - 1] in target;
    assert (Parent(target) + [name])[|target| - 1] == name && (target + r)[|target| - 1] == target[|target| - 1];
  }

  lemma TargetOnTheWay(root: Path, header: Header, target: Path, r: Path)
    requires ResolvePath(root, header.workspaceId, header.targetPath) == Ok(target)
    ensures target != []
    ensures OnTheWay(root, header, target + r) ==> target + r == target == Home(root, header.workspaceId)
  {
    assert |Home(root, header.workspaceId)| <= |target|;
    assert |target| <= |target + r|;
  }

  /** So what stood at the target still stands there, and where nothing stood nothing does. */
  lemma RefusedKeepsTarget(fs: Fs, after: Fs, root: Path, header: Header, target: Path, stagingName: Name, extractionName: Name)
    requires ResolvePath(root, header.workspaceId, header.targetPath) == Ok(target)
    requires FreshName(fs, target, stagingName) && FreshName(fs, target, extractionName)
    requires OnlyLeftovers(fs, after, root, header, stagingName, extractionName)
    requires target in fs || target != Home(root, header.workspaceId)
    ensures Subtree(after, target) == Subtree(fs, target)
  {
    forall r
      ensures target + r in after <==> target + r in fs
      ensures target + r in fs ==> after[target + r] == fs[target + r]
    {
      TargetOnTheWay(root, header, target, r);
      TargetIsNoTemp(root, header, target, stagingName, r);
      TargetIsNoTemp(root, header, target, extractionName, r);
    }
    SameSubtree(after, target, fs, target);
  }

  lemma HomeLeaves(fs: Fs, root: Path, header: Header, stagingName: Name, extractionName: Name)
    ensures OnlyLeftovers(fs, WithDirs(fs, Home(root, header.workspaceId)), root, header, stagingName, extractionName)
  {
    forall q
      ensures q in fs ==> WithDirs(fs, Home(root, header.workspaceId))[q] == fs[q]
      ensures q in WithDirs(fs, Home(root, header.workspaceId)) && q !in fs ==>
                WithDirs(fs, Home(root, header.workspaceId))[q].Dir? && OnTheWay(root, header, q)
    {
      WithDirsAt(fs, Home(root, header.workspaceId), q);
    }
  }

  /** `ensure_home`: the id is checked, then the home is there. */
  method EnsureHome(disk: Disk, root: Path, id: string) returns (r: Result<(), ImportError>)
    modifies disk
    ensures r.Ok? <==> ValidWorkspaceId(id) && DirsPossible(old(disk.nodes), Home(root, id))
    ensures disk.nodes == if r.Ok? then WithDirs(old(disk.nodes), Home(root, id)) else old(disk.nodes)
    ensures !ValidWorkspaceId(id) ==> r == Err(BadPath(InvalidWorkspaceId))
    ensures r.Err? && ValidWorkspaceId(id) ==>
              r.error == Io(if IsFile(old(disk.nodes), Home(root, id)) then AlreadyExists else NotADirectory)
  {
    if !ValidWorkspaceId(id) {
      return Err(BadPath(InvalidWorkspaceId));
    }
    var made := disk.CreateDirAll(Home(root, id));
    if made.Err? {
      return Err(Io(made.error));
    }
    return Ok(());
  }

  /** The complaint about a stream that does not start with a header. */
  function FirstDefect(stream: seq<Incoming>): ImportError
    requires stream == [] || !IsHeader(stream[0])
  {
    if stream == [] then HeaderRequired
    else if stream[0].Broken? then Transport
    else if stream[0].payload.None? then FirstEmpty
    else HeaderMustBeFirst
  }

  lemma CanStage(prepared: Fs, staging: Path, extraction: Path, target: Path, data: Bytes)
    requires ReadyToInstall(prepared, staging, extraction, target)
    ensures staging !in prepared && staging != [] && IsDir(prepared, Parent(staging))
    ensures Without(Without(prepared[staging := File(data)], extraction), staging) == prepared
  {
    assert staging <= staging;
    Staged(prepared, staging, target, data);
    TempsAbsent(prepared, staging, extraction, data);
    AbsentIsKept(prepared[staging := File(data)], extraction);
  }

  lemma UpdateTwice(fs: Fs, p: Path, m: Node, n: Node)
    ensures fs[p := m][p := n] == fs[p := n]
  {
  }

  lemma AbsentIsKept(fs: Fs, p: Path)
    requires NothingAt(fs, p)
    ensures Without(fs, p) == fs
  {
  }

  predicate HomePossible(fs: Fs, root: Path, header: Header) {
    ValidWorkspaceId(header.workspaceId) && DirsPossible(fs, Home(root, header.workspaceId))
  }

  /** The complaint when the directories of an import cannot be made: the first thing that stands in the way. */
  ghost predicate BlamesPath(fs: Fs, root: Path, header: Header, error: ImportError) {
    var home, resolved := root + [header.workspaceId, "home"], ResolvePath(root, header.workspaceId, header.targetPath);
    if !ValidWorkspaceId(header.workspaceId) then error == BadPath(InvalidWorkspaceId)
    else if !DirsPossible(fs, home) then error == Io(if IsFile(fs, home) then AlreadyExists else NotADirectory)
    else if resolved.Err? then error == BadPath(PathEscape(header.targetPath))
    else error == Io(if IsFile(WithDirs(fs, home), Parent(resolved.value)) then AlreadyExists else NotADirectory)
  }

  /** The complaint about what follows the header: the first message that is no chunk, the encoding, or an entry. */
  ghost predicate BlamesBody(encoding: Encoding, msgs: seq<Incoming>, decode: Bytes -> seq<TarItem>, error: ImportError) {
    if AllChunks(msgs) then
      match encoding
      case Raw => false
      case TarGz => BlamesEntry(decode(Flatten(LeadingChunks(msgs))), error)
      case Unspecified => error == EncodingRequired
    else exists i :: BlamesMessage(msgs, i, error)
  }

  predicate BlamesMessage(msgs: seq<Incoming>, i: nat, error: ImportError) {
    && i < |msgs| && AllChunks(msgs[..i])
    && match msgs[i]
       case Broken => error == Transport
       case Message(None) => error == EmptyMessage
       case Message(Some(HeaderMessage(_))) => error == HeaderOnlyOnce
       case Message(Some(Chunk(_))) => false
  }

  /** The directories of an import: the home, then the directory of the target it resolves to. */
  method PrepareTarget(disk: Disk, root: Path, header: Header) returns (r: Result<Path, ImportError>)
    modifies disk
    ensures var home, resolved := Home(root, header.workspaceId), ResolvePath(root, header.workspaceId, header.targetPath);
            && (r.Ok? <==> resolved.Ok? && CanPrepare(old(disk.nodes), home, resolved.value))
            && (r.Ok? ==> r.value == resolved.value && disk.nodes == Prepared(old(disk.nodes), home, r.value))
            && (r.Err? ==> disk.nodes == if HomePossible(old(disk.nodes), root, header) then WithDirs(old(disk.nodes), home)
                                         else old(disk.nodes))
            && (r.Err? ==> BlamesPath(old(disk.nodes), root, header, r.error))
  {
    var home := EnsureHome(disk, root, header.workspaceId);
    if home.Err? {
      return Err(home.error);
    }
    var resolved := ResolvePath(root, header.workspaceId, header.targetPath);
    if resolved.Err? {
      return Err(BadPath(resolved.error));
    }
    var made := disk.CreateDirAll(Parent(resolved.value));
    if made.Err? {
      return Err(Io(made.error));
    }
    return Ok(resolved.value);
  }

  /** What the rest of the import does once the directories are there: stage the chunks, then install them. */
  method StageAndInstall(disk: Disk, decode: Bytes -> seq<TarItem>, encoding: Encoding, msgs: seq<Incoming>,
                         staging: Path, extraction: Path, target: Path)
    returns (r: Result<nat, ImportError>)
    requires ReadyToInstall(disk.nodes, staging, extraction, target)
    modifies disk
    ensures var body := Flatten(LeadingChunks(msgs));
            && (r.Ok? <==> AllChunks(msgs) && Installed(old(disk.nodes), target, encoding, body, decode).Some?)
            && (r.Ok? ==> r.value == Saturated(|body|))
            && (r.Ok? ==> disk.nodes == Installed(old(disk.nodes), target, encoding, body, decode).value)
    ensures !AllChunks(msgs) ==>
              && |LeadingChunks(msgs)| < |msgs| && r == Err(Defect(msgs[|LeadingChunks(msgs)|]))
              && disk.nodes == old(disk.nodes)[staging := File(Flatten(LeadingChunks(msgs)))]
    ensures r.Err? ==> Without(Without(disk.nodes, extraction), staging) == old(disk.nodes)
    ensures staging in disk.nodes <==>
              !AllChunks(msgs) || (encoding.TarGz? && Extracted(decode(Flatten(LeadingChunks(msgs)))).None?)
    ensures AllChunks(msgs) && encoding.Unspecified? ==> r == Err(EncodingRequired) && disk.nodes == old(disk.nodes)
    ensures disk.nodes == Settled(old(disk.nodes), encoding, msgs, decode, staging, extraction, target)
    ensures r.Err? ==> BlamesBody(encoding, msgs, decode, r.error)
  {
    ghost var prepared, body := disk.nodes, Flatten(LeadingChunks(msgs));
    CanStage(prepared, staging, extraction, target, body);
    disk.CreateFile(staging);
    var received := ReceiveChunks(disk, staging, msgs);
    UpdateTwice(prepared, staging, File([]), File(body));
    if received.Err? {
      assert BlamesMessage(msgs, |LeadingChunks(msgs)|, received.error);
      return received;
    }
    var installed := Install(disk, encoding, decode, staging, extraction, target, prepared, body);
    if installed.Err? {
      return Err(installed.error);
    }
    return received;
  }

  /** The target is known and can be reached. */
  predicate Reaches(fs: Fs, root: Path, header: Header, target: Path) {
    && ResolvePath(root, header.workspaceId, header.targetPath) == Ok(target)
    && CanPrepare(fs, Home(root, header.workspaceId), target)
  }

  /** What an import does to the filesystem once its header has arrived, whatever follows. */
  ghost function AfterHeader(fs: Fs, root: Path, header: Header, msgs: seq<Incoming>, decode: Bytes -> seq<TarItem>,
                             stagingName: Name, extractionName: Name): Fs
  {
    var home, resolved := Home(root, header.workspaceId), ResolvePath(root, header.workspaceId, header.targetPath);
    if !HomePossible(fs, root, header) then fs
    else if resolved.Err? || !Reaches(fs, root, header, resolved.value) then WithDirs(fs, home)
    else
      var parent := Parent(resolved.value);
      Settled(Prepared(fs, home, resolved.value), header.encoding, msgs, decode,
              parent + [stagingName], parent + [extractionName], resolved.value)
  }

  /** The whole effect of an import on the filesystem, whatever arrives and whether it is accepted or refused. */
  ghost function AfterImport(fs: Fs, root: Path, stream: seq<Incoming>, decode: Bytes -> seq<TarItem>,
                             stagingName: Name, extractionName: Name): Fs
  {
    if stream == [] || !IsHeader(stream[0]) then fs
    else AfterHeader(fs, root, stream[0].payload.value.header, stream[1..], decode, stagingName, extractionName)
  }

  lemma ReachedIsSettled(fs: Fs, root: Path, header: Header, target: Path, msgs: seq<Incoming>,
                         decode: Bytes -> seq<TarItem>, stagingName: Name, extractionName: Name)
    requires Reaches(fs, root, header, target)
    ensures AfterHeader(fs, root, header, msgs, decode, stagingName, extractionName)
            == Settled(Prepared(fs, Home(root, header.workspaceId), target), header.encoding, msgs, decode,
                       Parent(target) + [stagingName], Parent(target) + [extractionName], target)
  {
  }

  /** The complaint of an import refused after its header. */
  ghost predicate RefusedFor(fs: Fs, root: Path, header: Header, msgs: seq<Incoming>, decode: Bytes -> seq<TarItem>,
                             error: ImportError)
  {
    var resolved := ResolvePath(root, header.workspaceId, header.targetPath);
    if resolved.Ok? && Reaches(fs, root, header, resolved.value) then BlamesBody(header.encoding, msgs, decode, error)
    else BlamesPath(fs, root, header, error)
  }

  /** `do_import_workspace_object`. */
  method DoImportWorkspaceObject(disk: Disk, root: Path, stream: seq<Incoming>, decode: Bytes -> seq<TarItem>,
                                 stagingName: Name, extractionName: Name)
    returns (r: Result<nat, ImportError>)
    requires TreeShaped(disk.nodes) && ValidNames(root)
    requires FreshTemps(disk.nodes, root, stream, stagingName, extractionName)
    modifies disk
    ensures r.Ok? <==>
              && HeaderThenChunks(stream)
              && Imported(old(disk.nodes), root, stream[0].payload.value.header, Body(stream), decode).Some?
    ensures r.Ok? ==> r.value == Saturated(|Body(stream)|)
    ensures stream == [] || !IsHeader(stream[0]) ==> r == Err(FirstDefect(stream))
    ensures stream != [] && IsHeader(stream[0]) && r.Err? ==>
              RefusedFor(old(disk.nodes), root, stream[0].payload.value.header, stream[1..], decode, r.error)
    ensures disk.nodes == AfterImport(old(disk.nodes), root, stream, decode, stagingName, extractionName)
  {
    ghost var fs := disk.nodes;
    if stream == [] {
      return Err(HeaderRequired);
    }
    if !IsHeader(stream[0]) {
      return Err(if stream[0].Broken? then Transport else if stream[0].payload.None? then FirstEmpty else HeaderMustBeFirst);
    }
    var header := stream[0].payload.value.header;
    var ready := PrepareTarget(disk, root, header);
    if ready.Err? {
      return Err(ready.error);
    }
    var target := ready.value;
    ReadyWhenFresh(fs, root, header, target, stagingName, extractionName);
    ReachedIsSettled(fs, root, header, target, stream[1..], decode, stagingName, extractionName);
    r := StageAndInstall(disk, decode, header.encoding, stream[1..],
                         Parent(target) + [stagingName], Parent(target) + [extractionName], target);
  }

  // ---- the filesystem after any import ----

  lemma UnwrappedShape(t: Fs)
    requires TreeShaped(t)
    ensures TreeShaped(Unwrapped(t))
  {
    if n :| SingleDir(t, n) {
      UnwrappedSingle(t, n);
      SubtreeRooted(t, [n]);
    } else {
      NotSingle(t);
    }
  }

  lemma InstalledShape(prepared: Fs, target: Path, encoding: Encoding, body: Bytes, decode: Bytes -> seq<TarItem>)
    requires TreeShaped(prepared) && target != [] && ValidNames(target) && IsDir(prepared, Parent(target))
    requires Installed(prepared, target, encoding, body, decode).Some?
    ensures TreeShaped(Installed(prepared, target, encoding, body, decode).value)
  {
    WithoutShape(prepared, target);
    assert !(target <= Parent(target));
    if encoding.Raw? {
      UpdateShape(Without(prepared, target), target, File(body));
    } else {
      var t := Extracted(decode(body)).value;
      ExtractedShape(decode(body));
      UnwrappedShape(t);
      GraftShape(Without(prepared, target), target, Unwrapped(t));
    }
  }

  lemma SettledShape(prepared: Fs, encoding: Encoding, msgs: seq<Incoming>, decode: Bytes -> seq<TarItem>,
                     staging: Path, extraction: Path, target: Path)
    requires ReadyToInstall(prepared, staging, extraction, target) && ValidNames(target) && ValidNames(extraction)
    ensures TreeShaped(Settled(prepared, encoding, msgs, decode, staging, extraction, target))
  {
    var body := Flatten(LeadingChunks(msgs));
    Staged(prepared, staging, target, body);
    TempsAbsent(prepared, staging, extraction, body);
    if AllChunks(msgs) {
      if Installed(prepared, target, encoding, body, decode).Some? {
        InstalledShape(prepared, target, encoding, body, decode);
      } else if encoding.TarGz? {
        ExtractedUntilShape(decode(body));
        GraftShape(prepared[staging := File(body)], extraction, ExtractedUntil(decode(body)));
      }
    }
  }

  lemma TempIsNamed(target: Path, name: Name)
    requires ValidNames(target) && ValidName(name)
    ensures ValidNames(Parent(target) + [name])
  {
  }

  lemma ReachedShape(fs: Fs, root: Path, header: Header, target: Path, msgs: seq<Incoming>,
                     decode: Bytes -> seq<TarItem>, stagingName: Name, extractionName: Name)
    requires TreeShaped(fs) && ValidNames(root) && Reaches(fs, root, header, target)
    requires FreshName(fs, target, stagingName) && FreshName(fs, target, extractionName) && stagingName != extractionName
    ensures TreeShaped(AfterHeader(fs, root, header, msgs, decode, stagingName, extractionName))
  {
    ReadyWhenFresh(fs, root, header, target, stagingName, extractionName);
    ReachedIsSettled(fs, root, header, target, msgs, decode, stagingName, extractionName);
    ResolvedNames(root, header.workspaceId, header.targetPath);
    TempIsNamed(target, extractionName);
    SettledShape(Prepared(fs, Home(root, header.workspaceId), target), header.encoding, msgs, decode,
                 Parent(target) + [stagingName], Parent(target) + [extractionName], target);
  }

  lemma HomeShape(fs: Fs, root: Path, header: Header)
    requires TreeShaped(fs) && ValidNames(root) && HomePossible(fs, root, header)
    ensures TreeShaped(WithDirs(fs, Home(root, header.workspaceId)))
  {
    HomeNames(root, header.workspaceId);
    WithDirsShape(fs, Home(root, header.workspaceId));
  }

  /** Whatever arrives, accepted or refused, the filesystem is still a tree afterwards. */
  lemma AfterImportShape(fs: Fs, root: Path, stream: seq<Incoming>, decode: Bytes -> seq<TarItem>,
                         stagingName: Name, extractionName: Name)
    requires TreeShaped(fs) && ValidNames(root) && FreshTemps(fs, root, stream, stagingName, extractionName)
    ensures TreeShaped(AfterImport(fs, root, stream, decode, stagingName, extractionName))
  {
    if stream != [] && IsHeader(stream[0]) {
      var header := stream[0].payload.value.header;
      var resolved := ResolvePath(root, header.workspaceId, header.targetPath);
      if HomePossible(fs, root, header) { HomeShape(fs, root, header); }
      if resolved.Ok? && Reaches(fs, root, header, resolved.value) {
        ReachedShape(fs, root, header, resolved.value, stream[1..], decode, stagingName, extractionName);
      }
    }
  }

  /** The staging file is left behind exactly by an ill-formed message or a refused archive. */
  predicate LeavesStaging(stream: seq<Incoming>, decode: Bytes -> seq<TarItem>)
    requires stream != [] && IsHeader(stream[0])
  {
    !AllChunks(stream[1..]) || LeavesExtraction(stream, decode)
  }

  /** The extraction root is left behind exactly by a refused archive. */
  predicate LeavesExtraction(stream: seq<Incoming>, decode: Bytes -> seq<TarItem>)
    requires stream != [] && IsHeader(stream[0])
  {
    AllChunks(stream[1..]) && stream[0].payload.value.header.encoding.TarGz? && Extracted(decode(Body(stream))).None?
  }

  lemma InstalledLeavesNone(prepared: Fs, encoding: Encoding, body: Bytes, decode: Bytes -> seq<TarItem>,
                            staging: Path, extraction: Path, target: Path)
    requires ReadyToInstall(prepared, staging, extraction, target)
    requires Installed(prepared, target, encoding, body, decode).Some?
    ensures var after := Installed(prepared, target, encoding, body, decode).value;
            staging !in after && extraction !in after
  {
    var base := Without(prepared, target);
    if encoding.Raw? {
      NoStagingLeft(base, staging, target, File(body));
      NoStagingLeft(base, extraction, target, File(body));
    } else {
      NoStagingInTree(base, staging, target, Unwrapped(Extracted(decode(body)).value));
      NoStagingInTree(base, extraction, target, Unwrapped(Extracted(decode(body)).value));
    }
  }

  lemma ExtractionLeft(prepared: Fs, staging: Path, extraction: Path, data: Bytes, left: Fs)
    requires NothingAt(prepared, staging) && NothingAt(prepared, extraction) && Siblings(staging, extraction) && [] in left
    ensures staging in prepared[staging := File(data)] + Graft(extraction, left)
    ensures extraction in prepared[staging := File(data)] + Graft(extraction, left)
  {
    SiblingsApart(staging, extraction);
    GraftBelow(extraction, left, []);
    assert extraction + [] == extraction;
  }

  lemma SettledLeftovers(prepared: Fs, encoding: Encoding, msgs: seq<Incoming>, decode: Bytes -> seq<TarItem>,
                         staging: Path, extraction: Path, target: Path)
    requires ReadyToInstall(prepared, staging, extraction, target)
    ensures var after := Settled(prepared, encoding, msgs, decode, staging, extraction, target);
            var refused := AllChunks(msgs) && encoding.TarGz? && Extracted(decode(Flatten(LeadingChunks(msgs)))).None?;
            && (staging in after <==> !AllChunks(msgs) || refused)
            && (extraction in after <==> refused)
  {
    var body := Flatten(LeadingChunks(msgs));
    assert staging <= staging && extraction <= extraction;
    if AllChunks(msgs) {
      if Installed(prepared, target, encoding, body, decode).Some? {
        InstalledLeavesNone(prepared, encoding, body, decode, staging, extraction, target);
      } else if encoding.TarGz? {
        ExtractedUntilShape(decode(body));
        ExtractionLeft(prepared, staging, extraction, body, ExtractedUntil(decode(body)));
      }
    }
  }

  lemma SettledKeeps(prepared: Fs, encoding: Encoding, msgs: seq<Incoming>, decode: Bytes -> seq<TarItem>,
                     staging: Path, extraction: Path, target: Path)
    requires ReadyToInstall(prepared, staging, extraction, target)
    requires AllChunks(msgs) ==> Installed(prepared, target, encoding, Flatten(LeadingChunks(msgs)), decode).None?
    ensures Without(Without(Settled(prepared, encoding, msgs, decode, staging, extraction, target), extraction), staging)
            == prepared
  {
    var body := Flatten(LeadingChunks(msgs));
    TempsAbsent(prepared, staging, extraction, body);
    CanStage(prepared, staging, extraction, target, body);
    if AllChunks(msgs) && encoding.TarGz? {
      SubtreeOfGraft(prepared[staging := File(body)], extraction, ExtractedUntil(decode(body)));
      RemovedAgain(prepared, staging, File(body));
    }
  }

  /** What every import that reaches its staging file does with its two temporary names. */
  lemma ReachedTemps(fs: Fs, root: Path, header: Header, target: Path, msgs: seq<Incoming>,
                     decode: Bytes -> seq<TarItem>, stagingName: Name, extractionName: Name)
    requires TreeShaped(fs) && ValidNames(root) && Reaches(fs, root, header, target)
    requires FreshName(fs, target, stagingName) && FreshName(fs, target, extractionName) && stagingName != extractionName
    ensures var after := AfterHeader(fs, root, header, msgs, decode, stagingName, extractionName);
            var refused := AllChunks(msgs) && header.encoding.TarGz? && Extracted(decode(Flatten(LeadingChunks(msgs)))).None?;
            && (Parent(target) + [stagingName] in after <==> !AllChunks(msgs) || refused)
            && (Parent(target) + [extractionName] in after <==> refused)
  {
    ReadyWhenFresh(fs, root, header, target, stagingName, extractionName);
    ReachedIsSettled(fs, root, header, target, msgs, decode, stagingName, extractionName);
    SettledLeftovers(Prepared(fs, Home(root, header.workspaceId), target), header.encoding, msgs, decode,
                     Parent(target) + [stagingName], Parent(target) + [extractionName], target);
  }

  /** Refused after its target was reached, an import leaves what was there. */
  lemma ReachedRefused(fs: Fs, root: Path, header: Header, target: Path, msgs: seq<Incoming>,
                       decode: Bytes -> seq<TarItem>, stagingName: Name, extractionName: Name)
    requires TreeShaped(fs) && ValidNames(root) && Reaches(fs, root, header, target)
    requires FreshName(fs, target, stagingName) && FreshName(fs, target, extractionName) && stagingName != extractionName
    requires AllChunks(msgs) ==> Imported(fs, root, header, Flatten(LeadingChunks(msgs)), decode).None?
    ensures OnlyLeftovers(fs, AfterHeader(fs, root, header, msgs, decode, stagingName, extractionName), root, header,
                          stagingName, extractionName)
  {
    var prepared := Prepared(fs, Home(root, header.workspaceId), target);
    ReadyWhenFresh(fs, root, header, target, stagingName, extractionName);
    ReachedIsSettled(fs, root, header, target, msgs, decode, stagingName, extractionName);
    SettledKeeps(prepared, header.encoding, msgs, decode,
                 Parent(target) + [stagingName], Parent(target) + [extractionName], target);
    PreparedLeaves(fs, AfterHeader(fs, root, header, msgs, decode, stagingName, extractionName), root, header, target,
                   stagingName, extractionName);
  }

  /** A refused import changes no node that was there. */
  lemma RefusedLeaves(fs: Fs, root: Path, header: Header, msgs: seq<Incoming>,
                      decode: Bytes -> seq<TarItem>, stagingName: Name, extractionName: Name)
    requires TreeShaped(fs) && ValidNames(root)
    requires FreshFor(fs, root, header, stagingName, extractionName)
    requires AllChunks(msgs) ==> Imported(fs, root, header, Flatten(LeadingChunks(msgs)), decode).None?
    ensures OnlyLeftovers(fs, AfterHeader(fs, root, header, msgs, decode, stagingName, extractionName), root, header,
                          stagingName, extractionName)
  {
    var resolved := ResolvePath(root, header.workspaceId, header.targetPath);
    if resolved.Ok? && Reaches(fs, root, header, resolved.value) {
      ReachedRefused(fs, root, header, resolved.value, msgs, decode, stagingName, extractionName);
    } else {
      HomeLeaves(fs, root, header, stagingName, extractionName);
    }
  }

  /**
   * The import RPC. It succeeds exactly on a header followed by chunks only, for a target that resolves and can be
   * reached and, for a directory, an archive without a bad entry; then the filesystem is the imported one. Otherwise
   * nothing that existed has changed. Whatever happens the filesystem is a tree afterwards.
   */
  method ImportWorkspaceObject(disk: Disk, root: Path, stream: seq<Incoming>, decode: Bytes -> seq<TarItem>,
                               stagingName: Name, extractionName: Name)
    returns (r: Result<nat, ImportError>)
    requires TreeShaped(disk.nodes) && ValidNames(root)
    requires FreshTemps(disk.nodes, root, stream, stagingName, extractionName)
    modifies disk
    ensures TreeShaped(disk.nodes)
    ensures disk.nodes == AfterImport(old(disk.nodes), root, stream, decode, stagingName, extractionName)
    ensures r.Ok? <==>
              && HeaderThenChunks(stream)
              && Imported(old(disk.nodes), root, stream[0].payload.value.header, Body(stream), decode).Some?
    ensures r.Ok? ==>
              && disk.nodes == Imported(old(disk.nodes), root, stream[0].payload.value.header, Body(stream), decode).value
              && r.value == if |Body(stream)| > 0xffff_ffff_ffff_ffff then 0xffff_ffff_ffff_ffff else |Body(stream)|
    ensures stream == [] || !IsHeader(stream[0]) ==> r == Err(FirstDefect(stream)) && disk.nodes == old(disk.nodes)
    ensures stream != [] && IsHeader(stream[0]) && r.Err? ==>
              RefusedFor(old(disk.nodes), root, stream[0].payload.value.header, stream[1..], decode, r.error)
    ensures r.Err? && stream != [] && IsHeader(stream[0]) ==>
              OnlyLeftovers(old(disk.nodes), disk.nodes, root, stream[0].payload.value.header, stagingName, extractionName)
    ensures stream != [] && IsHeader(stream[0]) ==>
              var header := stream[0].payload.value.header;
              var resolved := ResolvePath(root, header.workspaceId, header.targetPath);
              resolved.Ok? && Reaches(old(disk.nodes), root, header, resolved.value) ==>
                && (Parent(resolved.value) + [stagingName] in disk.nodes <==> LeavesStaging(stream, decode))
                && (Parent(resolved.value) + [extractionName] in disk.nodes <==> LeavesExtraction(stream, decode))
  {
    ghost var fs := disk.nodes;
    AfterImportShape(fs, root, stream, decode, stagingName, extractionName);
    r := DoImportWorkspaceObject(disk, root, stream, decode, stagingName, extractionName);
    if stream != [] && IsHeader(stream[0]) {
      ghost var header := stream[0].payload.value.header;
      ghost var resolved := ResolvePath(root, header.workspaceId, header.targetPath);
      if resolved.Ok? && Reaches(fs, root, header, resolved.value) {
        ReachedTemps(fs, root, header, resolved.value, stream[1..], decode, stagingName, extractionName);
      }
      if r.Ok? {
        AcceptedIsImported(fs, root, header, stream[1..], decode, stagingName, extractionName);
      } else {
        RefusedLeaves(fs, root, header, stream[1..], decode, stagingName, extractionName);
      }
    }
  }

  lemma AcceptedIsImported(fs: Fs, root: Path, header: Header, msgs: seq<Incoming>, decode: Bytes -> seq<TarItem>,
                           stagingName: Name, extractionName: Name)
    requires AllChunks(msgs) && Imported(fs, root, header, Flatten(LeadingChunks(msgs)), decode).Some?
    ensures AfterHeader(fs, root, header, msgs, decode, stagingName, extractionName)
            == Imported(fs, root, header, Flatten(LeadingChunks(msgs)), decode).value
  {
    ReachedIsSettled(fs, root, header, ResolvePath(root, header.workspaceId, header.targetPath).value, msgs, decode,
                     stagingName, extractionName);
  }

  // ---- what a successful import means ----

  /** Below the target lies exactly what was sent. */
  lemma ImportedTarget(fs: Fs, root: Path, header: Header, body: Bytes, decode: Bytes -> seq<TarItem>)
    requires Imported(fs, root, header, body, decode).Some?
    ensures var after, target := Imported(fs, root, header, body, decode).value,
                                 ResolvePath(root, header.workspaceId, header.targetPath).value;
            && (header.encoding.Raw? ==> Subtree(after, target) == map[[] := File(body)])
            && (header.encoding.TarGz? ==> Subtree(after, target) == Unwrapped(Extracted(decode(body)).value))
  {
    var target := ResolvePath(root, header.workspaceId, header.targetPath).value;
    var base := Without(Prepared(fs, Home(root, header.workspaceId), target), target);
    if header.encoding.Raw? {
      OneNode(base, target, File(body));
      SubtreeOfGraft(base, target, map[[] := File(body)]);
    } else {
      SubtreeOfGraft(base, target, Unwrapped(Extracted(decode(body)).value));
    }
  }

  /** Outside the target only missing directories on the way to it have been added. */
  lemma ImportedElsewhere(fs: Fs, root: Path, header: Header, body: Bytes, decode: Bytes -> seq<TarItem>, q: Path)
    requires Imported(fs, root, header, body, decode).Some?
    requires !(ResolvePath(root, header.workspaceId, header.targetPath).value <= q)
    ensures var after := Imported(fs, root, header, body, decode).value;
            && (q in after <==> q in fs || OnTheWay(root, header, q))
            && (q in after ==> after[q] == if q in fs then fs[q] else Dir)
  {
    var target := ResolvePath(root, header.workspaceId, header.targetPath).value;
    PreparedAt(fs, Home(root, header.workspaceId), target, q);
    if header.encoding.TarGz? {
      GraftAt(target, Unwrapped(Extracted(decode(body)).value), q);
    }
  }

  /** Whatever one workspace imports, every other workspace keeps exactly what it has. */
  lemma ImportStaysInWorkspace(fs: Fs, root: Path, header: Header, body: Bytes, decode: Bytes -> seq<TarItem>, other: string)
    requires Imported(fs, root, header, body, decode).Some? && other != header.workspaceId
    ensures Subtree(Imported(fs, root, header, body, decode).value, Home(root, other)) == Subtree(fs, Home(root, other))
  {
    var after := Imported(fs, root, header, body, decode).value;
    forall r
      ensures Home(root, other) + r in after <==> Home(root, other) + r in fs
      ensures Home(root, other) + r in fs ==> after[Home(root, other) + r] == fs[Home(root, other) + r]
    {
      OtherHomeApart(root, header, other, r);
      ImportedElsewhere(fs, root, header, body, decode, Home(root, other) + r);
    }
    SameSubtree(after, Home(root, other), fs, Home(root, other));
  }

  lemma OtherHomeApart(root: Path, header: Header, other: string, r: Path)
    requires ResolvePath(root, header.workspaceId, header.targetPath).Ok? && other != header.workspaceId
    ensures !(ResolvePath(root, header.workspaceId, header.targetPath).value <= Home(root, other) + r)
    ensures !OnTheWay(root, header, Home(root, other) + r)
  {
    var home, target := Home(root, header.workspaceId), ResolvePath(root, header.workspaceId, header.targetPath).value;
    var q := Home(root, other) + r;
    assert q[|root|] == other && home[|root|] == target[|root|] == header.workspaceId;
  }
}

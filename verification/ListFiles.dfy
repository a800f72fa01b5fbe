/** The explicit-stack directory walk behind ListFiles. */
module ListFiles {
  import opened Basics
  import opened Text
  import opened FileTree
  import opened WorkspacePath

  datatype FileInfo = FileInfo(path: string, sizeBytes: nat, mode: nat, isDir: bool, modifiedUnix: int)

  /** What the system says of a node beside its content: the length it gives a directory, mode, modification second. */
  datatype Stat = Stat(dirBytes: nat, mode: nat, modified: Option<int>)

  const PERMISSIONS: nat := 0x1000

  /** Seconds since the epoch; an unknown time and one before the epoch count as the epoch. */
  function ModifiedUnix(stat: Stat): (secs: int)
    ensures secs >= 0
    ensures stat.modified.Some? && stat.modified.value >= 0 ==> secs == stat.modified.value
  {
    match stat.modified
    case Some(secs) => if secs < 0 then 0 else secs
    case None => 0
  }

  /** What a complete listing contains: everything strictly below `base`, or only its direct entries. */
  ghost function Listing(fs: Fs, base: Path, recursive: bool): set<Path> {
    set p | p in fs && base < p && (recursive || |p| == |base| + 1)
  }

  /** The path text reported for `p`, falling back to the full path outside the workspace root. */
  function ReportedPath(root: Path, p: Path): string {
    if root <= p then JoinSlash(p[|root|..]) else "/" + JoinSlash(p)
  }

  function InfoOf(fs: Fs, root: Path, p: Path, stat: Path -> Stat): FileInfo
    requires p in fs
  {
    var size := match fs[p] case Dir => stat(p).dirBytes case File(data) => |data|;
    FileInfo(ReportedPath(root, p), size, stat(p).mode % PERMISSIONS, fs[p].Dir?, ModifiedUnix(stat(p)))
  }

  /**
   * What is to be said of the node at `p`: its path below `root`; the length of a file, and what the system says of a
   * directory's; its kind; the low twelve mode bits; the second it was modified, or 0 if unknown or before the epoch.
   */
  ghost predicate Describes(info: FileInfo, node: Node, root: Path, p: Path, stat: Stat) {
    && info.path == (if root <= p then JoinSlash(p[|root|..]) else "/" + JoinSlash(p))
    && (node.File? ==> info.sizeBytes == |node.data| && !info.isDir)
    && (node.Dir? ==> info.sizeBytes == stat.dirBytes && info.isDir)
    && info.mode == stat.mode % 4096
    && (stat.modified.Some? && stat.modified.value > 0 ==> info.modifiedUnix == stat.modified.value)
    && (stat.modified.None? || stat.modified.value <= 0 ==> info.modifiedUnix == 0)
  }

  ghost predicate ReportsExactly(fs: Fs, root: Path, stat: Path -> Stat, listed: seq<Path>, out: seq<FileInfo>) {
    && |out| == |listed|
    && forall i :: 0 <= i < |listed| ==>
         listed[i] in fs && Describes(out[i], fs[listed[i]], root, listed[i], stat(listed[i]))
  }

  /** What the walk has listed and read so far; `open` are the directories still on the stack. */
  ghost predicate WalkState(fs: Fs, base: Path, recursive: bool, read: set<Path>, open: set<Path>, listed: set<Path>) {
    && read !! open
    && (forall d :: d in read + open ==> base <= d)
    && (forall p :: p in listed <==> p in fs && base < p && Parent(p) in read)
    && (forall d :: d in read + open <==> d == base || (recursive && d in listed && fs[d].Dir?))
  }

  lemma {:induction false} EverythingBelowListed(fs: Fs, base: Path, read: set<Path>, listed: set<Path>, p: Path)
    requires TreeShaped(fs) && WalkState(fs, base, true, read, {}, listed)
    requires p in fs && base < p
    ensures p in listed
    decreases |p|
  {
    if Parent(p) != base {
      assert base < Parent(p);
      EverythingBelowListed(fs, base, read, listed, Parent(p));
    }
  }

  /** Once no directory is left open, exactly the listing has been reported. */
  lemma FinishedWalk(fs: Fs, base: Path, recursive: bool, read: set<Path>, listed: set<Path>)
    requires TreeShaped(fs) && WalkState(fs, base, recursive, read, {}, listed)
    ensures listed == Listing(fs, base, recursive)
  {
    forall p
      ensures p in listed <==> p in Listing(fs, base, recursive)
    {
      if p in fs && base < p {
        if recursive {
          EverythingBelowListed(fs, base, read, listed, p);
        } else {
          assert Parent(p) == base <==> |p| == |base| + 1;
        }
      }
    }
  }

  lemma EntriesAreNew(fs: Fs, base: Path, recursive: bool, read: set<Path>, open: set<Path>, listed: set<Path>, dir: Path)
    requires WalkState(fs, base, recursive, read, open, listed) && dir in open
    ensures NoEntryOf(dir, listed) && NoEntryOf(dir, open)
  {
  }

  ghost predicate NoEntryOf(dir: Path, paths: set<Path>) {
    forall p :: p in paths && p != [] ==> Parent(p) != dir || p == dir
  }

  /** The directories among freshly listed entries: what a recursive walk pushes. */
  ghost function Pushed(fs: Fs, seen: set<Path>, recursive: bool): set<Path> {
    set p | p in seen && recursive && IsDir(fs, p)
  }

  lemma PushedStep(fs: Fs, seen: set<Path>, recursive: bool, p: Path)
    ensures Pushed(fs, seen + {p}, recursive) ==
              if recursive && IsDir(fs, p) then Pushed(fs, seen, recursive) + {p} else Pushed(fs, seen, recursive)
  {
  }

  lemma ReportOneMore(fs: Fs, root: Path, stat: Path -> Stat, listed: seq<Path>, out: seq<FileInfo>, p: Path)
    requires ReportsExactly(fs, root, stat, listed, out) && p in fs
    ensures ReportsExactly(fs, root, stat, listed + [p], out + [InfoOf(fs, root, p, stat)])
  {
  }

  ghost predicate SeenBut(fs: Fs, dir: Path, remaining: set<Name>, seen: set<Path>) {
    forall p :: p in seen <==> p in fs && p != [] && Parent(p) == dir && p[|p| - 1] !in remaining
  }

  lemma SeeEntry(fs: Fs, dir: Path, remaining: set<Name>, seen: set<Path>, name: Name)
    requires SeenBut(fs, dir, remaining, seen) && name in remaining && dir + [name] in fs
    ensures SeenBut(fs, dir, remaining - {name}, seen + {dir + [name]})
    ensures dir + [name] !in seen && Parent(dir + [name]) == dir
  {
    var path := dir + [name];
    assert Parent(path) == dir && path[|path| - 1] == name;
    forall p | p != [] && Parent(p) == dir && p[|p| - 1] == name
      ensures p == path
    {
      assert p == Parent(p) + [p[|p| - 1]];
    }
  }

  lemma DirectoryRead(fs: Fs, base: Path, recursive: bool, read: set<Path>, open: set<Path>, listed: set<Path>,
                      dir: Path, seen: set<Path>)
    requires TreeShaped(fs)
    requires WalkState(fs, base, recursive, read, open, listed) && dir in open
    requires SeenBut(fs, dir, {}, seen)
    ensures WalkState(fs, base, recursive, read + {dir}, open - {dir} + Pushed(fs, seen, recursive), listed + seen)
  {
    forall p | p in seen
      ensures p !in read && base < p
    {
      assert base <= Parent(p);
      assert Parent(p) !in read;
      assert p in listed ==> Parent(p) in read;
      assert p in read + open ==> p == base || p in listed;
    }
  }

  lemma EntryIsNew(fs: Fs, dir: Path, recursive: bool, open0: set<Path>, listed0: set<Path>, seen: set<Path>, p: Path)
    requires NoEntryOf(dir, open0) && NoEntryOf(dir, listed0)
    requires p != [] && Parent(p) == dir && p !in seen
    ensures p !in open0 + Pushed(fs, seen, recursive) && p !in listed0 + seen
    ensures listed0 + seen + {p} == listed0 + (seen + {p})
    ensures open0 + Pushed(fs, seen, recursive) + {p} == open0 + (Pushed(fs, seen, recursive) + {p})
  {
  }

  /** The inner loop of the walk: reports the entries of `dir` and pushes its directories. */
  method ReadEntries(fs: Fs, root: Path, dir: Path, recursive: bool, stat: Path -> Stat,
                     stack0: seq<Path>, out0: seq<FileInfo>, ghost listed0: seq<Path>)
    returns (stack: seq<Path>, out: seq<FileInfo>, ghost listed: seq<Path>, ghost seen: set<Path>)
    requires NoDuplicates(stack0) && NoDuplicates(listed0)
    requires NoEntryOf(dir, Elements(stack0)) && NoEntryOf(dir, Elements(listed0))
    requires ReportsExactly(fs, root, stat, listed0, out0)
    ensures SeenBut(fs, dir, {}, seen)
    ensures NoDuplicates(stack) && Elements(stack) == Elements(stack0) + Pushed(fs, seen, recursive)
    ensures NoDuplicates(listed) && Elements(listed) == Elements(listed0) + seen
    ensures ReportsExactly(fs, root, stat, listed, out)
  {
    stack, out, listed, seen := stack0, out0, listed0, {};
    var remaining := Children(fs, dir);
    NothingSeen(fs, dir);
    while remaining != {}
      invariant remaining <= Children(fs, dir)
      invariant SeenBut(fs, dir, remaining, seen)
      invariant NoDuplicates(stack) && Elements(stack) == Elements(stack0) + Pushed(fs, seen, recursive)
      invariant NoDuplicates(listed) && Elements(listed) == Elements(listed0) + seen
      invariant ReportsExactly(fs, root, stat, listed, out)
    {
      var name :| name in remaining;
      var path := dir + [name];
      ChildIn(fs, dir, name);
      SeeEntry(fs, dir, remaining, seen, name);
      PushedStep(fs, seen, recursive, path);
      EntryIsNew(fs, dir, recursive, Elements(stack0), Elements(listed0), seen, path);
      var info := InfoOf(fs, root, path, stat);
      ReportOneMore(fs, root, stat, listed, out, path);
      out := out + [info];
      PushElement(listed, path);
      listed := listed + [path];
      if info.isDir && recursive {
        PushElement(stack, path);
        stack := stack + [path];
      }
      seen := seen + {path};
      remaining := remaining - {name};
    }
  }

  /** `collect_files`: directories are read in stack order, their entries in whatever order the system returns them. */
  method CollectFiles(fs: Fs, root: Path, base: Path, recursive: bool, stat: Path -> Stat)
    returns (r: Result<seq<FileInfo>, IoError>, ghost listed: seq<Path>)
    requires TreeShaped(fs)
    ensures r.Ok? <==> IsDir(fs, base)
    ensures r.Err? ==> r.error == if base in fs then NotADirectory else NotFound
    ensures r.Ok? ==> NoDuplicates(listed) && Elements(listed) == Listing(fs, base, recursive)
    ensures r.Ok? ==> ReportsExactly(fs, root, stat, listed, r.value)
  {
    var stack: seq<Path> := [base];
    var out: seq<FileInfo> := [];
    ghost var read: set<Path> := {};
    listed := [];
    while stack != []
      invariant base !in read ==> stack == [base]
      invariant forall d :: d in Elements(stack) && d != base ==> IsDir(fs, d)
      invariant base in read ==> IsDir(fs, base)
      invariant NoDuplicates(stack) && NoDuplicates(listed)
      invariant WalkState(fs, base, recursive, read, Elements(stack), Elements(listed))
      invariant ReportsExactly(fs, root, stat, listed, out)
      decreases fs.Keys - read
    {
      ghost var open0, listed0 := Elements(stack), Elements(listed);
      var dir := stack[|stack| - 1];
      PopElement(stack);
      stack := stack[..|stack| - 1];
      if !IsDir(fs, dir) {
        return Err(if dir in fs then NotADirectory else NotFound), listed;
      }
      EntriesAreNew(fs, base, recursive, read, open0, listed0, dir);
      ghost var seen;
      stack, out, listed, seen := ReadEntries(fs, root, dir, recursive, stat, stack, out, listed);
      DirectoryRead(fs, base, recursive, read, open0, listed0, dir, seen);
      read := read + {dir};
    }
    FinishedWalk(fs, base, recursive, read, Elements(listed));
    return Ok(out), listed;
  }

  lemma NothingSeen(fs: Fs, dir: Path)
    ensures SeenBut(fs, dir, Children(fs, dir), {})
  {
    forall p | p in fs && p != [] && Parent(p) == dir
      ensures p[|p| - 1] in Children(fs, dir)
    {
      ChildIn(fs, dir, p[|p| - 1]);
      assert p == dir + [p[|p| - 1]];
    }
  }

  datatype ListError = BadPath(path: PathError) | Io(io: IoError)

  /** Every path reported for an accepted base is relative to the workspace home and resolves to the entry listed. */
  lemma ReportedPathResolves(fs: Fs, root: Path, id: string, base: Path, recursive: bool, p: Path)
    requires TreeShaped(fs) && ValidWorkspaceId(id)
    requires Home(root, id) <= base && p in Listing(fs, base, recursive)
    ensures ReportedPath(Home(root, id), p) == JoinSlash(p[|Home(root, id)|..])
    ensures ResolvePath(root, id, ReportedPath(Home(root, id), p)) == Ok(p)
  {
    assert Home(root, id) <= p;
    ResolveRelativeText(root, id, p);
  }

  /** The `list_files` handler. */
  method ListFiles(fs: Fs, root: Path, id: string, path: string, recursive: bool, stat: Path -> Stat)
    returns (r: Result<seq<FileInfo>, ListError>, ghost listed: seq<Path>)
    requires TreeShaped(fs)
    ensures ResolvePath(root, id, path).Err? ==> r == Err(BadPath(ResolvePath(root, id, path).error))
    ensures ResolvePath(root, id, path).Ok? ==>
              var base := ResolvePath(root, id, path).value;
              && (Metadata(fs, base).Missing? ==> r == Ok([]) && listed == [])
              && (r.Ok? <==> Metadata(fs, base).Missing? || IsDir(fs, base))
              && (r.Err? ==> r == Err(Io(NotADirectory)))
              && (r.Ok? ==> NoDuplicates(listed) && Elements(listed) == Listing(fs, base, recursive))
    ensures r.Ok? ==> ReportsExactly(fs, Home(root, id), stat, listed, r.value)
    ensures r.Ok? ==>
              forall i :: 0 <= i < |listed| ==> ResolvePath(root, id, r.value[i].path) == Ok(listed[i])
  {
    listed := [];
    var base := ResolvePath(root, id, path);
    if base.Err? {
      return Err(BadPath(base.error)), [];
    }
    match Metadata(fs, base.value) {
      case Found(_) =>
      case Missing =>
        NothingBelowMissing(fs, base.value, recursive);
        return Ok([]), [];
      case Blocked =>
        return Err(Io(NotADirectory)), [];
    }
    RootMustBeClean(root, id);
    HomeResolves(root, id);
    var home := ResolvePath(root, id, "").value;
    var files;
    files, listed := CollectFiles(fs, home, base.value, recursive, stat);
    if files.Err? {
      return Err(Io(files.error)), listed;
    }
    forall i | 0 <= i < |listed|
      ensures ResolvePath(root, id, files.value[i].path) == Ok(listed[i])
    {
      assert listed[i] in Elements(listed);
      ReportedPathResolves(fs, root, id, base.value, recursive, listed[i]);
    }
    return Ok(files.value), listed;
  }

  lemma NothingBelowMissing(fs: Fs, base: Path, recursive: bool)
    requires TreeShaped(fs)
    ensures base !in fs ==> Listing(fs, base, recursive) == {}
  {
    if Listing(fs, base, recursive) != {} {
      var p :| p in Listing(fs, base, recursive);
      AncestorIsDir(fs, p, base);
    }
  }
}

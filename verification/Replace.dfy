/** Replacing a directory by the contents of an archive, so that a rejected archive changes nothing. */
module Replace {
  import opened Basics
  import opened Text
  import opened FileTree
  import opened Archive

  /** The filesystem once `target` has been replaced by `u` and both temporary names are gone. */
  function Replaced(fs: Fs, staging: Path, extraction: Path, target: Path, u: Fs): Fs {
    Without(Without(Without(fs, extraction), target), staging) + Graft(target, u)
  }

  /** The two temporary names and the target are three different names in one directory. */
  ghost predicate Neighbours(staging: Path, extraction: Path, target: Path) {
    Siblings(staging, extraction) && Siblings(staging, target) && Siblings(extraction, target)
  }

  /** A replaced filesystem holds `u` at the target, neither temporary name, and everything else as it was. */
  lemma ReplacedIs(fs: Fs, staging: Path, extraction: Path, target: Path, u: Fs)
    requires Neighbours(staging, extraction, target)
    ensures var after := Replaced(fs, staging, extraction, target, u);
            && Subtree(after, target) == u
            && NothingAt(after, staging) && NothingAt(after, extraction)
            && (forall q :: !(staging <= q) && !(extraction <= q) && !(target <= q) ==>
                  (q in after <==> q in fs) && (q in fs ==> after[q] == fs[q]))
  {
    var base := Without(Without(Without(fs, extraction), target), staging);
    SubtreeOfGraft(base, target, u);
    SiblingsApart(staging, target);
    SiblingsApart(extraction, target);
    NothingAtGraft(base, target, u, staging);
    NothingAtGraft(base, target, u, extraction);
    forall q | !(target <= q)
      ensures q !in Graft(target, u)
    {
      GraftAt(target, u, q);
    }
  }

  lemma AbsentMeansNothing(fs: Fs, p: Path)
    requires TreeShaped(fs) && p !in fs
    ensures NothingAt(fs, p) && Without(fs, p) == fs
  {
    forall q | q in fs
      ensures !(p <= q)
    {
      if p < q { AncestorIsDir(fs, q, p); }
      assert p <= q ==> p == q || p < q;
    }
  }

  lemma AncestorsStay(fs: Fs, parent: Path, p: Path)
    requires TreeShaped(fs) && IsDir(fs, parent) && p != [] && parent == Parent(p)
    ensures RoomFor(Without(fs, p), p)
    ensures forall i :: 0 <= i < |p| ==> IsDir(fs, p[..i])
  {
    forall i | 0 <= i < |p|
      ensures IsDir(Without(fs, p), p[..i])
    {
      assert p[..i] == parent[..i];
      if i < |parent| { AncestorsAreDirs(fs, parent, i); } else { assert p[..i] == parent; }
    }
  }

  lemma RootAt(p: Path, q: Path)
    ensures q in Graft(p, EMPTY_DIR) <==> q == p
    ensures q in Graft(p, EMPTY_DIR) ==> Graft(p, EMPTY_DIR)[q] == Dir
  {
    GraftAt(p, EMPTY_DIR, q);
    if p <= q { SplitAtPrefix(p, q); }
  }

  lemma NewDirAt(base: Fs, p: Path, q: Path)
    requires RoomFor(base, p)
    ensures q in WithDirs(base, p) <==> q in base || q in Graft(p, EMPTY_DIR)
    ensures q in WithDirs(base, p) ==>
              && (q in Graft(p, EMPTY_DIR) ==> WithDirs(base, p)[q] == Graft(p, EMPTY_DIR)[q])
              && (q !in Graft(p, EMPTY_DIR) ==> q in base && WithDirs(base, p)[q] == base[q])
  {
    WithDirsAt(base, p, q);
    RootAt(p, q);
    if q <= p { assert q == p[..|q|]; }
  }

  /** Creating a directory whose parent exists and whose name is free. */
  lemma NewDir(base: Fs, p: Path)
    requires RoomFor(base, p)
    ensures DirsPossible(base, p) && WithDirs(base, p) == base + Graft(p, EMPTY_DIR)
  {
    assert p[..|p|] == p;
    forall q
      ensures q in WithDirs(base, p) <==> q in base || q in Graft(p, EMPTY_DIR)
      ensures q in WithDirs(base, p) ==>
                && (q in Graft(p, EMPTY_DIR) ==> WithDirs(base, p)[q] == Graft(p, EMPTY_DIR)[q])
                && (q !in Graft(p, EMPTY_DIR) ==> q in base && WithDirs(base, p)[q] == base[q])
    {
      NewDirAt(base, p, q);
    }
    SumIs(base, Graft(p, EMPTY_DIR), WithDirs(base, p));
  }

  /** What stands in the filesystem, apart from the new tree, while the target is being filled. */
  ghost function Cleared(fs: Fs, extraction: Path, target: Path): Fs {
    Without(Without(fs, extraction), target)
  }

  lemma BothRooms(fs: Fs, extraction: Path, target: Path)
    requires TreeShaped(fs) && IsDir(fs, Parent(target)) && Siblings(extraction, target)
    ensures RoomFor(Cleared(fs, extraction, target), target)
    ensures RoomFor(Cleared(fs, extraction, target), extraction)
  {
    AncestorsStay(fs, Parent(target), target);
    AncestorsStay(fs, Parent(target), extraction);
    SiblingsApart(extraction, target);
    forall i | 0 <= i < |target|
      ensures target[..i] == extraction[..i]
      ensures IsDir(Cleared(fs, extraction, target), target[..i])
    {
      assert target[..i] == Parent(target)[..i] == Parent(extraction)[..i] == extraction[..i];
      assert |target[..i]| < |extraction|;
    }
  }

  lemma TargetNotBlocked(fs: Fs, extraction: Path, target: Path, t: Fs)
    requires TreeShaped(fs) && IsDir(fs, Parent(target)) && Siblings(extraction, target)
    ensures !Metadata(Without(fs, extraction) + Graft(extraction, t), target).Blocked?
  {
    SiblingsApart(extraction, target);
    AncestorsStay(fs, Parent(target), target);
    forall i | 0 <= i < |target|
      ensures !IsFile(Without(fs, extraction) + Graft(extraction, t), target[..i])
    {
      assert IsDir(fs, target[..i]);
      assert |target[..i]| < |extraction|;
      GraftAt(extraction, t, target[..i]);
    }
  }

  lemma TargetGone(fs: Fs, extraction: Path, target: Path, t: Fs)
    requires TreeShaped(fs) && IsDir(fs, Parent(target)) && Siblings(extraction, target)
    ensures var full, a := Without(fs, extraction) + Graft(extraction, t), Cleared(fs, extraction, target);
            (if target in full then Without(full, target) else full) == a + Graft(extraction, t)
  {
    var base := Without(fs, extraction);
    SiblingsApart(extraction, target);
    WithoutApart(base, extraction, t, target);
    GraftAt(extraction, t, target);
    if target !in base {
      AbsentMeansNothing(fs, target);
      WithoutIs(base, target, base);
    }
  }

  /** The one directory at the top moves to the target as a whole. */
  lemma SingleMoves(a: Fs, extraction: Path, target: Path, t: Fs, n: Name)
    requires RoomFor(a, target) && RoomFor(a, extraction) && Siblings(extraction, target)
    requires TreeShaped(t) && SingleDir(t, n)
    ensures var fs := a + Graft(extraction, t);
            && extraction + [n] in fs && IsDir(fs, Parent(target)) && NothingAt(fs, target) && !(extraction + [n] <= target)
            && var moved := Without(fs, extraction + [n]) + Graft(target, Subtree(fs, extraction + [n]));
            && IsDir(moved, extraction)
            && Without(moved, extraction) == a + Graft(target, Unwrapped(t))
  {
    var fs, u := a + Graft(extraction, t), Unwrapped(t);
    SiblingsApart(extraction, target);
    UnwrappedSingle(t, n);
    GraftBelow(extraction, t, [n]);
    ParentRoom(a, extraction, target, t);
    WithoutHung(a, extraction, t, [n]);
    SubtreeHung(a, extraction, t, [n]);
    var rest := Without(t, [n]);
    var moved := a + Graft(extraction, rest) + Graft(target, u);
    GraftAt(extraction, rest, extraction);
    GraftAt(target, u, extraction);
    assert extraction[|extraction|..] == [];
    WithoutApart(a + Graft(extraction, rest), target, u, extraction);
    SubtreeOfGraft(a, extraction, rest);
  }

  lemma ParentRoom(a: Fs, extraction: Path, target: Path, t: Fs)
    requires RoomFor(a, target) && RoomFor(a, extraction) && Siblings(extraction, target)
    ensures RoomFor(a + Graft(extraction, t), target)
    ensures IsDir(a + Graft(extraction, t), Parent(target))
  {
    SiblingsApart(extraction, target);
    NothingAtGraft(a, extraction, t, target);
    forall i | 0 <= i < |target|
      ensures IsDir(a + Graft(extraction, t), target[..i])
    {
      GraftAt(extraction, t, target[..i]);
      assert |target[..i]| < |extraction|;
    }
    assert Parent(target) == target[..|target| - 1];
  }

  /** Filling a fresh target entry by entry starts from a state in which every move is possible. */
  lemma ManyStart(a: Fs, extraction: Path, target: Path, t: Fs)
    requires RoomFor(a, target) && RoomFor(a, extraction) && Siblings(extraction, target) && TreeShaped(t)
    ensures DirsPossible(a + Graft(extraction, t), target)
    ensures WithDirs(a + Graft(extraction, t), target) == a + Graft(target, EMPTY_DIR) + Graft(extraction, t)
    ensures MoveReady(a, target, extraction, t)
  {
    SiblingsApart(extraction, target);
    ParentRoom(a, extraction, target, t);
    NewDir(a + Graft(extraction, t), target);
    GraftsCommute(a, extraction, t, target, EMPTY_DIR);
  }

  lemma ManyEnd(a: Fs, extraction: Path, target: Path, t: Fs)
    requires RoomFor(a, extraction) && Siblings(extraction, target)
    ensures var moved := a + Graft(target, t) + Graft(extraction, EMPTY_DIR);
            IsDir(moved, extraction) && Without(moved, extraction) == a + Graft(target, t)
  {
    SiblingsApart(extraction, target);
    NothingAtGraft(a, target, t, extraction);
    SubtreeOfGraft(a + Graft(target, t), extraction, EMPTY_DIR);
    RootAt(extraction, extraction);
  }

  lemma NotSingle(t: Fs)
    requires forall n :: !SingleDir(t, n)
    ensures Unwrapped(t) == t
  {
  }

  lemma SizeOne(s: set<Name>, n: Name)
    requires |s| == 1 && n in s
    ensures s == {n}
  {
    var rest := s - {n};
    assert s == rest + {n} && |rest| == 0;
  }

  /** Puts the extracted tree, unwrapped if it is a single directory, in the place cleared for it. */
  method InstallExtracted(disk: Disk, extraction: Path, target: Path, ghost a: Fs, ghost t: Fs)
    requires RoomFor(a, target) && RoomFor(a, extraction) && Siblings(extraction, target)
    requires TreeShaped(t) && disk.nodes == a + Graft(extraction, t)
    modifies disk
    ensures disk.nodes == a + Graft(target, Unwrapped(t))
  {
    ChildrenHung(a, extraction, t);
    var entries := Children(disk.nodes, extraction);
    if |entries| == 1 {
      var n :| n in entries;
      SizeOne(entries, n);
      SubtreeHung(a, extraction, t, [n]);
      GraftBelow(extraction, t, [n]);
      if IsDir(disk.nodes, extraction + [n]) {
        SingleMoves(a, extraction, target, t, n);
        disk.Rename(extraction + [n], target);
        disk.TryRemoveDirAll(extraction);
        return;
      }
    }
    assert forall n :: !SingleDir(t, n) by { NoSingle(a, extraction, t, entries); }
    NotSingle(t);
    ManyStart(a, extraction, target, t);
    ManyEnd(a, extraction, target, t);
    var made := disk.CreateDirAll(target);
    MoveEntries(disk, extraction, target, a, t);
    disk.TryRemoveDirAll(extraction);
  }

  lemma NoSingle(a: Fs, extraction: Path, t: Fs, entries: set<Name>)
    requires RoomFor(a, extraction) && entries == Children(t, [])
    requires |entries| == 1 ==> forall n :: n in entries ==> !IsDir(a + Graft(extraction, t), extraction + [n])
    ensures forall n :: !SingleDir(t, n)
  {
    forall n
      ensures !SingleDir(t, n)
    {
      GraftBelow(extraction, t, [n]);
      assert |{n}| == 1 && n in {n};
    }
  }

  /**
   * `extract_archive_and_replace`. The archive is unpacked beside the target; only when every entry has been
   * accepted is the old target touched.
   */
  method ExtractArchiveAndReplace(disk: Disk, decode: Bytes -> seq<TarItem>, staging: Path, extraction: Path, target: Path)
    returns (r: Result<(), ArchiveError>)
    requires TreeShaped(disk.nodes) && IsFile(disk.nodes, staging) && IsDir(disk.nodes, Parent(target))
    requires Neighbours(staging, extraction, target)
    modifies disk
    ensures var items := decode(old(disk.nodes)[staging].data);
            && (r.Ok? <==> !IsFile(old(disk.nodes), extraction) && Extracted(items).Some?)
            && (r.Ok? ==> disk.nodes ==
                            Replaced(old(disk.nodes), staging, extraction, target, Unwrapped(Extracted(items).value)))
            && (r.Ok? ==> forall i :: 0 <= i < |items| ==>
                            && items[i].Entry? && !items[i].kind.OtherKind?
                            && (items[i].path != "" ==> items[i].path[0] != '/') && ".." !in Split(items[i].path))
    ensures r.Err? ==>
              disk.nodes == if IsFile(old(disk.nodes), extraction) then old(disk.nodes)
                            else Without(old(disk.nodes), extraction)
                                 + Graft(extraction, ExtractedUntil(decode(old(disk.nodes)[staging].data)))
    ensures r.Err? ==> Without(disk.nodes, extraction) == Without(old(disk.nodes), extraction)
    ensures r.Err? ==>
              if IsFile(old(disk.nodes), extraction) then r.error.ArchiveIo?
              else exists i :: StopsAt(decode(old(disk.nodes)[staging].data), i, r.error)
  {
    ghost var fs := disk.nodes;
    ghost var base := Without(fs, extraction);
    if extraction in disk.nodes {
      if IsFile(disk.nodes, extraction) {
        return Err(ArchiveIo(NotADirectory));
      }
      disk.RemoveDirAll(extraction);
    } else {
      AbsentMeansNothing(fs, extraction);
    }
    AncestorsStay(fs, Parent(target), extraction);
    NewDir(base, extraction);
    var made := disk.CreateDirAll(extraction);

    SiblingsApart(staging, extraction);
    GraftAt(extraction, EMPTY_DIR, staging);
    var items := decode(disk.nodes[staging].data);
    var extracted := ExtractItems(disk, items, extraction, base);
    if extracted.Err? {
      return extracted;
    }
    ghost var t := Extracted(items).value;
    ExtractedShape(items);
    AcceptedAreSafe(items);

    TargetNotBlocked(fs, extraction, target, t);
    TargetGone(fs, extraction, target, t);
    BothRooms(fs, extraction, target);
    var removed := RemovePathIfExists(disk, target);
    InstallExtracted(disk, extraction, target, Cleared(fs, extraction, target), t);
    StagingGone(fs, staging, extraction, target, Unwrapped(t));
    disk.TryRemoveFile(staging);
    return Ok(());
  }

  lemma StagingGone(fs: Fs, staging: Path, extraction: Path, target: Path, u: Fs)
    requires IsFile(fs, staging) && Neighbours(staging, extraction, target)
    ensures var full := Cleared(fs, extraction, target) + Graft(target, u);
            IsFile(full, staging) && Without(full, staging) == Replaced(fs, staging, extraction, target, u)
  {
    SiblingsApart(staging, extraction);
    SiblingsApart(staging, target);
    GraftAt(target, u, staging);
    WithoutApart(Cleared(fs, extraction, target), target, u, staging);
  }
}

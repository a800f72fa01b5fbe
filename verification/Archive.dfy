/** Archive entries, extracting them into a tree and onto the disk, and moving an extracted tree. */
module Archive {
  import opened Basics
  import opened Text
  import opened FileTree
  import opened WorkspacePath

  datatype EntryKind = Regular | Directory | OtherKind

  /** An item of the archive's entry stream; a damaged archive yields an unreadable one. */
  datatype TarItem = Entry(path: string, kind: EntryKind, data: Bytes) | Unreadable

  datatype ArchiveError = ArchiveIo(io: IoError) | Damaged | EscapesTarget(path: string) | UnsupportedType(path: string)

  predicate Escapes(path: string) { IsAbsolute(path) || ".." in Split(path) }

  predicate ValidItem(item: TarItem) {
    item.Entry? && !Escapes(item.path) && !item.kind.OtherKind?
  }

  // ---- unpacking one entry ----

  /** `unpack_in`: missing parents are created, files are overwritten, a clash of file and directory fails. */
  function Unpack(fs: Fs, at: Path, item: TarItem): Option<Fs>
    requires ValidItem(item)
  {
    var rel := Parts(item.path);
    if rel == [] then Some(fs)
    else
      var p := at + rel;
      if !DirsPossible(fs, Parent(p)) then None
      else Place(WithDirs(fs, Parent(p)), p, item)
  }

  function Place(fs: Fs, p: Path, item: TarItem): Option<Fs>
    requires ValidItem(item)
  {
    if item.kind.Directory? then
      if IsFile(fs, p) then None else Some(fs[p := Dir])
    else
      if IsDir(fs, p) then None else Some(fs[p := File(item.data)])
  }

  const EMPTY_DIR: Fs := map[[] := Dir]

  /** The tree that extracting all items into an empty directory leaves there, if every item is accepted. */
  function Extracted(items: seq<TarItem>): Option<Fs> {
    if |items| == 0 then Some(EMPTY_DIR)
    else
      var before := Extracted(items[..|items| - 1]);
      var item := items[|items| - 1];
      if before.None? || !ValidItem(item) then None else Unpack(before.value, [], item)
  }

  /** One bad item anywhere in the archive rejects all of it. */
  lemma {:induction false} BadItemRejects(items: seq<TarItem>, i: nat)
    requires i < |items| && !ValidItem(items[i])
    ensures Extracted(items).None?
  {
    if i < |items| - 1 { BadItemRejects(items[..|items| - 1], i); }
  }

  /**
   * Whatever else an archive holds, one entry with an absolute path, with a `..` among its names, of another kind than
   * file or directory, or unreadable, makes it refused.
   */
  lemma UnsafeEntryRefused(items: seq<TarItem>, i: nat)
    requires i < |items|
    requires match items[i]
             case Unreadable => true
             case Entry(path, kind, _) => (path != "" && path[0] == '/') || ".." in Split(path) || kind.OtherKind?
    ensures Extracted(items).None?
  {
    BadItemRejects(items, i);
  }

  lemma AcceptedAreSafe(items: seq<TarItem>)
    requires Extracted(items).Some?
    ensures forall i :: 0 <= i < |items| ==>
              && items[i].Entry? && !items[i].kind.OtherKind?
              && (items[i].path != "" ==> items[i].path[0] != '/') && ".." !in Split(items[i].path)
  {
    forall i | 0 <= i < |items|
      ensures ValidItem(items[i])
    {
      if !ValidItem(items[i]) { BadItemRejects(items, i); }
    }
  }

  /** The complaint of an extraction that stops at item `i`, the first that cannot be taken. */
  ghost predicate StopsAt(items: seq<TarItem>, i: nat, error: ArchiveError) {
    && i < |items| && Extracted(items[..i]).Some? && Extracted(items[..i + 1]).None?
    && match items[i]
       case Unreadable => error == Damaged
       case Entry(path, kind, _) =>
         if (path != "" && path[0] == '/') || ".." in Split(path) then error == EscapesTarget(path)
         else if kind.OtherKind? then error == UnsupportedType(path)
         else error.ArchiveIo?
  }

  lemma {:induction false} ExtractedIsDir(items: seq<TarItem>)
    ensures Extracted(items).Some? ==> IsDir(Extracted(items).value, [])
  {
    if |items| > 0 {
      ExtractedIsDir(items[..|items| - 1]);
      if Extracted(items).Some? {
        var before, item := Extracted(items[..|items| - 1]).value, items[|items| - 1];
        if Parts(item.path) != [] {
          WithDirsAt(before, Parent(Parts(item.path)), []);
        }
      }
    }
  }

  // ---- a tree hung somewhere in the filesystem ----

  /** `base` has directories all the way to `p`, and nothing at or below `p`. */
  ghost predicate RoomFor(base: Fs, p: Path) {
    && (forall i :: 0 <= i < |p| ==> IsDir(base, p[..i]))
    && NothingAt(base, p)
  }

  lemma PrefixCases(p: Path, r: Path, i: nat)
    requires i <= |p + r|
    ensures i < |p| ==> (p + r)[..i] == p[..i]
    ensures i >= |p| ==> (p + r)[..i] == p + r[..i - |p|]
  {
  }

  lemma HungDirsPossible(base: Fs, p: Path, t: Fs, r: Path)
    requires RoomFor(base, p) && IsDir(t, [])
    ensures DirsPossible(base + Graft(p, t), p + r) <==> DirsPossible(t, r)
  {
    var fs := base + Graft(p, t);
    if DirsPossible(t, r) {
      forall i | 0 <= i <= |p + r| && (p + r)[..i] in fs
        ensures fs[(p + r)[..i]].Dir?
      {
        PrefixCases(p, r, i);
        GraftAt(p, t, (p + r)[..i]);
        if i >= |p| { GraftBelow(p, t, r[..i - |p|]); }
      }
    }
    if DirsPossible(fs, p + r) {
      forall j | 0 <= j <= |r| && r[..j] in t
        ensures t[r[..j]].Dir?
      {
        PrefixCases(p, r, |p| + j);
        GraftBelow(p, t, r[..j]);
      }
    }
  }

  lemma HungWithDirs(base: Fs, p: Path, t: Fs, r: Path)
    requires RoomFor(base, p) && IsDir(t, [])
    ensures WithDirs(base + Graft(p, t), p + r) == base + Graft(p, WithDirs(t, r))
  {
    var a, b := WithDirs(base + Graft(p, t), p + r), base + Graft(p, WithDirs(t, r));
    forall q
      ensures q in a <==> q in b
      ensures q in a ==> a[q] == b[q]
    {
      HungWithDirsAt(base, p, t, r, q);
    }
  }

  lemma HungWithDirsAt(base: Fs, p: Path, t: Fs, r: Path, q: Path)
    requires RoomFor(base, p) && IsDir(t, [])
    ensures q in WithDirs(base + Graft(p, t), p + r) <==> q in base + Graft(p, WithDirs(t, r))
    ensures q in base + Graft(p, WithDirs(t, r)) ==>
              WithDirs(base + Graft(p, t), p + r)[q] == (base + Graft(p, WithDirs(t, r)))[q]
  {
    WithDirsAt(base + Graft(p, t), p + r, q);
    GraftAt(p, t, q);
    GraftAt(p, WithDirs(t, r), q);
    if p <= q {
      SplitAtPrefix(p, q);
      WithDirsAt(t, r, q[|p|..]);
      assert q <= p + r <==> q[|p|..] <= r;
    } else if q <= p + r {
      assert q == (p + r)[..|q|];
      PrefixCases(p, r, |q|);
    }
  }

  lemma HungPlace(base: Fs, p: Path, t: Fs, r: Path, item: TarItem)
    requires RoomFor(base, p) && ValidItem(item)
    ensures Place(base + Graft(p, t), p + r, item) ==
              match Place(t, r, item)
              case None => None
              case Some(t') => Some(base + Graft(p, t'))
  {
    GraftBelow(p, t, r);
    GraftUpdate(base, p, t, r, Dir);
    GraftUpdate(base, p, t, r, File(item.data));
  }

  lemma HungUnpack(base: Fs, p: Path, t: Fs, item: TarItem)
    requires RoomFor(base, p) && IsDir(t, []) && ValidItem(item)
    ensures Unpack(base + Graft(p, t), p, item) ==
              match Unpack(t, [], item)
              case None => None
              case Some(t') => Some(base + Graft(p, t'))
  {
    var rel := Parts(item.path);
    if rel != [] {
      assert Parent(p + rel) == p + Parent(rel);
      assert [] + rel == rel;
      HungDirsPossible(base, p, t, Parent(rel));
      HungWithDirs(base, p, t, Parent(rel));
      HungPlace(base, p, WithDirs(t, Parent(rel)), rel, item);
    }
  }

  // ---- what the extracted tree looks like ----

  lemma {:induction false} PiecesHaveNoSlash(s: string, i: nat)
    requires i < |Split(s)|
    ensures !HasSlash(Split(s)[i])
  {
    if s != "" {
      var rest := Split(s[1..]);
      if s[0] == '/' {
        if i > 0 { PiecesHaveNoSlash(s[1..], i - 1); }
      } else {
        PiecesHaveNoSlash(s[1..], i);
      }
    }
  }

  lemma {:induction false} DropDotsKeeps(pieces: seq<string>, n: string)
    ensures n in DropDots(pieces) <==> n in pieces && n != "" && n != "."
  {
    if pieces != [] {
      DropDotsKeeps(pieces[1..], n);
      assert pieces == [pieces[0]] + pieces[1..];
    }
  }

  lemma PartsValid(path: string)
    requires !Escapes(path)
    ensures ValidNames(Parts(path))
  {
    forall i | 0 <= i < |Parts(path)|
      ensures ValidName(Parts(path)[i])
    {
      var n := Parts(path)[i];
      DropDotsKeeps(Split(path), n);
      var j :| 0 <= j < |Split(path)| && Split(path)[j] == n;
      PiecesHaveNoSlash(path, j);
    }
  }

  lemma PlaceShape(t: Fs, p: Path, item: TarItem)
    requires TreeShaped(t) && ValidItem(item) && p != [] && ValidNames(p) && IsDir(t, Parent(p))
    ensures Place(t, p, item).Some? ==> TreeShaped(Place(t, p, item).value)
  {
    if Place(t, p, item).Some? {
      UpdateShape(t, p, if item.kind.Directory? then Dir else File(item.data));
    }
  }

  lemma PlacedShape(t: Fs, rel: Path, item: TarItem)
    requires TreeShaped(t) && ValidItem(item) && rel != [] && ValidNames(rel) && DirsPossible(t, Parent(rel))
    ensures Place(WithDirs(t, Parent(rel)), rel, item).Some? ==>
              TreeShaped(Place(WithDirs(t, Parent(rel)), rel, item).value)
  {
    WithDirsShape(t, Parent(rel));
    PlaceShape(WithDirs(t, Parent(rel)), rel, item);
  }

  lemma UnpackShape(t: Fs, item: TarItem)
    requires TreeShaped(t) && ValidItem(item)
    ensures Unpack(t, [], item).Some? ==> TreeShaped(Unpack(t, [], item).value)
  {
    var rel := Parts(item.path);
    PartsValid(item.path);
    assert [] + rel == rel;
    if rel != [] && DirsPossible(t, Parent(rel)) {
      PlacedShape(t, rel, item);
    }
  }

  lemma {:induction false} ExtractedShape(items: seq<TarItem>)
    ensures Extracted(items).Some? ==> TreeShaped(Extracted(items).value)
  {
    if |items| > 0 {
      var before, item := Extracted(items[..|items| - 1]), items[|items| - 1];
      ExtractedShape(items[..|items| - 1]);
      if before.Some? && ValidItem(item) {
        UnpackShape(before.value, item);
      }
    }
  }

  // ---- what an extraction that stops leaves ----

  /** The tree after one more entry has been tried, accepted or not: missing parents may have been made in vain. */
  function Tried(t: Fs, item: TarItem): Fs
    requires ValidItem(item)
  {
    var rel := Parts(item.path);
    match Unpack(t, [], item)
    case Some(t') => t'
    case None => if DirsPossible(t, Parent(rel)) then WithDirs(t, Parent(rel)) else t
  }

  /** The tree left by an extraction: everything, or what had been unpacked when it stopped at its first bad entry. */
  function ExtractedUntil(items: seq<TarItem>): Fs {
    if |items| == 0 then EMPTY_DIR
    else
      var before := Extracted(items[..|items| - 1]);
      var item := items[|items| - 1];
      if before.None? then ExtractedUntil(items[..|items| - 1])
      else if !ValidItem(item) then before.value
      else Tried(before.value, item)
  }

  lemma TriedShape(t: Fs, item: TarItem)
    requires TreeShaped(t) && ValidItem(item)
    ensures TreeShaped(Tried(t, item))
  {
    UnpackShape(t, item);
    var rel := Parts(item.path);
    PartsValid(item.path);
    if Unpack(t, [], item).None? && DirsPossible(t, Parent(rel)) {
      WithDirsShape(t, Parent(rel));
    }
  }

  lemma {:induction false} ExtractedUntilShape(items: seq<TarItem>)
    ensures TreeShaped(ExtractedUntil(items))
    ensures Extracted(items).Some? ==> ExtractedUntil(items) == Extracted(items).value
  {
    if |items| > 0 {
      var init, item := items[..|items| - 1], items[|items| - 1];
      ExtractedUntilShape(init);
      ExtractedShape(init);
      if Extracted(init).Some? && ValidItem(item) {
        TriedShape(Extracted(init).value, item);
      }
    }
  }

  lemma {:induction false} StoppedExtraction(items: seq<TarItem>, k: nat)
    requires k <= |items| && Extracted(items[..k]).None?
    ensures ExtractedUntil(items) == ExtractedUntil(items[..k]) && Extracted(items).None?
    decreases |items|
  {
    if k == |items| {
      assert items[..k] == items;
    } else {
      assert items[..|items| - 1][..k] == items[..k];
      StoppedExtraction(items[..|items| - 1], k);
    }
  }

  // ---- the unwrap rule ----

  ghost predicate SingleDir(t: Fs, n: Name) { Children(t, []) == {n} && IsDir(t, [n]) }

  /** A tree whose only entry is one directory is replaced by that directory. */
  ghost function Unwrapped(t: Fs): Fs {
    if n :| SingleDir(t, n) then Subtree(t, [n]) else t
  }

  lemma UnwrappedSingle(t: Fs, n: Name)
    requires SingleDir(t, n)
    ensures Unwrapped(t) == Subtree(t, [n])
  {
    forall m | SingleDir(t, m)
      ensures m == n
    {
      assert m in Children(t, []);
    }
  }

  // ---- moving the top-level entries one by one ----

  function OnlyTops(t: Fs, tops: set<Name>): Fs {
    map r | r in t && (r == [] || r[0] in tops) :: t[r]
  }

  lemma OnlyTopsAll(t: Fs)
    requires TreeShaped(t)
    ensures OnlyTops(t, Children(t, [])) == t
    ensures OnlyTops(t, {}) == EMPTY_DIR
  {
    forall r | r in t && r != []
      ensures r[0] in Children(t, [])
    {
      if |r| > 1 { AncestorsAreDirs(t, r, 1); }
      assert r[..1] == [r[0]] == [] + [r[0]];
      ChildIn(t, [], r[0]);
    }
  }

  lemma TopSubtreeAt(t: Fs, tops: set<Name>, n: Name, r: Path)
    requires n in tops
    ensures r in Graft([n], Subtree(OnlyTops(t, tops), [n])) <==> r in t && r != [] && r[0] == n
    ensures r in Graft([n], Subtree(OnlyTops(t, tops), [n])) ==> Graft([n], Subtree(OnlyTops(t, tops), [n]))[r] == t[r]
  {
    GraftAt([n], Subtree(OnlyTops(t, tops), [n]), r);
    if [n] <= r {
      SplitAtPrefix([n], r);
      SubtreeAt(OnlyTops(t, tops), [n], r[1..]);
    }
  }

  predicate UnderTops(t: Fs, tops: set<Name>, r: Path) { r in t && (r == [] || r[0] in tops) }

  lemma MoreTops(t: Fs, tops: set<Name>, n: Name, r: Path)
    ensures UnderTops(t, tops + {n}, r) <==> UnderTops(t, tops, r) || (r in t && r != [] && r[0] == n)
  {
  }

  lemma TopsAt(t: Fs, tops: set<Name>, r: Path)
    ensures r in OnlyTops(t, tops) <==> UnderTops(t, tops, r)
    ensures r in OnlyTops(t, tops) ==> OnlyTops(t, tops)[r] == t[r]
  {
  }

  lemma TopArrivesAt(t: Fs, moved: set<Name>, rest: set<Name>, n: Name, r: Path)
    requires n in rest && n !in moved
    ensures r in OnlyTops(t, moved + {n}) <==>
              r in OnlyTops(t, moved) || r in Graft([n], Subtree(OnlyTops(t, rest), [n]))
    ensures r in OnlyTops(t, moved + {n}) && r in Graft([n], Subtree(OnlyTops(t, rest), [n])) ==>
              OnlyTops(t, moved + {n})[r] == Graft([n], Subtree(OnlyTops(t, rest), [n]))[r]
    ensures r in OnlyTops(t, moved + {n}) && r in OnlyTops(t, moved) ==>
              OnlyTops(t, moved + {n})[r] == OnlyTops(t, moved)[r]
  {
    MoreTops(t, moved, n, r);
    TopsAt(t, moved, r);
    TopsAt(t, moved + {n}, r);
    TopSubtreeAt(t, rest, n, r);
  }

  /** Taking in one more top-level entry is hanging its subtree there. */
  lemma TopArrives(t: Fs, moved: set<Name>, rest: set<Name>, n: Name)
    requires n in rest && n !in moved
    ensures OnlyTops(t, moved) + Graft([n], Subtree(OnlyTops(t, rest), [n])) == OnlyTops(t, moved + {n})
  {
    var a, b, c := OnlyTops(t, moved), Graft([n], Subtree(OnlyTops(t, rest), [n])), OnlyTops(t, moved + {n});
    forall r
      ensures r in c <==> r in a || r in b
      ensures r in c ==> (r in b ==> c[r] == b[r]) && (r !in b ==> r in a && c[r] == a[r])
    {
      TopArrivesAt(t, moved, rest, n, r);
    }
    SumIs(a, b, c);
  }

  lemma TopLeaves(t: Fs, rest: set<Name>, n: Name)
    requires n in rest
    ensures Without(OnlyTops(t, rest), [n]) == OnlyTops(t, rest - {n})
  {
    forall r
      ensures r in OnlyTops(t, rest) && !([n] <= r) <==> r in OnlyTops(t, rest - {n})
      ensures r in OnlyTops(t, rest - {n}) ==> OnlyTops(t, rest)[r] == OnlyTops(t, rest - {n})[r]
    {
      TopsAt(t, rest, r);
      TopsAt(t, rest - {n}, r);
      assert [n] <= r <==> r != [] && r[0] == n;
    }
    WithoutIs(OnlyTops(t, rest), [n], OnlyTops(t, rest - {n}));
  }

  // ---- the calls on the disk ----

  /** `remove_path_if_exists`: a directory with everything in it, a file, or nothing. */
  method RemovePathIfExists(disk: Disk, target: Path) returns (r: Result<(), IoError>)
    modifies disk
    ensures r.Err? <==> Metadata(old(disk.nodes), target).Blocked?
    ensures r.Err? ==> r.error == NotADirectory
    ensures disk.nodes == if target in old(disk.nodes) then Without(old(disk.nodes), target) else old(disk.nodes)
  {
    match Metadata(disk.nodes, target)
    case Found(Dir) =>
      disk.RemoveDirAll(target);
      return Ok(());
    case Found(File(_)) =>
      disk.RemoveFile(target);
      return Ok(());
    case Missing =>
      return Ok(());
    case Blocked =>
      return Err(NotADirectory);
  }

  /** What unpacking a named entry below `at` needs and does, said of the tree that stands there. */
  lemma UnpackSteps(base: Fs, at: Path, t: Fs, item: TarItem)
    requires ValidItem(item) && TreeShaped(t) && RoomFor(base, at) && Parts(item.path) != []
    ensures var fs, rel := base + Graft(at, t), Parts(item.path);
            var p := at + rel;
            && Parent(p) == at + Parent(rel)
            && (DirsPossible(fs, Parent(p)) <==> DirsPossible(t, Parent(rel)))
            && (DirsPossible(t, Parent(rel)) ==>
                  && IsDir(WithDirs(fs, Parent(p)), Parent(p))
                  && WithDirs(fs, Parent(p)) == base + Graft(at, WithDirs(t, Parent(rel))))
  {
    var rel := Parts(item.path);
    assert Parent(at + rel) == at + Parent(rel);
    HungDirsPossible(base, at, t, Parent(rel));
    if DirsPossible(t, Parent(rel)) {
      HungWithDirs(base, at, t, Parent(rel));
      UnpackParent(base, at, t, rel);
    }
  }

  /** Unpacks one validated entry below `at`, where so far the tree `t` has been unpacked. */
  method UnpackIn(disk: Disk, at: Path, item: TarItem, ghost base: Fs, ghost t: Fs) returns (r: Result<(), IoError>)
    requires ValidItem(item) && TreeShaped(t) && RoomFor(base, at) && disk.nodes == base + Graft(at, t)
    modifies disk
    ensures r.Ok? <==> Unpack(t, [], item).Some?
    ensures disk.nodes == base + Graft(at, Tried(t, item))
    ensures r.Ok? ==> disk.nodes == base + Graft(at, Unpack(t, [], item).value)
    ensures r.Err? ==> Without(disk.nodes, at) == base
  {
    HungUnpack(base, at, t, item);
    SubtreeOfGraft(base, at, Tried(t, item));
    var rel := Parts(item.path);
    if rel == [] {
      return Ok(());
    }
    UnpackSteps(base, at, t, item);
    var p := at + rel;
    var made := disk.CreateDirAll(Parent(p));
    if made.Err? {
      return Err(made.error);
    }
    r := PlaceOnDisk(disk, p, item);
  }

  method PlaceOnDisk(disk: Disk, p: Path, item: TarItem) returns (r: Result<(), IoError>)
    requires ValidItem(item) && p != [] && IsDir(disk.nodes, Parent(p))
    modifies disk
    ensures r.Ok? <==> Place(old(disk.nodes), p, item).Some?
    ensures disk.nodes == if r.Ok? then Place(old(disk.nodes), p, item).value else old(disk.nodes)
  {
    if item.kind.Directory? {
      if IsFile(disk.nodes, p) {
        return Err(AlreadyExists);
      }
      disk.Put(p, Dir);
    } else {
      if IsDir(disk.nodes, p) {
        return Err(IsADirectory);
      }
      disk.Put(p, File(item.data));
    }
    return Ok(());
  }

  lemma UnpackParent(base: Fs, at: Path, t: Fs, rel: Path)
    requires TreeShaped(t) && RoomFor(base, at) && rel != [] && DirsPossible(t, Parent(rel))
    ensures IsDir(base + Graft(at, WithDirs(t, Parent(rel))), at + Parent(rel))
  {
    WithDirsAt(t, Parent(rel), Parent(rel));
    GraftBelow(at, WithDirs(t, Parent(rel)), Parent(rel));
    if Parent(rel) in t { assert Parent(rel)[..|Parent(rel)|] == Parent(rel); }
  }

  lemma ExtractNext(items: seq<TarItem>, i: nat)
    requires i < |items| && Extracted(items[..i]).Some?
    ensures Extracted(items[..i + 1]) ==
              if ValidItem(items[i]) then Unpack(Extracted(items[..i]).value, [], items[i]) else None
  {
    assert items[..i + 1][..i] == items[..i];
  }

  /** One more item extends the extraction by its unpacking, or ends it for good. */
  lemma ExtractStep(items: seq<TarItem>, i: nat)
    requires i < |items| && Extracted(items[..i]).Some?
    ensures TreeShaped(Extracted(items[..i]).value)
    ensures Extracted(items[..i + 1]) ==
              if ValidItem(items[i]) then Unpack(Extracted(items[..i]).value, [], items[i]) else None
    ensures Extracted(items[..i + 1]).None? ==>
              && Extracted(items).None?
              && ExtractedUntil(items) ==
                   if ValidItem(items[i]) then Tried(Extracted(items[..i]).value, items[i])
                   else Extracted(items[..i]).value
  {
    ExtractedShape(items[..i]);
    ExtractNext(items, i);
    if Extracted(items[..i + 1]).None? {
      StoppedExtraction(items, i + 1);
      assert items[..i + 1][..i] == items[..i];
    }
  }

  /** The extraction loop: every item is validated before it is unpacked; the first bad one stops everything. */
  method ExtractItems(disk: Disk, items: seq<TarItem>, at: Path, ghost base: Fs)
    returns (r: Result<(), ArchiveError>)
    requires RoomFor(base, at) && disk.nodes == base + Graft(at, EMPTY_DIR)
    modifies disk
    ensures r.Ok? <==> Extracted(items).Some?
    ensures r.Ok? ==> disk.nodes == base + Graft(at, Extracted(items).value)
    ensures disk.nodes == base + Graft(at, ExtractedUntil(items))
    ensures r.Err? ==> Without(disk.nodes, at) == base
    ensures r.Err? ==> exists i :: StopsAt(items, i, r.error)
  {
    SubtreeOfGraft(base, at, ExtractedUntil(items));
    var i := 0;
    while i < |items|
      invariant i <= |items| && Extracted(items[..i]).Some?
      invariant disk.nodes == base + Graft(at, Extracted(items[..i]).value)
    {
      var item := items[i];
      ExtractStep(items, i);
      if item.Unreadable? {
        assert StopsAt(items, i, Damaged);
        return Err(Damaged);
      }
      if Escapes(item.path) {
        assert StopsAt(items, i, EscapesTarget(item.path));
        return Err(EscapesTarget(item.path));
      }
      if item.kind.OtherKind? {
        assert StopsAt(items, i, UnsupportedType(item.path));
        return Err(UnsupportedType(item.path));
      }
      var unpacked := UnpackIn(disk, at, item, base, Extracted(items[..i]).value);
      if unpacked.Err? {
        assert StopsAt(items, i, ArchiveIo(unpacked.error));
        return Err(ArchiveIo(unpacked.error));
      }
      i := i + 1;
    }
    assert items[..i] == items;
    ExtractedUntilShape(items);
    return Ok(());
  }

  // ---- replacing the target ----

  ghost predicate Siblings(p: Path, q: Path) {
    p != [] && q != [] && p != q && Parent(p) == Parent(q)
  }

  lemma SiblingsApart(p: Path, q: Path)
    requires Siblings(p, q)
    ensures Apart(p, q) && |p| == |q|
  {
    assert p == Parent(p) + [p[|p| - 1]] && q == Parent(q) + [q[|q| - 1]];
  }

  lemma MovedEntry(a: Fs, target: Path, x: Fs, at: Path, y: Fs, n: Name)
    requires NothingAt(a, target) && NothingAt(a, at) && Apart(target, at)
    ensures var fs := a + Graft(target, x) + Graft(at, y);
            && Without(fs, at + [n]) + Graft(target + [n], Subtree(fs, at + [n]))
               == a + Graft(target, x + Graft([n], Subtree(y, [n]))) + Graft(at, Without(y, [n]))
  {
    var base := a + Graft(target, x);
    NothingAtGraft(a, target, x, at);
    WithoutHung(base, at, y, [n]);
    SubtreeHung(base, at, y, [n]);
    var s := Subtree(y, [n]);
    InsideApart(target, at, n);
    GraftsCommute(base, at, Without(y, [n]), target + [n], s);
    GraftInside(a, target, x, n, s);
  }

  lemma PrefixOfSnoc(q: Path, p: Path, n: Name)
    ensures q <= p + [n] ==> q <= p || q == p + [n]
    ensures p + [n] <= q ==> p <= q && [n] <= q[|p|..]
  {
    if |q| <= |p| { assert q <= p + [n] ==> (p + [n])[..|q|] == p[..|q|]; }
    if |p| < |q| { assert p + [n] <= q ==> q[..|p| + 1] == p + [n]; }
  }

  lemma InsideApart(p: Path, q: Path, n: Name)
    requires Apart(p, q)
    ensures Apart(q, p + [n])
  {
    PrefixOfSnoc(q, p, n);
  }

  lemma NothingAtGraft(a: Fs, p: Path, x: Fs, q: Path)
    requires NothingAt(a, q) && Apart(p, q)
    ensures NothingAt(a + Graft(p, x), q)
  {
    forall r
      ensures r in Graft(p, x) ==> !(q <= r)
    {
      GraftAt(p, x, r);
      if p <= r && q <= r { NoCommonExtension(p, q, r); }
    }
  }

  lemma RenameReady(a: Fs, target: Path, x: Fs, at: Path, y: Fs, n: Name)
    requires NothingAt(a, target) && NothingAt(a, at) && Apart(target, at)
    requires IsDir(x, []) && [n] in y && NothingAt(x, [n])
    ensures var fs := a + Graft(target, x) + Graft(at, y);
            && at + [n] in fs && IsDir(fs, Parent(target + [n])) && NothingAt(fs, target + [n]) && !(at + [n] <= target + [n])
  {
    var fs := a + Graft(target, x) + Graft(at, y);
    GraftBelow(at, y, [n]);
    GraftBelow(target, x, []);
    assert target + [] == target && Parent(target + [n]) == target;
    GraftAt(at, y, target);
    InsideApart(target, at, n);
    forall q | q in fs
      ensures !(target + [n] <= q)
    {
      GraftAt(target, x, q);
      GraftAt(at, y, q);
      PrefixOfSnoc(q, target, n);
      if at <= q && target <= q { NoCommonExtension(target, at, q); }
    }
    PrefixOfSnoc(at, target, n);
    PrefixOfSnoc(target + [n], at, n);
  }

  /** The state of the move: the `remaining` top-level entries still below `at`, the others already below `target`. */
  ghost function HalfMoved(a: Fs, target: Path, at: Path, t: Fs, remaining: set<Name>): Fs {
    a + Graft(target, OnlyTops(t, Children(t, []) - remaining)) + Graft(at, OnlyTops(t, remaining))
  }

  ghost predicate MoveReady(a: Fs, target: Path, at: Path, t: Fs) {
    NothingAt(a, target) && NothingAt(a, at) && Apart(target, at) && TreeShaped(t)
  }

  lemma MoveStart(a: Fs, target: Path, at: Path, t: Fs)
    requires MoveReady(a, target, at, t)
    ensures HalfMoved(a, target, at, t, Children(t, [])) == a + Graft(target, EMPTY_DIR) + Graft(at, t)
    ensures HalfMoved(a, target, at, t, {}) == a + Graft(target, t) + Graft(at, EMPTY_DIR)
    ensures Children(a + Graft(target, EMPTY_DIR) + Graft(at, t), at) == Children(t, [])
  {
    OnlyTopsAll(t);
    assert Children(t, []) - Children(t, []) == {} && Children(t, []) - {} == Children(t, []);
    NothingAtGraft(a, target, EMPTY_DIR, at);
    ChildrenHung(a + Graft(target, EMPTY_DIR), at, t);
  }

  /** What renaming one more entry into the target needs and does. */
  lemma MoveStep(fs: Fs, a: Fs, target: Path, at: Path, t: Fs, remaining: set<Name>, n: Name)
    requires MoveReady(a, target, at, t)
    requires n in remaining && remaining <= Children(t, []) && fs == HalfMoved(a, target, at, t, remaining)
    ensures at + [n] in fs && IsDir(fs, Parent(target + [n])) && NothingAt(fs, target + [n])
    ensures !(at + [n] <= target + [n])
    ensures Without(fs, at + [n]) + Graft(target + [n], Subtree(fs, at + [n]))
            == HalfMoved(a, target, at, t, remaining - {n})
  {
    var moved := Children(t, []) - remaining;
    assert Children(t, []) - (remaining - {n}) == moved + {n};
    ChildIn(t, [], n);
    assert [] + [n] == [n];
    RenameReady(a, target, OnlyTops(t, moved), at, OnlyTops(t, remaining), n);
    MovedEntry(a, target, OnlyTops(t, moved), at, OnlyTops(t, remaining), n);
    TopArrives(t, moved, remaining, n);
    TopLeaves(t, remaining, n);
  }

  /** The second loop: every top-level entry is renamed into the fresh target directory, in any order. */
  method MoveEntries(disk: Disk, at: Path, target: Path, ghost a: Fs, ghost t: Fs)
    requires MoveReady(a, target, at, t)
    requires disk.nodes == a + Graft(target, EMPTY_DIR) + Graft(at, t)
    modifies disk
    ensures disk.nodes == a + Graft(target, t) + Graft(at, EMPTY_DIR)
  {
    MoveStart(a, target, at, t);
    var remaining := Children(disk.nodes, at);
    while remaining != {}
      invariant remaining <= Children(t, [])
      invariant disk.nodes == HalfMoved(a, target, at, t, remaining)
    {
      var n :| n in remaining;
      MoveStep(disk.nodes, a, target, at, t, remaining, n);
      disk.Rename(at + [n], target + [n]);
      remaining := remaining - {n};
    }
  }
}

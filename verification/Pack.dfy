/** Packing a file or a directory under one root name, and why extracting the archive gives it back. */
module Pack {
  import opened Basics
  import opened Text
  import opened FileTree
  import opened WorkspacePath
  import opened Archive
  import opened ShortReads
  import opened TempFiles

  /** Nodes with valid names; where a node's parent is present it is a directory. */
  ghost predicate Nested(t: Fs) {
    && (forall r :: r in t ==> ValidNames(r))
    && (forall r :: r in t && r != [] && Parent(r) in t ==> t[Parent(r)].Dir?)
  }

  /** The archive entry of the node at `r` below the packed root, a directory's with or without a slash at the end. */
  function PackedEntry(rootName: Name, r: Path, node: Node, slash: bool): TarItem {
    match node
    case Dir => Entry(JoinSlash([rootName] + r + if slash then [""] else []), Directory, [])
    case File(data) => Entry(JoinSlash([rootName] + r), Regular, data)
  }

  predicate IsPackedEntry(item: TarItem, rootName: Name, r: Path, node: Node) {
    item == PackedEntry(rootName, r, node, true) || item == PackedEntry(rootName, r, node, false)
  }

  /** The archive of `t`: one entry for every node, each after the entry of its parent. */
  ghost predicate IsPacking(items: seq<TarItem>, rootName: Name, t: Fs)
    decreases |items|
  {
    if items == [] then t == map[]
    else
      exists r :: r in t && EndsWith(items, rootName, t, r) && IsPacking(items[..|items| - 1], rootName, t - {r})
  }

  ghost predicate EndsWith(items: seq<TarItem>, rootName: Name, t: Fs, r: Path)
    requires items != [] && r in t
  {
    IsPackedEntry(items[|items| - 1], rootName, r, t[r]) && (r != [] ==> Parent(r) in t)
  }

  /** Such an archive has every node's entry, and no entry twice. */
  lemma {:induction false} PackingIsComplete(items: seq<TarItem>, rootName: Name, t: Fs, q: Path)
    requires IsPacking(items, rootName, t)
    ensures |items| == |t.Keys|
    ensures q in t ==> exists item :: item in items && IsPackedEntry(item, rootName, q, t[q])
    decreases |items|
  {
    if items != [] {
      var init := items[..|items| - 1];
      var r :| r in t && EndsWith(items, rootName, t, r) && IsPacking(init, rootName, t - {r});
      PackingIsComplete(init, rootName, t - {r}, q);
      assert (t - {r}).Keys == t.Keys - {r};
      assert items[|items| - 1] in items;
      assert forall item :: item in init ==> item in items;
    }
  }

  lemma DropDotsTrailing(names: seq<string>)
    requires ValidNames(names)
    ensures DropDots(names + [""]) == names
    decreases |names|
  {
    if names == [] {
      assert names + [""] == [""] && [""][1..] == [];
    } else {
      assert (names + [""])[1..] == names[1..] + [""];
      DropDotsTrailing(names[1..]);
      assert names == [names[0]] + names[1..];
    }
  }

  lemma SlashedParts(names: seq<string>, slash: bool)
    requires ValidNames(names) && names != []
    ensures var path := JoinSlash(names + if slash then [""] else []); !Escapes(path) && Parts(path) == names
  {
    var pieces := names + if slash then [""] else [];
    forall i | 0 <= i < |pieces|
      ensures !HasSlash(pieces[i]) && pieces[i] != ".."
    {
      assert i < |names| ==> ValidName(pieces[i]);
    }
    SplitJoin(pieces);
    DropDotsTrailing(names);
    DropDotsValid(names);
    assert names + [] == names;
    assert ValidName(names[0]) && names[0][0] in names[0];
    assert pieces[0] == names[0] && JoinSlash(pieces)[0] == names[0][0];
  }

  /** A packed entry is accepted by the extraction's checks and names the node it was made from. */
  lemma PackedIsValid(rootName: Name, r: Path, node: Node, item: TarItem)
    requires ValidName(rootName) && ValidNames(r) && IsPackedEntry(item, rootName, r, node)
    ensures ValidItem(item) && Parts(item.path) == [rootName] + r
    ensures item.kind.Directory? <==> node.Dir?
    ensures node.File? ==> item.data == node.data
  {
    var names := [rootName] + r;
    assert ValidNames(names);
    SlashedParts(names, true);
    SlashedParts(names, false);
    assert names + [] == names;
  }

  /** The filesystem of an extraction that has unpacked `t`. */
  function UnderRoot(rootName: Name, t: Fs): Fs { EMPTY_DIR + Graft([rootName], t) }

  lemma UnderRootAt(rootName: Name, t: Fs, r: Path)
    ensures [rootName] + r in UnderRoot(rootName, t) <==> r in t
    ensures r in t ==> UnderRoot(rootName, t)[[rootName] + r] == t[r]
    ensures [] in UnderRoot(rootName, t) && UnderRoot(rootName, t)[[]] == Dir
  {
    GraftBelow([rootName], t, r);
    GraftAt([rootName], t, []);
  }

  lemma ReadyToPlace(rootName: Name, seen: Fs, r: Path)
    requires r !in seen && (r != [] ==> IsDir(seen, Parent(r)))
    requires TreeShaped(UnderRoot(rootName, seen))
    ensures var fs, p := UnderRoot(rootName, seen), [rootName] + r;
            && p !in fs
            && DirsPossible(fs, Parent(p)) && WithDirs(fs, Parent(p)) == fs
  {
    var fs, p := UnderRoot(rootName, seen), [rootName] + r;
    UnderRootAt(rootName, seen, r);
    if r == [] {
      assert Parent(p) == [];
    } else {
      assert Parent(p) == [rootName] + Parent(r);
      UnderRootAt(rootName, seen, Parent(r));
    }
    ExistingDir(fs, Parent(p));
  }

  lemma UnpackInPlace(fs: Fs, p: Path, item: TarItem)
    requires ValidItem(item) && Parts(item.path) == p && p != []
    requires DirsPossible(fs, Parent(p)) && WithDirs(fs, Parent(p)) == fs && p !in fs
    ensures Unpack(fs, [], item) == Some(fs[p := if item.kind.Directory? then Dir else File(item.data)])
  {
    assert [] + p == p;
  }

  /** Unpacking the entry of `r` adds exactly that node. */
  lemma UnpackPacked(rootName: Name, seen: Fs, r: Path, node: Node, item: TarItem)
    requires ValidName(rootName) && ValidNames(r) && r !in seen && (r != [] ==> IsDir(seen, Parent(r)))
    requires TreeShaped(UnderRoot(rootName, seen)) && IsPackedEntry(item, rootName, r, node)
    ensures ValidItem(item)
    ensures Unpack(UnderRoot(rootName, seen), [], item) == Some(UnderRoot(rootName, seen[r := node]))
  {
    PackedIsValid(rootName, r, node, item);
    ReadyToPlace(rootName, seen, r);
    UnpackInPlace(UnderRoot(rootName, seen), [rootName] + r, item);
    GraftUpdate(EMPTY_DIR, [rootName], seen, r, node);
  }

  lemma NothingPacked(rootName: Name)
    ensures UnderRoot(rootName, map[]) == EMPTY_DIR
  {
    assert Graft([rootName], map[]) == map[];
  }

  lemma ExtractOneMore(items: seq<TarItem>, before: Fs)
    requires items != [] && ValidItem(items[|items| - 1]) && Extracted(items[..|items| - 1]) == Some(before)
    ensures Extracted(items) == Unpack(before, [], items[|items| - 1])
  {
  }

  lemma PutBack(t: Fs, r: Path)
    requires r in t
    ensures (t - {r})[r := t[r]] == t
  {
  }

  lemma LastPacked(items: seq<TarItem>, rootName: Name, t: Fs, r: Path)
    requires ValidName(rootName) && Nested(t) && r in t && items != [] && EndsWith(items, rootName, t, r)
    requires Extracted(items[..|items| - 1]) == Some(UnderRoot(rootName, t - {r}))
    ensures Extracted(items) == Some(UnderRoot(rootName, t))
  {
    ExtractedShape(items[..|items| - 1]);
    UnpackPacked(rootName, t - {r}, r, t[r], items[|items| - 1]);
    ExtractOneMore(items, UnderRoot(rootName, t - {r}));
    PutBack(t, r);
  }

  /** Extracting a packed tree recreates it below the root name. */
  lemma {:induction false} PackedExtracts(items: seq<TarItem>, rootName: Name, t: Fs)
    requires ValidName(rootName) && Nested(t) && IsPacking(items, rootName, t)
    ensures Extracted(items) == Some(UnderRoot(rootName, t))
    decreases |items|
  {
    if items == [] {
      NothingPacked(rootName);
    } else {
      var init := items[..|items| - 1];
      var r :| r in t && EndsWith(items, rootName, t, r) && IsPacking(init, rootName, t - {r});
      PackedExtracts(init, rootName, t - {r});
      LastPacked(items, rootName, t, r);
    }
  }

  lemma OnlyRootOnTop(rootName: Name, t: Fs)
    requires [] in t
    ensures Children(UnderRoot(rootName, t), []) == {rootName}
  {
    var fs := UnderRoot(rootName, t);
    forall n
      ensures n in Children(fs, []) <==> n == rootName
    {
      ChildIn(fs, [], n);
      GraftAt([rootName], t, [n]);
      assert [] + [n] == [n] && [n][1..] == [];
      assert [rootName] <= [n] <==> n == rootName;
    }
  }

  /** Packing wraps one level and the unwrap rule strips one: a directory comes back as it was, empty ones included. */
  lemma PackThenExtract(items: seq<TarItem>, rootName: Name, t: Fs)
    requires ValidName(rootName) && TreeShaped(t) && IsPacking(items, rootName, t)
    ensures Extracted(items).Some?
    ensures Unwrapped(Extracted(items).value) == t
  {
    PackedExtracts(items, rootName, t);
    OnlyRootOnTop(rootName, t);
    UnderRootAt(rootName, t, []);
    assert [rootName] + [] == [rootName];
    UnwrappedSingle(UnderRoot(rootName, t), rootName);
    SubtreeOfGraft(EMPTY_DIR, [rootName], t);
  }

  /** A packed single file is not unwrapped: it comes back inside a directory. */
  lemma PackedFileStaysWrapped(items: seq<TarItem>, rootName: Name, data: Bytes)
    requires ValidName(rootName) && IsPacking(items, rootName, map[[] := File(data)])
    ensures Extracted(items).Some?
    ensures Unwrapped(Extracted(items).value) == EMPTY_DIR[[rootName] := File(data)]
  {
    var t: Fs := map[[] := File(data)];
    PackedExtracts(items, rootName, t);
    var fs := UnderRoot(rootName, t);
    OnlyRootOnTop(rootName, t);
    UnderRootFile(rootName, data);
    forall n
      ensures !SingleDir(fs, n)
    {
      assert Children(fs, []) == {n} ==> n in {rootName};
    }
  }

  lemma UnderRootFile(rootName: Name, data: Bytes)
    ensures UnderRoot(rootName, map[[] := File(data)]) == EMPTY_DIR[[rootName] := File(data)]
  {
    NothingPacked(rootName);
    GraftUpdate(EMPTY_DIR, [rootName], map[], [], File(data));
    assert [rootName] + [] == [rootName];
  }

  // ---- producing the archive ----

  /** Among any paths that are left, one has its parent already listed. */
  lemma {:induction false} SomeReady(remaining: set<Path>, p: Path)
    requires p in remaining
    ensures exists r :: r in remaining && (r == [] || Parent(r) !in remaining)
    decreases |p|
  {
    if p != [] && Parent(p) in remaining { SomeReady(remaining, Parent(p)); }
  }

  /** `append_dir_all`: every node of `t`, in any order that has directories before their contents; any read may fail. */
  method AppendAll(rootName: Name, t: Fs, faults: Faults) returns (r: Result<seq<TarItem>, IoError>)
    requires forall r :: r in t && r != [] ==> Parent(r) in t
    modifies faults
    ensures r.Ok? <==> faults.count == old(faults.count)
    ensures faults.count >= old(faults.count)
    ensures r.Ok? ==> IsPacking(r.value, rootName, t)
  {
    var items := [];
    var remaining := t.Keys;
    while remaining != {}
      invariant remaining <= t.Keys && faults.count == old(faults.count)
      invariant IsPacking(items, rootName, t - remaining)
      decreases remaining
    {
      if * {
        faults.Strike();
        return Err(Failed);
      }
      ghost var some :| some in remaining;
      SomeReady(remaining, some);
      var p :| p in remaining && (p == [] || Parent(p) !in remaining);
      var slash: bool := *;
      OneMorePacked(items, rootName, t, remaining, p, PackedEntry(rootName, p, t[p], slash));
      items := items + [PackedEntry(rootName, p, t[p], slash)];
      remaining := remaining - {p};
    }
    assert t - {} == t;
    return Ok(items);
  }

  lemma OneMorePacked(items: seq<TarItem>, rootName: Name, t: Fs, remaining: set<Path>, r: Path, item: TarItem)
    requires r in t && r in remaining && (r != [] ==> Parent(r) in t && Parent(r) !in remaining)
    requires IsPacking(items, rootName, t - remaining) && IsPackedEntry(item, rootName, r, t[r])
    ensures IsPacking(items + [item], rootName, t - (remaining - {r}))
  {
    var more, seen := items + [item], t - (remaining - {r});
    assert seen - {r} == t - remaining;
    assert more[..|more| - 1] == items;
    assert EndsWith(more, rootName, seen, r);
  }

  /** The last name of a path. */
  function FileName(p: Path, fallback: Name): Name {
    if p == [] then fallback else p[|p| - 1]
  }

  lemma SubtreeNode(fs: Fs, p: Path, r: Path)
    requires TreeShaped(fs) && p in fs && r in Subtree(fs, p)
    ensures ValidNames(r)
    ensures r != [] ==> IsDir(Subtree(fs, p), Parent(r)) && IsDir(fs, p)
  {
    SubtreeAt(fs, p, r);
    forall i | 0 <= i < |r|
      ensures ValidName(r[i])
    {
      assert (p + r)[|p| + i] == r[i];
    }
    if r != [] {
      SubtreeAt(fs, p, Parent(r));
      assert Parent(p + r) == p + Parent(r);
      assert p < p + r;
      AncestorIsDir(fs, p + r, p);
    }
  }

  lemma SubtreeRooted(fs: Fs, p: Path)
    requires TreeShaped(fs) && p in fs
    ensures Nested(Subtree(fs, p)) && [] in Subtree(fs, p)
    ensures IsDir(fs, p) ==> TreeShaped(Subtree(fs, p))
    ensures IsFile(fs, p) ==> Subtree(fs, p) == map[[] := fs[p]]
  {
    var t := Subtree(fs, p);
    SubtreeAt(fs, p, []);
    assert p + [] == p;
    forall r | r in t
      ensures ValidNames(r)
      ensures r != [] ==> IsDir(t, Parent(r)) && IsDir(fs, p)
    {
      SubtreeNode(fs, p, r);
    }
  }

  /** The name everything is packed under. */
  function RootName(fs: Fs, source: Path): Name {
    FileName(source, if IsDir(fs, source) then "workspace" else "file")
  }

  lemma RootNameValid(fs: Fs, source: Path)
    requires TreeShaped(fs) && source in fs
    ensures ValidName(RootName(fs, source))
    ensures IsFile(fs, source) ==> source != []
  {
    if source != [] { assert ValidNames(source); }
  }

  lemma SubtreeClosed(fs: Fs, p: Path)
    requires TreeShaped(fs) && p in fs
    ensures forall r :: r in Subtree(fs, p) && r != [] ==> Parent(r) in Subtree(fs, p)
  {
    forall r | r in Subtree(fs, p) && r != []
      ensures Parent(r) in Subtree(fs, p)
    {
      SubtreeNode(fs, p, r);
    }
  }

  /** Whatever order the entries were packed in, extracting them brings the source back. */
  lemma PackedSource(fs: Fs, source: Path, items: seq<TarItem>)
    requires TreeShaped(fs) && source in fs
    requires IsPacking(items, RootName(fs, source), Subtree(fs, source))
    ensures Extracted(items).Some?
    ensures IsDir(fs, source) ==> Unwrapped(Extracted(items).value) == Subtree(fs, source)
    ensures IsFile(fs, source) ==>
              && source != []
              && Unwrapped(Extracted(items).value) == EMPTY_DIR[[source[|source| - 1]] := fs[source]]
  {
    SubtreeRooted(fs, source);
    RootNameValid(fs, source);
    if IsDir(fs, source) {
      PackThenExtract(items, RootName(fs, source), Subtree(fs, source));
    } else {
      PackedFileStaysWrapped(items, RootName(fs, source), fs[source].data);
    }
  }

  /** The entry that stands for the node at `p`, named by the last name of the source and the path below it. */
  ghost predicate StandsFor(item: TarItem, fs: Fs, source: Path, p: Path)
    requires source != [] && source <= p && p in fs
  {
    && item.Entry? && Parts(item.path) == [source[|source| - 1]] + p[|source|..]
    && match fs[p]
       case Dir => item.kind.Directory?
       case File(data) => item.kind.Regular? && item.data == data
  }

  lemma {:induction false} PackedFrom(items: seq<TarItem>, rootName: Name, t: Fs, i: nat) returns (r: Path)
    requires IsPacking(items, rootName, t) && i < |items|
    ensures r in t && IsPackedEntry(items[i], rootName, r, t[r])
    decreases |items|
  {
    var init := items[..|items| - 1];
    var last :| last in t && EndsWith(items, rootName, t, last) && IsPacking(init, rootName, t - {last});
    if i < |init| { r := PackedFrom(init, rootName, t - {last}, i); } else { r := last; }
  }

  lemma NodeBelow(fs: Fs, source: Path, p: Path)
    requires TreeShaped(fs) && source in fs && p in fs && source <= p
    ensures p[|source|..] in Subtree(fs, source) && Subtree(fs, source)[p[|source|..]] == fs[p]
    ensures ValidNames(p[|source|..])
  {
    SplitAtPrefix(source, p);
    SubtreeAt(fs, source, p[|source|..]);
    SubtreeNode(fs, source, p[|source|..]);
  }

  lemma PackedStandsFor(item: TarItem, fs: Fs, source: Path, p: Path)
    requires TreeShaped(fs) && source in fs && source != [] && p in fs && source <= p
    requires ValidNames(p[|source|..]) && IsPackedEntry(item, RootName(fs, source), p[|source|..], fs[p])
    ensures StandsFor(item, fs, source, p)
  {
    RootNameValid(fs, source);
    PackedIsValid(RootName(fs, source), p[|source|..], fs[p], item);
  }

  lemma EntryOf(items: seq<TarItem>, rootName: Name, t: Fs, r: Path) returns (item: TarItem)
    requires IsPacking(items, rootName, t) && r in t
    ensures item in items && IsPackedEntry(item, rootName, r, t[r])
  {
    PackingIsComplete(items, rootName, t, r);
    item :| item in items && IsPackedEntry(item, rootName, r, t[r]);
  }

  /** An archive holds the source under its own name: every node at or below it has its entry. */
  lemma NodeHasEntry(fs: Fs, source: Path, items: seq<TarItem>, p: Path) returns (item: TarItem)
    requires TreeShaped(fs) && source in fs && source != [] && p in fs && source <= p
    requires IsPacking(items, RootName(fs, source), Subtree(fs, source))
    ensures item in items && StandsFor(item, fs, source, p)
  {
    NodeBelow(fs, source, p);
    item := EntryOf(items, RootName(fs, source), Subtree(fs, source), p[|source|..]);
    PackedStandsFor(item, fs, source, p);
  }

  /** And every entry stands for a node. */
  lemma EntryHasNode(fs: Fs, source: Path, items: seq<TarItem>, i: nat) returns (p: Path)
    requires TreeShaped(fs) && source in fs && source != [] && i < |items|
    requires IsPacking(items, RootName(fs, source), Subtree(fs, source))
    ensures p in fs && source <= p && StandsFor(items[i], fs, source, p)
  {
    var r := PackedFrom(items, RootName(fs, source), Subtree(fs, source), i);
    SubtreeAt(fs, source, r);
    p := source + r;
    assert p[|source|..] == r;
    NodeBelow(fs, source, p);
    PackedStandsFor(items[i], fs, source, p);
  }

  /** Where packing failed: before its temporary file was there, or after. */
  datatype PackError = NotCreated(io: IoError) | NotPacked(io: IoError)

  /**
   * `tar_gz_into_temp`, without the compression: a directory with everything in it, or a single file. Nothing removes
   * the temporary file when packing fails half way.
   */
  method TarGzIntoTemp(fs: Fs, source: Path, temps: TempDir, tempName: Name, faults: Faults)
    returns (r: Result<seq<TarItem>, PackError>)
    requires TreeShaped(fs) && source in fs
    modifies temps, faults
    ensures r.Ok? <==> faults.count == old(faults.count)
    ensures faults.count >= old(faults.count)
    ensures r.Ok? ==> IsPacking(r.value, RootName(fs, source), Subtree(fs, source))
    ensures temps.names == if r.Err? && r.error.NotCreated? then old(temps.names) else old(temps.names) + {tempName}
  {
    if * {
      faults.Strike();
      return Err(NotCreated(Failed));
    }
    temps.Create(tempName);
    SubtreeClosed(fs, source);
    var packed := AppendAll(FileName(source, if IsDir(fs, source) then "workspace" else "file"), Subtree(fs, source), faults);
    if packed.Err? {
      return Err(NotPacked(packed.error));
    }
    return Ok(packed.value);
  }
}

/** What an archive means, said of its entries and not of the order they are unpacked in. */
module Entries {
  import opened Basics
  import opened Text
  import opened FileTree
  import opened WorkspacePath
  import opened Archive

  /** The entry needs a directory at `q`: it is one, or it lies below. */
  predicate NeedsDir(item: TarItem, q: Path) {
    item.Entry? &&
    var rel := Parts(item.path);
    rel != [] && (q < rel || (q == rel && item.kind.Directory?))
  }

  /** The entry puts a file at `q`. */
  predicate PutsFile(item: TarItem, q: Path) {
    item.Entry? && q != [] && Parts(item.path) == q && !item.kind.Directory?
  }

  predicate AllValid(items: seq<TarItem>) { forall i :: 0 <= i < |items| ==> ValidItem(items[i]) }

  ghost predicate IsNeededDir(items: seq<TarItem>, q: Path) {
    q == [] || exists i :: 0 <= i < |items| && NeedsDir(items[i], q)
  }

  ghost predicate IsNamedFile(items: seq<TarItem>, q: Path) {
    exists i :: 0 <= i < |items| && PutsFile(items[i], q)
  }

  /** No path is both a file and a directory, and no entry lies below a file, whatever the order. */
  ghost predicate NoClash(items: seq<TarItem>) {
    forall q :: !(IsNeededDir(items, q) && IsNamedFile(items, q))
  }

  /** The data of the last entry for the file `q`. */
  function LastData(items: seq<TarItem>, q: Path): Bytes {
    if |items| == 0 then []
    else if PutsFile(items[|items| - 1], q) then items[|items| - 1].data
    else LastData(items[..|items| - 1], q)
  }

  /** `t` holds the needed directories and the named files with their last data, and nothing else. */
  ghost predicate Holds(t: Fs, items: seq<TarItem>) {
    && (forall q :: q in t <==> IsNeededDir(items, q) || IsNamedFile(items, q))
    && (forall q :: q in t ==> t[q] == if IsNamedFile(items, q) then File(LastData(items, q)) else Dir)
  }

  // ---- one entry ----

  /** An entry can be unpacked if and only if no file is where it needs a directory, and no directory where it puts a file. */
  ghost predicate Fits(t: Fs, item: TarItem) {
    && (forall q :: NeedsDir(item, q) ==> !IsFile(t, q))
    && (forall q :: PutsFile(item, q) ==> !IsDir(t, q))
  }

  lemma DirsPossibleIs(t: Fs, p: Path)
    ensures DirsPossible(t, p) <==> forall q :: q <= p ==> !IsFile(t, q)
  {
    if DirsPossible(t, p) {
      forall q | q <= p
        ensures !IsFile(t, q)
      {
        assert q == p[..|q|];
      }
    }
    if forall q :: q <= p ==> !IsFile(t, q) {
      forall i | 0 <= i <= |p| && p[..i] in t
        ensures t[p[..i]].Dir?
      {
        assert p[..i] <= p && !IsFile(t, p[..i]);
      }
    }
  }

  lemma ProperPrefix(q: Path, rel: Path)
    requires rel != []
    ensures q < rel <==> q <= Parent(rel)
  {
    assert rel == Parent(rel) + [rel[|rel| - 1]];
  }

  lemma UnpackSome(t: Fs, item: TarItem)
    requires ValidItem(item) && Parts(item.path) != []
    ensures var rel := Parts(item.path);
            Unpack(t, [], item).Some? <==>
              DirsPossible(t, Parent(rel)) && if item.kind.Directory? then !IsFile(t, rel) else !IsDir(t, rel)
  {
    var rel := Parts(item.path);
    assert [] + rel == rel;
    WithDirsAt(t, Parent(rel), rel);
    assert !(rel <= Parent(rel));
  }

  lemma FitsIs(t: Fs, item: TarItem)
    requires ValidItem(item) && Parts(item.path) != []
    ensures var rel := Parts(item.path);
            Fits(t, item) <==>
              && (forall q :: q <= Parent(rel) ==> !IsFile(t, q))
              && if item.kind.Directory? then !IsFile(t, rel) else !IsDir(t, rel)
  {
    var rel := Parts(item.path);
    forall q
      ensures NeedsDir(item, q) <==> q <= Parent(rel) || (q == rel && item.kind.Directory?)
      ensures PutsFile(item, q) <==> q == rel && !item.kind.Directory?
    {
      ProperPrefix(q, rel);
    }
    if item.kind.Directory? {
      assert NeedsDir(item, rel);
    } else {
      assert PutsFile(item, rel);
    }
  }

  lemma UnpackFits(t: Fs, item: TarItem)
    requires ValidItem(item)
    ensures Unpack(t, [], item).Some? <==> Fits(t, item)
  {
    if Parts(item.path) != [] {
      UnpackSome(t, item);
      FitsIs(t, item);
      DirsPossibleIs(t, Parent(Parts(item.path)));
    }
  }

  /** What unpacking one entry adds, point by point. */
  lemma UnpackAt(t: Fs, item: TarItem, q: Path)
    requires ValidItem(item) && Unpack(t, [], item).Some?
    ensures var u := Unpack(t, [], item).value;
            && (q in u <==> q in t || NeedsDir(item, q) || PutsFile(item, q))
            && (q in u ==> u[q] == if PutsFile(item, q) then File(item.data) else if q in t then t[q] else Dir)
  {
    var rel := Parts(item.path);
    assert [] + rel == rel;
    if rel != [] {
      ProperPrefix(q, rel);
      WithDirsAt(t, Parent(rel), q);
      WithDirsAt(t, Parent(rel), rel);
      assert !(rel <= Parent(rel));
    }
  }

  // ---- one entry more ----

  lemma NeededSnoc(items: seq<TarItem>, item: TarItem, q: Path)
    ensures IsNeededDir(items + [item], q) <==> IsNeededDir(items, q) || NeedsDir(item, q)
    ensures IsNamedFile(items + [item], q) <==> IsNamedFile(items, q) || PutsFile(item, q)
    ensures LastData(items + [item], q) == if PutsFile(item, q) then item.data else LastData(items, q)
  {
    var more := items + [item];
    assert more[..|items|] == items && more[|items|] == item;
    if i :| 0 <= i < |items| && NeedsDir(items[i], q) { assert NeedsDir(more[i], q); }
    if i :| 0 <= i < |items| && PutsFile(items[i], q) { assert PutsFile(more[i], q); }
    if i :| 0 <= i < |more| && NeedsDir(more[i], q) && !NeedsDir(item, q) { assert NeedsDir(items[i], q); }
    if i :| 0 <= i < |more| && PutsFile(more[i], q) && !PutsFile(item, q) { assert PutsFile(items[i], q); }
    if NeedsDir(item, q) { assert NeedsDir(more[|items|], q); }
    if PutsFile(item, q) { assert PutsFile(more[|items|], q); }
  }

  lemma OneItemNoClash(item: TarItem, q: Path)
    ensures !(NeedsDir(item, q) && PutsFile(item, q))
  {
  }

  /** Where `t` holds the entries so far, the next one fits if and only if it brings no clash. */
  lemma FitsMeansNoClash(t: Fs, items: seq<TarItem>, item: TarItem)
    requires Holds(t, items) && NoClash(items)
    ensures Fits(t, item) <==> NoClash(items + [item])
  {
    forall q
      ensures !(IsNeededDir(items + [item], q) && IsNamedFile(items + [item], q)) <==>
                !(NeedsDir(item, q) && IsFile(t, q)) && !(PutsFile(item, q) && IsDir(t, q))
    {
      NeededSnoc(items, item, q);
      OneItemNoClash(item, q);
      HeldAt(t, items, q);
    }
    FitsPointwise(t, item);
  }

  lemma FitsPointwise(t: Fs, item: TarItem)
    ensures Fits(t, item) <==> forall q :: !(NeedsDir(item, q) && IsFile(t, q)) && !(PutsFile(item, q) && IsDir(t, q))
  {
  }

  lemma HeldAt(t: Fs, items: seq<TarItem>, q: Path)
    requires Holds(t, items) && NoClash(items)
    ensures IsFile(t, q) <==> IsNamedFile(items, q)
    ensures IsDir(t, q) <==> IsNeededDir(items, q)
  {
    assert !(IsNeededDir(items, q) && IsNamedFile(items, q));
  }

  lemma HoldsNext(t: Fs, items: seq<TarItem>, item: TarItem)
    requires ValidItem(item) && Holds(t, items) && NoClash(items + [item]) && Unpack(t, [], item).Some?
    ensures Holds(Unpack(t, [], item).value, items + [item])
  {
    var u := Unpack(t, [], item).value;
    forall q
      ensures q in u <==> IsNeededDir(items + [item], q) || IsNamedFile(items + [item], q)
      ensures q in u ==> u[q] == if IsNamedFile(items + [item], q) then File(LastData(items + [item], q)) else Dir
    {
      HoldsNextAt(t, items, item, q);
    }
  }

  lemma HoldsNextAt(t: Fs, items: seq<TarItem>, item: TarItem, q: Path)
    requires ValidItem(item) && Holds(t, items) && NoClash(items + [item]) && Unpack(t, [], item).Some?
    ensures var u := Unpack(t, [], item).value;
            && (q in u <==> IsNeededDir(items + [item], q) || IsNamedFile(items + [item], q))
            && (q in u ==> u[q] == if IsNamedFile(items + [item], q) then File(LastData(items + [item], q)) else Dir)
  {
    NeededSnoc(items, item, q);
    UnpackAt(t, item, q);
  }

  lemma ClashStays(items: seq<TarItem>, item: TarItem)
    requires NoClash(items + [item])
    ensures NoClash(items)
  {
    forall q
      ensures !(IsNeededDir(items, q) && IsNamedFile(items, q))
    {
      NeededSnoc(items, item, q);
      assert !(IsNeededDir(items + [item], q) && IsNamedFile(items + [item], q));
    }
  }

  lemma NothingHeld()
    ensures Holds(EMPTY_DIR, []) && NoClash([])
  {
  }

  /** The step of the meaning theorem, for an archive whose first part has been extracted. */
  lemma MeansOneMore(init: seq<TarItem>, item: TarItem, t: Fs)
    requires ValidItem(item) && Holds(t, init) && NoClash(init)
    ensures Unpack(t, [], item).Some? <==> NoClash(init + [item])
    ensures Unpack(t, [], item).Some? ==> Holds(Unpack(t, [], item).value, init + [item])
  {
    UnpackFits(t, item);
    FitsMeansNoClash(t, init, item);
    if Unpack(t, [], item).Some? { HoldsNext(t, init, item); }
  }

  lemma ValidSnoc(init: seq<TarItem>, item: TarItem)
    ensures AllValid(init + [item]) <==> AllValid(init) && ValidItem(item)
  {
    assert (init + [item])[|init|] == item;
    forall i | 0 <= i < |init|
      ensures (init + [item])[i] == init[i]
    {
    }
  }

  /**
   * An archive is accepted if and only if every entry is valid and no two of them clash; then its tree holds exactly
   * the directories the entries need and the files they name, each with the data of its last entry.
   */
  lemma {:induction false} ArchiveMeans(items: seq<TarItem>)
    ensures Extracted(items).Some? <==> AllValid(items) && NoClash(items)
    ensures Extracted(items).Some? ==> Holds(Extracted(items).value, items)
  {
    if |items| == 0 {
      NothingHeld();
      assert items == [];
    } else {
      var init, item := items[..|items| - 1], items[|items| - 1];
      assert items == init + [item];
      ArchiveMeans(init);
      ValidSnoc(init, item);
      if NoClash(items) { ClashStays(init, item); }
      if Extracted(init).Some? && ValidItem(item) {
        MeansOneMore(init, item, Extracted(init).value);
      }
    }
  }

  /**
   * Acceptance in the terms of the entries alone: a readable file or directory entry with a relative path and no `..`
   * in it, each, and no clash.
   */
  lemma AcceptedExactly(items: seq<TarItem>)
    ensures Extracted(items).Some? <==>
              && NoClash(items)
              && forall i :: 0 <= i < |items| ==>
                   && items[i].Entry? && !items[i].kind.OtherKind?
                   && (items[i].path != "" ==> items[i].path[0] != '/') && ".." !in Split(items[i].path)
  {
    ArchiveMeans(items);
    assert forall i :: 0 <= i < |items| ==>
             (ValidItem(items[i]) <==>
                && items[i].Entry? && !items[i].kind.OtherKind?
                && (items[i].path != "" ==> items[i].path[0] != '/') && ".." !in Split(items[i].path));
  }

  lemma SameTree(t: Fs, u: Fs, items: seq<TarItem>)
    requires Holds(t, items) && Holds(u, items)
    ensures t == u
  {
  }

  /** The tree of an accepted archive is determined by that description. */
  lemma OnlyTree(items: seq<TarItem>, u: Fs)
    requires Extracted(items).Some? && Holds(u, items)
    ensures Extracted(items).value == u
  {
    ArchiveMeans(items);
    SameTree(Extracted(items).value, u, items);
  }
}

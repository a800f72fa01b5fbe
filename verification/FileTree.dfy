/** A symlink-free filesystem as a finite map from absolute paths to nodes, and the calls the service makes on it. */
module FileTree {
  import opened Basics
  import opened Text

  type Name = string

  /** An absolute path as its list of names; `/` is the empty list. */
  type Path = seq<Name>

  datatype Node = Dir | File(data: Bytes)

  type Fs = map<Path, Node>

  datatype IoError = NotFound | NotADirectory | IsADirectory | AlreadyExists | Failed

  /** A name a directory entry can have. */
  predicate ValidName(n: Name) {
    n != "" && n != "." && n != ".." && !HasSlash(n)
  }

  predicate ValidNames(p: Path) {
    forall i :: 0 <= i < |p| ==> ValidName(p[i])
  }

  function Parent(p: Path): Path {
    if p == [] then [] else p[..|p| - 1]
  }

  predicate IsDir(fs: Fs, p: Path) { p in fs && fs[p].Dir? }

  predicate IsFile(fs: Fs, p: Path) { p in fs && fs[p].File? }

  /** Everything hangs off directories, and names are names. */
  ghost predicate TreeShaped(fs: Fs) {
    && IsDir(fs, [])
    && (forall p :: p in fs ==> ValidNames(p))
    && (forall p :: p in fs && p != [] ==> IsDir(fs, Parent(p)))
  }

  lemma {:induction false} AncestorsAreDirs(fs: Fs, p: Path, i: nat)
    requires TreeShaped(fs) && p in fs && i < |p|
    ensures IsDir(fs, p[..i])
    decreases |p|
  {
    if i < |p| - 1 {
      AncestorsAreDirs(fs, Parent(p), i);
      assert Parent(p)[..i] == p[..i];
    }
  }

  lemma AncestorIsDir(fs: Fs, p: Path, a: Path)
    requires TreeShaped(fs) && p in fs && a < p
    ensures IsDir(fs, a)
  {
    AncestorsAreDirs(fs, p, |a|);
    assert p[..|a|] == a;
  }

  // ---- subtrees ----

  function Without(fs: Fs, p: Path): Fs {
    map q | q in fs && !(p <= q) :: fs[q]
  }

  /** What lies at and below `p`, with paths relative to `p`. */
  function Subtree(fs: Fs, p: Path): Fs {
    map r | r in (set q | q in fs && p <= q :: q[|p|..]) && p + r in fs :: fs[p + r]
  }

  /** The tree `t` hung at `p`. */
  function Graft(p: Path, t: Fs): Fs {
    map q | q in (set r | r in t :: p + r) :: t[q[|p|..]]
  }

  lemma SplitAtPrefix(p: Path, q: Path)
    requires p <= q
    ensures q == p + q[|p|..]
  {
  }

  lemma SubtreeAt(fs: Fs, p: Path, r: Path)
    ensures r in Subtree(fs, p) <==> p + r in fs
    ensures p + r in fs ==> Subtree(fs, p)[r] == fs[p + r]
  {
    var q := p + r;
    assert q[|p|..] == r && p <= q;
  }

  lemma GraftAt(p: Path, t: Fs, q: Path)
    ensures q in Graft(p, t) <==> p <= q && q[|p|..] in t
    ensures q in Graft(p, t) ==> Graft(p, t)[q] == t[q[|p|..]]
  {
    if p <= q {
      assert q == p + q[|p|..];
    }
    if q in Graft(p, t) {
      var r :| r in t && q == p + r;
      assert q[|p|..] == r;
    }
  }

  lemma GraftBelow(p: Path, t: Fs, r: Path)
    ensures p + r in Graft(p, t) <==> r in t
    ensures r in t ==> Graft(p, t)[p + r] == t[r]
  {
    GraftAt(p, t, p + r);
    assert (p + r)[|p|..] == r;
  }

  lemma SubtreeOfGraft(base: Fs, p: Path, t: Fs)
    requires NothingAt(base, p)
    ensures Subtree(base + Graft(p, t), p) == t
    ensures Without(base + Graft(p, t), p) == base
  {
    var fs := base + Graft(p, t);
    forall r
      ensures r in Subtree(fs, p) <==> r in t
      ensures r in t ==> Subtree(fs, p)[r] == t[r]
    {
      SubtreeAt(fs, p, r);
      GraftBelow(p, t, r);
    }
    forall q
      ensures q in Without(fs, p) <==> q in base
      ensures q in base ==> Without(fs, p)[q] == base[q]
    {
      GraftAt(p, t, q);
    }
  }

  ghost predicate Apart(p: Path, q: Path) { !(p <= q) && !(q <= p) }

  ghost predicate NothingAt(base: Fs, p: Path) {
    forall q :: q in base ==> !(p <= q)
  }

  lemma NoCommonExtension(p: Path, q: Path, r: Path)
    requires p <= r && q <= r
    ensures p <= q || q <= p
  {
    if |p| <= |q| { assert p == r[..|p|] == q[..|p|]; } else { assert q == r[..|q|] == p[..|q|]; }
  }

  /** Removing what is apart from a hung tree leaves the tree. */
  lemma WithoutApart(base: Fs, p: Path, t: Fs, q: Path)
    requires Apart(p, q)
    ensures Without(base + Graft(p, t), q) == Without(base, q) + Graft(p, t)
  {
    forall r
      ensures r in Graft(p, t) ==> !(q <= r)
    {
      GraftAt(p, t, r);
      if p <= r && q <= r { NoCommonExtension(p, q, r); }
    }
  }

  lemma WithoutHungAt(base: Fs, p: Path, t: Fs, r: Path, q: Path)
    requires NothingAt(base, p)
    ensures q in base + Graft(p, t) && !(p + r <= q) <==> q in base + Graft(p, Without(t, r))
    ensures q in base + Graft(p, Without(t, r)) ==>
              (base + Graft(p, t))[q] == (base + Graft(p, Without(t, r)))[q]
  {
    GraftAt(p, t, q);
    GraftAt(p, Without(t, r), q);
    if p <= q {
      SplitAtPrefix(p, q);
      assert p + r <= q <==> r <= q[|p|..];
    } else {
      assert !(p + r <= q);
    }
  }

  lemma WithoutHung(base: Fs, p: Path, t: Fs, r: Path)
    requires NothingAt(base, p)
    ensures Without(base + Graft(p, t), p + r) == base + Graft(p, Without(t, r))
  {
    forall q
      ensures q in base + Graft(p, t) && !(p + r <= q) <==> q in base + Graft(p, Without(t, r))
      ensures q in base + Graft(p, Without(t, r)) ==>
                (base + Graft(p, t))[q] == (base + Graft(p, Without(t, r)))[q]
    {
      WithoutHungAt(base, p, t, r, q);
    }
    WithoutIs(base + Graft(p, t), p + r, base + Graft(p, Without(t, r)));
  }

  lemma SumIs(a: Fs, b: Fs, c: Fs)
    requires forall q :: q in c <==> q in a || q in b
    requires forall q :: q in c ==> (q in b ==> c[q] == b[q]) && (q !in b ==> q in a && c[q] == a[q])
    ensures a + b == c
  {
  }

  lemma WithoutIs(fs: Fs, p: Path, gs: Fs)
    requires forall q :: q in fs && !(p <= q) <==> q in gs
    requires forall q :: q in gs ==> fs[q] == gs[q]
    ensures Without(fs, p) == gs
  {
  }

  /** Trees that agree point by point below two places are the same tree. */
  lemma SameSubtree(a: Fs, p: Path, b: Fs, q: Path)
    requires forall r :: p + r in a <==> q + r in b
    requires forall r :: q + r in b ==> p + r in a && a[p + r] == b[q + r]
    ensures Subtree(a, p) == Subtree(b, q)
  {
    forall r
      ensures r in Subtree(a, p) <==> r in Subtree(b, q)
      ensures r in Subtree(b, q) ==> Subtree(a, p)[r] == Subtree(b, q)[r]
    {
      SubtreeAt(a, p, r);
      SubtreeAt(b, q, r);
    }
  }

  lemma HungBelow(base: Fs, p: Path, t: Fs, r: Path, q: Path)
    requires NothingAt(base, p) && q == p + r
    ensures q in base + Graft(p, t) <==> r in t
    ensures r in t ==> (base + Graft(p, t))[q] == t[r]
  {
    GraftBelow(p, t, r);
    assert p <= q;
  }

  lemma SubtreeHung(base: Fs, p: Path, t: Fs, r: Path)
    requires NothingAt(base, p)
    ensures Subtree(base + Graft(p, t), p + r) == Subtree(t, r)
  {
    forall x
      ensures p + r + x in base + Graft(p, t) <==> r + x in t
      ensures r + x in t ==> p + r + x in base + Graft(p, t) && (base + Graft(p, t))[p + r + x] == t[r + x]
    {
      assert p + r + x == p + (r + x);
      HungBelow(base, p, t, r + x, p + r + x);
    }
    SameSubtree(base + Graft(p, t), p + r, t, r);
  }

  lemma ChildrenHung(base: Fs, p: Path, t: Fs)
    requires NothingAt(base, p)
    ensures Children(base + Graft(p, t), p) == Children(t, [])
  {
    forall n
      ensures n in Children(base + Graft(p, t), p) <==> n in Children(t, [])
    {
      ChildIn(base + Graft(p, t), p, n);
      ChildIn(t, [], n);
      GraftBelow(p, t, [n]);
      assert [] + [n] == [n];
    }
  }

  /** Two trees hung apart can be hung in either order. */
  lemma GraftsCommute(base: Fs, p: Path, t: Fs, q: Path, u: Fs)
    requires Apart(p, q)
    ensures base + Graft(p, t) + Graft(q, u) == base + Graft(q, u) + Graft(p, t)
  {
    forall r
      ensures !(r in Graft(p, t) && r in Graft(q, u))
    {
      GraftAt(p, t, r);
      GraftAt(q, u, r);
      if p <= r && q <= r { NoCommonExtension(p, q, r); }
    }
  }

  lemma Overlay(base: Fs, a: Fs, b: Fs, c: Fs)
    requires c == a + b
    ensures base + a + b == base + c
  {
  }

  lemma GraftInside(base: Fs, p: Path, t: Fs, n: Name, u: Fs)
    ensures base + Graft(p, t) + Graft(p + [n], u) == base + Graft(p, t + Graft([n], u))
  {
    var a, b, c := Graft(p, t), Graft(p + [n], u), Graft(p, t + Graft([n], u));
    forall q
      ensures q in c <==> q in a + b
      ensures q in c ==> c[q] == (a + b)[q]
    {
      GraftInsideAt(p, t, n, u, q);
    }
    assert c == a + b;
    Overlay(base, a, b, c);
  }

  lemma GraftInsideAt(p: Path, t: Fs, n: Name, u: Fs, q: Path)
    ensures q in Graft(p, t + Graft([n], u)) <==> q in Graft(p, t) || q in Graft(p + [n], u)
    ensures q in Graft(p + [n], u) ==> Graft(p, t + Graft([n], u))[q] == Graft(p + [n], u)[q]
    ensures q in Graft(p, t) && q !in Graft(p + [n], u) ==> Graft(p, t + Graft([n], u))[q] == Graft(p, t)[q]
  {
    GraftAt(p, t, q);
    GraftAt(p, t + Graft([n], u), q);
    GraftAt(p + [n], u, q);
    if p <= q {
      SplitAtPrefix(p, q);
      var r := q[|p|..];
      GraftAt([n], u, r);
      assert p + [n] <= q <==> [n] <= r;
      if [n] <= r { assert q[|p + [n]|..] == r[1..]; }
    }
  }

  lemma UpdatedGraftAt(p: Path, t: Fs, r: Path, n: Node, q: Path)
    ensures q in Graft(p, t[r := n]) <==> q in Graft(p, t) || q == p + r
    ensures q in Graft(p, t[r := n]) ==>
              Graft(p, t[r := n])[q] == if q == p + r then n else Graft(p, t)[q]
  {
    GraftAt(p, t, q);
    GraftAt(p, t[r := n], q);
    if p <= q {
      SplitAtPrefix(p, q);
      assert (p + r)[|p|..] == r;
    }
  }

  lemma GraftOfUpdate(p: Path, t: Fs, r: Path, n: Node)
    ensures Graft(p, t[r := n]) == Graft(p, t)[p + r := n]
  {
    forall q
      ensures q in Graft(p, t[r := n]) <==> q in Graft(p, t) || q == p + r
      ensures q in Graft(p, t[r := n]) ==>
                Graft(p, t[r := n])[q] == if q == p + r then n else Graft(p, t)[q]
    {
      UpdatedGraftAt(p, t, r, n, q);
    }
  }

  lemma UpdateOver(base: Fs, over: Fs, p: Path, n: Node)
    ensures (base + over)[p := n] == base + over[p := n]
  {
  }

  lemma GraftUpdate(base: Fs, p: Path, t: Fs, r: Path, n: Node)
    ensures (base + Graft(p, t))[p + r := n] == base + Graft(p, t[r := n])
  {
    GraftOfUpdate(p, t, r, n);
    UpdateOver(base, Graft(p, t), p + r, n);
  }

  // ---- directories on the way to a path ----

  /** `create_dir_all` can succeed: no file stands on the way. */
  predicate DirsPossible(fs: Fs, p: Path) {
    forall i :: 0 <= i <= |p| && p[..i] in fs ==> fs[p[..i]].Dir?
  }

  function WithDirs(fs: Fs, p: Path): Fs {
    fs + map q | q in (set i | 0 <= i <= |p| :: p[..i]) && q !in fs :: Dir
  }

  lemma WithDirsAt(fs: Fs, p: Path, q: Path)
    ensures q in WithDirs(fs, p) <==> q in fs || q <= p
    ensures q in fs ==> WithDirs(fs, p)[q] == fs[q]
    ensures q !in fs && q <= p ==> WithDirs(fs, p)[q] == Dir
  {
    if q <= p { assert q == p[..|q|]; }
  }

  lemma WithDirsShape(fs: Fs, p: Path)
    requires TreeShaped(fs) && DirsPossible(fs, p) && ValidNames(p)
    ensures TreeShaped(WithDirs(fs, p)) && IsDir(WithDirs(fs, p), p)
  {
    var gs := WithDirs(fs, p);
    forall q | q in gs
      ensures ValidNames(q)
      ensures q != [] ==> IsDir(gs, Parent(q))
    {
      WithDirsAt(fs, p, q);
      WithDirsAt(fs, p, Parent(q));
      if q !in fs && q != [] {
        assert Parent(q) == p[..|q| - 1];
      }
    }
    WithDirsAt(fs, p, []);
    WithDirsAt(fs, p, p);
    assert p[..|p|] == p;
  }

  /** A directory that exists in a tree needs no creating. */
  lemma ExistingDir(fs: Fs, p: Path)
    requires TreeShaped(fs) && IsDir(fs, p)
    ensures DirsPossible(fs, p) && WithDirs(fs, p) == fs
  {
    forall i | 0 <= i <= |p|
      ensures IsDir(fs, p[..i])
    {
      if i < |p| { AncestorsAreDirs(fs, p, i); } else { assert p[..i] == p; }
    }
    forall q
      ensures q in WithDirs(fs, p) ==> q in fs
    {
      WithDirsAt(fs, p, q);
      if q <= p { assert q == p[..|q|]; }
    }
    forall q | q in fs
      ensures q in WithDirs(fs, p) && WithDirs(fs, p)[q] == fs[q]
    {
      WithDirsAt(fs, p, q);
    }
  }

  // ---- lookups ----

  datatype Lookup = Found(node: Node) | Missing | Blocked

  /** `metadata`: a file in the middle of the path is not the same answer as a missing name. */
  function Metadata(fs: Fs, p: Path): Lookup {
    if p in fs then Found(fs[p])
    else if exists i :: 0 <= i < |p| && IsFile(fs, p[..i]) then Blocked
    else Missing
  }

  /** Exactly one of three answers: the node that is there, a file above it, or no such name. */
  lemma MetadataIs(fs: Fs, p: Path)
    ensures forall n :: Metadata(fs, p) == Found(n) <==> p in fs && fs[p] == n
    ensures Metadata(fs, p) == Blocked <==> p !in fs && exists q :: q < p && IsFile(fs, q)
    ensures Metadata(fs, p) == Missing <==> p !in fs && forall q :: q < p ==> !IsFile(fs, q)
  {
    forall q | q < p
      ensures q == p[..|q|]
    {
    }
    if i :| 0 <= i < |p| && IsFile(fs, p[..i]) { assert p[..i] < p; }
  }

  /** The names in a directory. */
  function Children(fs: Fs, p: Path): set<Name> {
    set q | q in fs && |q| == |p| + 1 && p <= q :: q[|p|]
  }

  lemma ChildIn(fs: Fs, p: Path, n: Name)
    ensures n in Children(fs, p) <==> p + [n] in fs
  {
    if p + [n] in fs { assert (p + [n])[|p|] == n; }
    if n in Children(fs, p) {
      var q :| q in fs && |q| == |p| + 1 && p <= q && q[|p|] == n;
      assert q == p + [n];
    }
  }

  lemma WithoutShape(fs: Fs, p: Path)
    requires TreeShaped(fs) && p != []
    ensures TreeShaped(Without(fs, p))
  {
    var gs := Without(fs, p);
    forall q | q in gs && q != []
      ensures IsDir(gs, Parent(q))
    {
      assert p <= Parent(q) ==> p <= q;
    }
  }

  /** A tree hung at a free name in a directory makes a tree. */
  lemma GraftShape(base: Fs, p: Path, t: Fs)
    requires TreeShaped(base) && TreeShaped(t) && NothingAt(base, p)
    requires p != [] && ValidNames(p) && IsDir(base, Parent(p))
    ensures TreeShaped(base + Graft(p, t))
  {
    var fs := base + Graft(p, t);
    forall q | q in fs
      ensures ValidNames(q) && (q != [] ==> IsDir(fs, Parent(q)))
    {
      GraftNodeShape(base, p, t, q);
    }
    GraftAt(p, t, []);
  }

  lemma GraftNodeShape(base: Fs, p: Path, t: Fs, q: Path)
    requires TreeShaped(base) && TreeShaped(t) && NothingAt(base, p)
    requires p != [] && ValidNames(p) && IsDir(base, Parent(p)) && q in base + Graft(p, t)
    ensures ValidNames(q) && (q != [] ==> IsDir(base + Graft(p, t), Parent(q)))
  {
    GraftAt(p, t, q);
    GraftAt(p, t, Parent(q));
    if p <= q {
      SplitAtPrefix(p, q);
      NamesJoin(p, q[|p|..]);
      if q != p {
        assert p <= Parent(q) && Parent(q)[|p|..] == Parent(q[|p|..]);
      }
    } else {
      assert p <= Parent(q) ==> p <= q;
    }
  }

  lemma NamesJoin(p: Path, r: Path)
    requires ValidNames(p) && ValidNames(r)
    ensures ValidNames(p + r)
  {
  }

  lemma UpdateShape(fs: Fs, p: Path, n: Node)
    requires TreeShaped(fs) && p != [] && ValidNames(p) && IsDir(fs, Parent(p))
    requires p in fs ==> fs[p].Dir? == n.Dir?
    ensures TreeShaped(fs[p := n])
  {
    var gs := fs[p := n];
    forall q | q in gs && q != []
      ensures IsDir(gs, Parent(q))
    {
      if q != p && Parent(q) == p { assert q in fs; }
    }
  }

  /** The mutable filesystem. */
  class Disk {
    var nodes: Fs

    constructor (nodes: Fs)
      ensures this.nodes == nodes
    {
      this.nodes := nodes;
    }

    method CreateDirAll(p: Path) returns (r: Result<(), IoError>)
      modifies this
      ensures r.Ok? <==> DirsPossible(old(nodes), p)
      ensures r.Err? ==> r.error == if IsFile(old(nodes), p) then AlreadyExists else NotADirectory
      ensures nodes == if r.Ok? then WithDirs(old(nodes), p) else old(nodes)
    {
      if DirsPossible(nodes, p) {
        nodes := WithDirs(nodes, p);
        return Ok(());
      }
      return Err(if IsFile(nodes, p) then AlreadyExists else NotADirectory);
    }

    method RemoveDirAll(p: Path)
      requires IsDir(nodes, p)
      modifies this
      ensures nodes == Without(old(nodes), p)
    {
      nodes := Without(nodes, p);
    }

    method RemoveFile(p: Path)
      requires IsFile(nodes, p)
      modifies this
      ensures nodes == Without(old(nodes), p)
    {
      nodes := Without(nodes, p);
    }

    /** A removal whose error is discarded: a file goes, anything else stays. */
    method TryRemoveFile(p: Path)
      modifies this
      ensures nodes == if IsFile(old(nodes), p) then Without(old(nodes), p) else old(nodes)
    {
      if IsFile(nodes, p) { nodes := Without(nodes, p); }
    }

    method TryRemoveDirAll(p: Path)
      modifies this
      ensures nodes == if IsDir(old(nodes), p) then Without(old(nodes), p) else old(nodes)
    {
      if IsDir(nodes, p) { nodes := Without(nodes, p); }
    }

    /** Creates or overwrites the node at `p`, whose parent exists. */
    method Put(p: Path, n: Node)
      requires p != [] && IsDir(nodes, Parent(p))
      modifies this
      ensures nodes == old(nodes)[p := n]
    {
      nodes := nodes[p := n];
    }

    /** Opens a fresh file for writing. */
    method CreateFile(p: Path)
      requires p !in nodes && p != [] && IsDir(nodes, Parent(p))
      modifies this
      ensures nodes == old(nodes)[p := File([])]
    {
      nodes := nodes[p := File([])];
    }

    method Append(p: Path, chunk: Bytes)
      requires IsFile(nodes, p)
      modifies this
      ensures nodes == old(nodes)[p := File(old(nodes)[p].data + chunk)]
    {
      nodes := nodes[p := File(nodes[p].data + chunk)];
    }

    /** Moves a subtree to a name that is free, in a directory that exists and is not inside it. */
    method Rename(src: Path, dst: Path)
      requires src in nodes && dst != [] && IsDir(nodes, Parent(dst))
      requires NothingAt(nodes, dst)
      requires !(src <= dst)
      modifies this
      ensures nodes == Without(old(nodes), src) + Graft(dst, Subtree(old(nodes), src))
    {
      nodes := Without(nodes, src) + Graft(dst, Subtree(nodes, src));
    }
  }
}

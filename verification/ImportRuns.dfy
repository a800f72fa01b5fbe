/** Any number of imports one after the other, accepted or refused, into any workspaces. */
module ImportRuns {
  import opened Basics
  import opened FileTree
  import opened WorkspacePath
  import opened Archive
  import opened Transfer

  /** An import request: what the client streams, and the temporary names the clock gives it. */
  datatype Request = Request(stream: seq<Incoming>, stagingName: Name, extractionName: Name)

  ghost function Serve(fs: Fs, root: Path, request: Request, decode: Bytes -> seq<TarItem>): Fs {
    AfterImport(fs, root, request.stream, decode, request.stagingName, request.extractionName)
  }

  ghost function ServeAll(fs: Fs, root: Path, requests: seq<Request>, decode: Bytes -> seq<TarItem>): Fs
    decreases |requests|
  {
    if requests == [] then fs else ServeAll(Serve(fs, root, requests[0], decode), root, requests[1..], decode)
  }

  /** Every request finds its temporary names unused when its turn comes. */
  ghost predicate AllFresh(fs: Fs, root: Path, requests: seq<Request>, decode: Bytes -> seq<TarItem>)
    decreases |requests|
  {
    requests != [] ==>
      && FreshTemps(fs, root, requests[0].stream, requests[0].stagingName, requests[0].extractionName)
      && AllFresh(Serve(fs, root, requests[0], decode), root, requests[1..], decode)
  }

  /** However many imports are served, and however they end, the filesystem is a tree. */
  lemma {:induction false} RunKeepsTree(fs: Fs, root: Path, requests: seq<Request>, decode: Bytes -> seq<TarItem>)
    requires TreeShaped(fs) && ValidNames(root) && AllFresh(fs, root, requests, decode)
    ensures TreeShaped(ServeAll(fs, root, requests, decode))
    decreases |requests|
  {
    if requests != [] {
      var r := requests[0];
      AfterImportShape(fs, root, r.stream, decode, r.stagingName, r.extractionName);
      RunKeepsTree(Serve(fs, root, r, decode), root, requests[1..], decode);
    }
  }

  ghost predicate Accepts(fs: Fs, root: Path, request: Request, decode: Bytes -> seq<TarItem>) {
    && HeaderThenChunks(request.stream)
    && Imported(fs, root, request.stream[0].payload.value.header, Body(request.stream), decode).Some?
  }

  /** Which requests of a run are accepted. */
  ghost function Verdicts(fs: Fs, root: Path, requests: seq<Request>, decode: Bytes -> seq<TarItem>): (v: seq<bool>)
    ensures |v| == |requests|
    decreases |requests|
  {
    if requests == [] then []
    else
      [Accepts(fs, root, requests[0], decode)]
      + Verdicts(Serve(fs, root, requests[0], decode), root, requests[1..], decode)
  }

  /** The import handler run on one request after the other. */
  method ServeRequests(disk: Disk, root: Path, requests: seq<Request>, decode: Bytes -> seq<TarItem>)
    returns (answers: seq<Result<nat, ImportError>>)
    requires TreeShaped(disk.nodes) && ValidNames(root) && AllFresh(disk.nodes, root, requests, decode)
    modifies disk
    ensures |answers| == |requests|
    ensures forall i :: 0 <= i < |answers| ==>
              (answers[i].Ok? <==> Verdicts(old(disk.nodes), root, requests, decode)[i])
    ensures disk.nodes == ServeAll(old(disk.nodes), root, requests, decode) && TreeShaped(disk.nodes)
  {
    answers := [];
    var i := 0;
    ghost var verdicts := Verdicts(disk.nodes, root, requests, decode);
    assert requests[0..] == requests && verdicts[0..] == verdicts;
    while i < |requests|
      invariant i <= |requests| && |answers| == i && TreeShaped(disk.nodes)
      invariant AllFresh(disk.nodes, root, requests[i..], decode)
      invariant ServeAll(disk.nodes, root, requests[i..], decode) == ServeAll(old(disk.nodes), root, requests, decode)
      invariant verdicts == Verdicts(old(disk.nodes), root, requests, decode)
      invariant verdicts[i..] == Verdicts(disk.nodes, root, requests[i..], decode)
      invariant forall k :: 0 <= k < i ==> (answers[k].Ok? <==> verdicts[k])
    {
      var r := requests[i];
      assert requests[i..][0] == r && requests[i..][1..] == requests[i + 1..];
      var answer := ImportWorkspaceObject(disk, root, r.stream, decode, r.stagingName, r.extractionName);
      assert verdicts[i..][0] == verdicts[i] && verdicts[i..][1..] == verdicts[i + 1..];
      answers := answers + [answer];
      i := i + 1;
    }
  }

  // ---- what one workspace sees ----

  /** Two filesystems that are the same for workspace `w`: everything of it, and whether its root can be reached. */
  ghost predicate SameFor(root: Path, w: string, a: Fs, b: Fs) {
    && (forall q :: root + [w] <= q ==> (q in a <==> q in b))
    && (forall q :: root + [w] <= q && q in b ==> q in a && a[q] == b[q])
    && (DirsPossible(a, root) <==> DirsPossible(b, root))
  }

  lemma SameForTrans(root: Path, w: string, a: Fs, b: Fs, c: Fs)
    requires SameFor(root, w, a, b) && SameFor(root, w, b, c)
    ensures SameFor(root, w, a, c)
  {
  }

  /** Directories on the way to `p` may be missing or there; only a file is in the way. */
  lemma DirsPossibleBelow(fs: Fs, root: Path, w: string, p: Path)
    requires root + [w] <= p
    ensures DirsPossible(fs, p) <==>
              DirsPossible(fs, root) && forall i :: |root| < i <= |p| && p[..i] in fs ==> fs[p[..i]].Dir?
  {
    assert root == (root + [w])[..|root|] == p[..|root|];
    forall i | 0 <= i <= |root|
      ensures p[..i] == root[..i]
    {
      assert root[..i] == p[..|root|][..i];
    }
  }

  lemma SameDirsPossible(root: Path, w: string, a: Fs, b: Fs, p: Path)
    requires SameFor(root, w, a, b) && root + [w] <= p
    ensures DirsPossible(a, p) <==> DirsPossible(b, p)
  {
    DirsPossibleBelow(a, root, w, p);
    DirsPossibleBelow(b, root, w, p);
    forall i | |root| < i <= |p|
      ensures root + [w] <= p[..i]
    {
      assert (root + [w])[..|root| + 1] == p[..|root| + 1];
    }
  }

  /** Making directories that lie below or on the way to a workspace does not change whether the root can be reached. */
  lemma RootStaysWithDirs(fs: Fs, root: Path, p: Path)
    ensures DirsPossible(WithDirs(fs, p), root) <==> DirsPossible(fs, root)
  {
    forall i | 0 <= i <= |root|
      ensures (root[..i] in WithDirs(fs, p) ==> WithDirs(fs, p)[root[..i]].Dir?) <==>
                (root[..i] in fs ==> fs[root[..i]].Dir?)
    {
      WithDirsAt(fs, p, root[..i]);
    }
  }

  /** A change that touches no path on the way to the root. */
  lemma RootStays(a: Fs, b: Fs, root: Path, p: Path)
    requires |p| > |root|
    requires forall q :: !(p <= q) ==> (q in a <==> q in b) && (q in b ==> a[q] == b[q])
    ensures DirsPossible(a, root) <==> DirsPossible(b, root)
  {
    forall i | 0 <= i <= |root|
      ensures (root[..i] in a <==> root[..i] in b) && (root[..i] in b ==> a[root[..i]] == b[root[..i]])
    {
      assert !(p <= root[..i]);
    }
  }

  // ---- the same request, served for two filesystems that are the same for its workspace ----

  lemma SameWithDirs(root: Path, w: string, a: Fs, b: Fs, p: Path)
    requires SameFor(root, w, a, b)
    ensures SameFor(root, w, WithDirs(a, p), WithDirs(b, p))
  {
    forall q | root + [w] <= q
      ensures q in WithDirs(a, p) <==> q in WithDirs(b, p)
      ensures q in WithDirs(b, p) ==> WithDirs(a, p)[q] == WithDirs(b, p)[q]
    {
      WithDirsAt(a, p, q);
      WithDirsAt(b, p, q);
    }
    RootStaysWithDirs(a, root, p);
    RootStaysWithDirs(b, root, p);
  }

  lemma SameWithout(root: Path, w: string, a: Fs, b: Fs, p: Path)
    requires SameFor(root, w, a, b) && |p| > |root|
    ensures SameFor(root, w, Without(a, p), Without(b, p))
  {
    RootStays(Without(a, p), a, root, p);
    RootStays(Without(b, p), b, root, p);
  }

  lemma SamePut(root: Path, w: string, a: Fs, b: Fs, p: Path, n: Node)
    requires SameFor(root, w, a, b) && |p| > |root|
    ensures SameFor(root, w, a[p := n], b[p := n])
  {
    RootStays(a[p := n], a, root, p);
    RootStays(b[p := n], b, root, p);
  }

  lemma GraftOutside(fs: Fs, p: Path, t: Fs, q: Path)
    requires !(p <= q)
    ensures q in fs + Graft(p, t) <==> q in fs
    ensures q in fs ==> (fs + Graft(p, t))[q] == fs[q]
  {
    GraftAt(p, t, q);
  }

  lemma RootStaysGraft(fs: Fs, root: Path, p: Path, t: Fs)
    requires |p| > |root|
    ensures DirsPossible(fs + Graft(p, t), root) <==> DirsPossible(fs, root)
  {
    forall q | !(p <= q)
      ensures (q in fs + Graft(p, t) <==> q in fs) && (q in fs ==> (fs + Graft(p, t))[q] == fs[q])
    {
      GraftOutside(fs, p, t, q);
    }
    RootStays(fs + Graft(p, t), fs, root, p);
  }

  lemma SameGraft(root: Path, w: string, a: Fs, b: Fs, p: Path, t: Fs)
    requires SameFor(root, w, a, b) && |p| > |root|
    ensures SameFor(root, w, a + Graft(p, t), b + Graft(p, t))
  {
    RootStaysGraft(a, root, p, t);
    RootStaysGraft(b, root, p, t);
  }

  lemma SameInstalled(root: Path, w: string, a: Fs, b: Fs, target: Path, encoding: Encoding, body: Bytes,
                      decode: Bytes -> seq<TarItem>)
    requires SameFor(root, w, a, b) && |target| > |root|
    ensures Installed(a, target, encoding, body, decode).Some? <==> Installed(b, target, encoding, body, decode).Some?
    ensures Installed(b, target, encoding, body, decode).Some? ==>
              SameFor(root, w, Installed(a, target, encoding, body, decode).value,
                      Installed(b, target, encoding, body, decode).value)
  {
    SameWithout(root, w, a, b, target);
    if encoding.Raw? {
      SamePut(root, w, Without(a, target), Without(b, target), target, File(body));
    } else if encoding.TarGz? && Extracted(decode(body)).Some? {
      SameGraft(root, w, Without(a, target), Without(b, target), target, Unwrapped(Extracted(decode(body)).value));
    }
  }

  lemma SameSettled(root: Path, w: string, a: Fs, b: Fs, encoding: Encoding, msgs: seq<Incoming>,
                    decode: Bytes -> seq<TarItem>, staging: Path, extraction: Path, target: Path)
    requires SameFor(root, w, a, b) && |target| > |root| && |staging| > |root| && |extraction| > |root|
    ensures SameFor(root, w, Settled(a, encoding, msgs, decode, staging, extraction, target),
                    Settled(b, encoding, msgs, decode, staging, extraction, target))
  {
    var body := Flatten(LeadingChunks(msgs));
    SameInstalled(root, w, a, b, target, encoding, body, decode);
    SamePut(root, w, a, b, staging, File(body));
    SameGraft(root, w, a[staging := File(body)], b[staging := File(body)], extraction, ExtractedUntil(decode(body)));
  }

  lemma TargetBelowWorkspace(root: Path, header: Header, target: Path)
    requires ResolvePath(root, header.workspaceId, header.targetPath) == Ok(target)
    ensures root + [header.workspaceId] <= Home(root, header.workspaceId)
    ensures root + [header.workspaceId] <= Parent(target) && root + [header.workspaceId] <= target
    ensures |Parent(target)| > |root|
  {
    var home := Home(root, header.workspaceId);
    assert home == root + [header.workspaceId] + ["home"];
    assert home <= target && |home| == |root| + 2;
    assert Parent(target)[..|root| + 1] == target[..|root| + 1] == home[..|root| + 1] == root + [header.workspaceId];
  }

  lemma SameReaches(root: Path, a: Fs, b: Fs, header: Header, target: Path)
    requires SameFor(root, header.workspaceId, a, b)
    requires ResolvePath(root, header.workspaceId, header.targetPath) == Ok(target)
    ensures Reaches(a, root, header, target) <==> Reaches(b, root, header, target)
  {
    var home := Home(root, header.workspaceId);
    TargetBelowWorkspace(root, header, target);
    SameDirsPossible(root, header.workspaceId, a, b, home);
    SameWithDirs(root, header.workspaceId, a, b, home);
    SameDirsPossible(root, header.workspaceId, WithDirs(a, home), WithDirs(b, home), Parent(target));
  }

  lemma SameHomePossible(root: Path, a: Fs, b: Fs, header: Header)
    requires SameFor(root, header.workspaceId, a, b)
    ensures HomePossible(a, root, header) <==> HomePossible(b, root, header)
  {
    var home := Home(root, header.workspaceId);
    assert home == root + [header.workspaceId] + ["home"];
    SameDirsPossible(root, header.workspaceId, a, b, home);
  }

  /** An import does the same to its workspace wherever that workspace looks the same. */
  lemma SameAfterHeader(root: Path, a: Fs, b: Fs, header: Header, msgs: seq<Incoming>, decode: Bytes -> seq<TarItem>,
                        stagingName: Name, extractionName: Name)
    requires SameFor(root, header.workspaceId, a, b)
    ensures SameFor(root, header.workspaceId, AfterHeader(a, root, header, msgs, decode, stagingName, extractionName),
                    AfterHeader(b, root, header, msgs, decode, stagingName, extractionName))
  {
    var w, home := header.workspaceId, Home(root, header.workspaceId);
    var resolved := ResolvePath(root, w, header.targetPath);
    SameHomePossible(root, a, b, header);
    SameWithDirs(root, w, a, b, home);
    if resolved.Ok? {
      var target := resolved.value;
      TargetBelowWorkspace(root, header, target);
      SameReaches(root, a, b, header, target);
      SameWithDirs(root, w, WithDirs(a, home), WithDirs(b, home), Parent(target));
      SameSettled(root, w, Prepared(a, home, target), Prepared(b, home, target), header.encoding, msgs, decode,
                  Parent(target) + [stagingName], Parent(target) + [extractionName], target);
    }
  }

  // ---- a request for another workspace ----

  lemma OtherPath(root: Path, w: string, other: string, p: Path, q: Path)
    requires other != w && root + [other] <= p && root + [w] <= q
    ensures !(p <= q) && !(q <= p)
  {
    assert p[|root|] == (root + [other])[|root|] && q[|root|] == (root + [w])[|root|];
  }

  lemma OtherWithDirs(root: Path, w: string, other: string, fs: Fs, p: Path)
    requires other != w && root + [other] <= p
    ensures SameFor(root, w, WithDirs(fs, p), fs)
  {
    forall q | root + [w] <= q
      ensures q in WithDirs(fs, p) <==> q in fs
      ensures q in fs ==> WithDirs(fs, p)[q] == fs[q]
    {
      WithDirsAt(fs, p, q);
      OtherPath(root, w, other, p, q);
    }
    RootStaysWithDirs(fs, root, p);
  }

  lemma OtherWithout(root: Path, w: string, other: string, fs: Fs, p: Path)
    requires other != w && root + [other] <= p
    ensures SameFor(root, w, Without(fs, p), fs)
  {
    forall q | root + [w] <= q
      ensures q in Without(fs, p) <==> q in fs
    {
      OtherPath(root, w, other, p, q);
    }
    assert |p| > |root|;
    RootStays(Without(fs, p), fs, root, p);
  }

  lemma OtherPut(root: Path, w: string, other: string, fs: Fs, p: Path, n: Node)
    requires other != w && root + [other] <= p
    ensures SameFor(root, w, fs[p := n], fs)
  {
    forall q | root + [w] <= q
      ensures q in fs[p := n] <==> q in fs
      ensures q in fs ==> fs[p := n][q] == fs[q]
    {
      OtherPath(root, w, other, p, q);
    }
    assert |p| > |root|;
    RootStays(fs[p := n], fs, root, p);
  }

  lemma OtherGraft(root: Path, w: string, other: string, fs: Fs, p: Path, t: Fs)
    requires other != w && root + [other] <= p
    ensures SameFor(root, w, fs + Graft(p, t), fs)
  {
    forall q | root + [w] <= q
      ensures q in fs + Graft(p, t) <==> q in fs
      ensures q in fs ==> (fs + Graft(p, t))[q] == fs[q]
    {
      OtherPath(root, w, other, p, q);
      GraftOutside(fs, p, t, q);
    }
    assert |p| > |root|;
    RootStaysGraft(fs, root, p, t);
  }

  lemma OtherInstalled(root: Path, w: string, other: string, fs: Fs, target: Path, encoding: Encoding, body: Bytes,
                       decode: Bytes -> seq<TarItem>)
    requires other != w && root + [other] <= target && Installed(fs, target, encoding, body, decode).Some?
    ensures SameFor(root, w, Installed(fs, target, encoding, body, decode).value, fs)
  {
    var cleared := Without(fs, target);
    OtherWithout(root, w, other, fs, target);
    if encoding.Raw? {
      OtherPut(root, w, other, cleared, target, File(body));
    } else {
      OtherGraft(root, w, other, cleared, target, Unwrapped(Extracted(decode(body)).value));
    }
    SameForTrans(root, w, Installed(fs, target, encoding, body, decode).value, cleared, fs);
  }

  lemma OtherSettled(root: Path, w: string, other: string, fs: Fs, encoding: Encoding, msgs: seq<Incoming>,
                     decode: Bytes -> seq<TarItem>, staging: Path, extraction: Path, target: Path)
    requires other != w && root + [other] <= target && root + [other] <= staging && root + [other] <= extraction
    ensures SameFor(root, w, Settled(fs, encoding, msgs, decode, staging, extraction, target), fs)
  {
    var body := Flatten(LeadingChunks(msgs));
    OtherPut(root, w, other, fs, staging, File(body));
    if AllChunks(msgs) {
      if Installed(fs, target, encoding, body, decode).Some? {
        OtherInstalled(root, w, other, fs, target, encoding, body, decode);
      } else if encoding.TarGz? {
        OtherGraft(root, w, other, fs[staging := File(body)], extraction, ExtractedUntil(decode(body)));
        SameForTrans(root, w, fs[staging := File(body)] + Graft(extraction, ExtractedUntil(decode(body))),
                     fs[staging := File(body)], fs);
      }
    }
  }

  /** An import, accepted or refused, changes nothing of any other workspace. */
  lemma OtherAfterHeader(root: Path, w: string, fs: Fs, header: Header, msgs: seq<Incoming>,
                         decode: Bytes -> seq<TarItem>, stagingName: Name, extractionName: Name)
    requires header.workspaceId != w
    ensures SameFor(root, w, AfterHeader(fs, root, header, msgs, decode, stagingName, extractionName), fs)
  {
    var other, home := header.workspaceId, Home(root, header.workspaceId);
    var resolved := ResolvePath(root, other, header.targetPath);
    assert home == root + [other] + ["home"];
    OtherWithDirs(root, w, other, fs, home);
    if resolved.Ok? && Reaches(fs, root, header, resolved.value) {
      var target := resolved.value;
      var prepared := Prepared(fs, home, target);
      TargetBelowWorkspace(root, header, target);
      OtherWithDirs(root, w, other, WithDirs(fs, home), Parent(target));
      SameForTrans(root, w, prepared, WithDirs(fs, home), fs);
      OtherSettled(root, w, other, prepared, header.encoding, msgs, decode,
                   Parent(target) + [stagingName], Parent(target) + [extractionName], target);
      SameForTrans(root, w, Settled(prepared, header.encoding, msgs, decode, Parent(target) + [stagingName],
                                    Parent(target) + [extractionName], target), prepared, fs);
    }
  }

  // ---- whole runs ----

  /** The request addresses workspace `w`. */
  predicate Addresses(request: Request, w: string) {
    request.stream != [] && IsHeader(request.stream[0]) && request.stream[0].payload.value.header.workspaceId == w
  }

  function Own(requests: seq<Request>, w: string): seq<Request> {
    if requests == [] then []
    else (if Addresses(requests[0], w) then [requests[0]] else []) + Own(requests[1..], w)
  }

  lemma SameServe(root: Path, w: string, a: Fs, b: Fs, request: Request, decode: Bytes -> seq<TarItem>)
    requires SameFor(root, w, a, b)
    ensures if Addresses(request, w) then SameFor(root, w, Serve(a, root, request, decode), Serve(b, root, request, decode))
            else SameFor(root, w, Serve(a, root, request, decode), b)
  {
    if request.stream != [] && IsHeader(request.stream[0]) {
      var header := request.stream[0].payload.value.header;
      if header.workspaceId == w {
        SameAfterHeader(root, a, b, header, request.stream[1..], decode, request.stagingName, request.extractionName);
      } else {
        OtherAfterHeader(root, w, a, header, request.stream[1..], decode, request.stagingName, request.extractionName);
        SameForTrans(root, w, Serve(a, root, request, decode), a, b);
      }
    }
  }

  lemma {:induction false} SameRuns(root: Path, w: string, a: Fs, b: Fs, requests: seq<Request>,
                                    decode: Bytes -> seq<TarItem>)
    requires SameFor(root, w, a, b)
    ensures SameFor(root, w, ServeAll(a, root, requests, decode), ServeAll(b, root, Own(requests, w), decode))
    decreases |requests|
  {
    if requests != [] {
      var r := requests[0];
      SameServe(root, w, a, b, r, decode);
      if Addresses(r, w) {
        SameRuns(root, w, Serve(a, root, r, decode), Serve(b, root, r, decode), requests[1..], decode);
        assert Own(requests, w)[0] == r && Own(requests, w)[1..] == Own(requests[1..], w);
      } else {
        SameRuns(root, w, Serve(a, root, r, decode), b, requests[1..], decode);
        assert Own(requests, w) == Own(requests[1..], w);
      }
    }
  }

  /**
   * Non-interference: after any list of imports, accepted or refused and to whatever workspaces, each workspace holds
   * exactly what its own imports alone would have left there.
   */
  lemma WorkspacesDoNotInterfere(fs: Fs, root: Path, requests: seq<Request>, decode: Bytes -> seq<TarItem>, w: string)
    ensures Subtree(ServeAll(fs, root, requests, decode), Home(root, w))
            == Subtree(ServeAll(fs, root, Own(requests, w), decode), Home(root, w))
  {
    SameRuns(root, w, fs, fs, requests, decode);
    var a, b := ServeAll(fs, root, requests, decode), ServeAll(fs, root, Own(requests, w), decode);
    forall r
      ensures Home(root, w) + r in a <==> Home(root, w) + r in b
      ensures Home(root, w) + r in b ==> Home(root, w) + r in a && a[Home(root, w) + r] == b[Home(root, w) + r]
    {
      assert Home(root, w) + r == root + [w] + (["home"] + r);
    }
    SameSubtree(a, Home(root, w), b, Home(root, w));
  }
}

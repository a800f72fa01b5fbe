/** Workspace ids and lexical path resolution, against walking the path in a real tree. */
module WorkspacePath {
  import opened Basics
  import opened Text
  import opened FileTree

  datatype PathError = InvalidWorkspaceId | PathEscape(relative: string)

  predicate IsAsciiAlphanumeric(c: char) {
    'a' <= c <= 'z' || 'A' <= c <= 'Z' || '0' <= c <= '9'
  }

  /** The length limit counts bytes; a text that passes the character test has one byte per character. */
  predicate ValidWorkspaceId(id: string) {
    1 <= |id| <= 128 && forall i :: 0 <= i < |id| ==> IsAsciiAlphanumeric(id[i]) || id[i] == '-' || id[i] == '_'
  }

  /** An id is refused exactly when it is empty, longer than 128, or has a byte that is no digit, letter, `-` or `_`. */
  lemma IdRefused(root: Path, id: string, relative: string)
    ensures ResolvePath(root, id, relative) == Err(InvalidWorkspaceId) <==>
              || |id| == 0 || |id| > 128
              || exists i :: 0 <= i < |id| && var b := id[i] as int;
                             !(48 <= b <= 57) && !(65 <= b <= 90) && !(97 <= b <= 122) && b != 45 && b != 95
  {
    assert forall c: char :: IsAsciiAlphanumeric(c) <==> 48 <= c as int <= 57 || 65 <= c as int <= 90 || 97 <= c as int <= 122;
    assert '-' as int == 45 && '_' as int == 95;
  }

  // ---- components, joining, cleaning ----

  function DropDots(pieces: seq<string>): seq<string> {
    if pieces == [] then []
    else (if pieces[0] == "" || pieces[0] == "." then [] else [pieces[0]]) + DropDots(pieces[1..])
  }

  /** The components of a path text below its root: empty pieces and `.` are skipped. */
  function Parts(s: string): seq<string> { DropDots(Split(s)) }

  predicate IsAbsolute(s: string) { s != "" && s[0] == '/' }

  /** `Path::join`: an absolute argument replaces the base. */
  function Join(base: Path, relative: string): seq<string> {
    if IsAbsolute(relative) then Parts(relative) else base + Parts(relative)
  }

  /** Cleaning with a stack: `..` pops and stops at `/`. */
  function CleanOnto(stack: Path, parts: seq<string>): Path
    decreases |parts|
  {
    if parts == [] then stack
    else CleanOnto(if parts[0] == ".." then Parent(stack) else stack + [parts[0]], parts[1..])
  }

  function Clean(parts: seq<string>): Path { CleanOnto([], parts) }

  function Home(root: Path, id: string): Path { root + [id, "home"] }

  /** `WorkspaceManager::resolve_path`. */
  function ResolvePath(root: Path, id: string, relative: string): Result<Path, PathError> {
    if !ValidWorkspaceId(id) then Err(InvalidWorkspaceId)
    else
      var joined := Clean(Join(Home(root, id), relative));
      if Home(root, id) <= joined then Ok(joined) else Err(PathEscape(relative))
  }

  // ---- walking ----

  /** Following a path one component at a time, as the kernel does. */
  function Walk(fs: Fs, at: Path, parts: seq<string>): Option<Path>
    decreases |parts|
  {
    if parts == [] then (if at in fs then Some(at) else None)
    else if !IsDir(fs, at) then None
    else Walk(fs, if parts[0] == ".." then Parent(at) else at + [parts[0]], parts[1..])
  }

  ghost predicate EveryStepIsDir(fs: Fs, at: Path, parts: seq<string>) {
    forall i :: 0 <= i < |parts| ==> IsDir(fs, CleanOnto(at, parts[..i]))
  }

  /** A walk succeeds exactly when every step starts in a directory and the cleaned path exists; it ends there. */
  lemma {:induction false} WalkEndsAtClean(fs: Fs, at: Path, parts: seq<string>)
    ensures Walk(fs, at, parts).Some? <==> EveryStepIsDir(fs, at, parts) && CleanOnto(at, parts) in fs
    ensures Walk(fs, at, parts).Some? ==> Walk(fs, at, parts).value == CleanOnto(at, parts)
    decreases |parts|
  {
    if parts != [] {
      var next := if parts[0] == ".." then Parent(at) else at + [parts[0]];
      WalkEndsAtClean(fs, next, parts[1..]);
      forall i | 0 < i <= |parts|
        ensures CleanOnto(at, parts[..i]) == CleanOnto(next, parts[1..][..i - 1])
      {
        assert parts[..i][1..] == parts[1..][..i - 1];
      }
      if EveryStepIsDir(fs, next, parts[1..]) && IsDir(fs, at) {
        forall i | 0 <= i < |parts|
          ensures IsDir(fs, CleanOnto(at, parts[..i]))
        {
          if i == 0 {
            assert parts[..0] == [];
          } else {
            assert CleanOnto(at, parts[..i]) == CleanOnto(next, parts[1..][..i - 1]);
          }
        }
      }
      if EveryStepIsDir(fs, at, parts) {
        assert parts[..0] == [];
        assert IsDir(fs, CleanOnto(at, parts[..0]));
        forall j | 0 <= j < |parts[1..]|
          ensures IsDir(fs, CleanOnto(next, parts[1..][..j]))
        {
          assert CleanOnto(at, parts[..j + 1]) == CleanOnto(next, parts[1..][..j + 1 - 1]);
        }
      }
    }
  }

  /**
   * A path that can be walked is accepted exactly when it ends at the workspace home or below it,
   * wherever it wandered on the way and whether it was relative or absolute; what is returned is that end.
   */
  lemma ResolveAcceptsWalksInside(fs: Fs, root: Path, id: string, relative: string)
    requires ValidWorkspaceId(id)
    requires Walk(fs, [], (if relative != "" && relative[0] == '/' then [] else root + [id, "home"]) + Parts(relative)).Some?
    ensures var end := Walk(fs, [], (if relative != "" && relative[0] == '/' then [] else root + [id, "home"])
                                    + Parts(relative)).value;
            ResolvePath(root, id, relative) == if root + [id, "home"] <= end then Ok(end) else Err(PathEscape(relative))
  {
    var walked := (if relative != "" && relative[0] == '/' then [] else root + [id, "home"]) + Parts(relative);
    assert walked == Join(Home(root, id), relative);
    WalkEndsAtClean(fs, [], walked);
  }

  /** The same for a walk that starts where the request is made: at `/` for an absolute text, at the home otherwise. */
  lemma ResolveFollowsWalkFromHome(fs: Fs, root: Path, id: string, relative: string)
    requires ValidWorkspaceId(id) && ValidNames(root)
    requires Walk(fs, if relative != "" && relative[0] == '/' then [] else root + [id, "home"], Parts(relative)).Some?
    ensures var end := Walk(fs, if relative != "" && relative[0] == '/' then [] else root + [id, "home"],
                            Parts(relative)).value;
            ResolvePath(root, id, relative) == if root + [id, "home"] <= end then Ok(end) else Err(PathEscape(relative))
  {
    var home := Home(root, id);
    WalkEndsAtClean(fs, if IsAbsolute(relative) then [] else home, Parts(relative));
    HomeNames(root, id);
    CleanNames([], home);
    assert [] + home == home;
    CleanConcat([], home, Parts(relative));
  }

  lemma AbsoluteParts(names: seq<string>)
    requires ValidNames(names)
    ensures IsAbsolute("/" + JoinSlash(names)) && Parts("/" + JoinSlash(names)) == names
  {
    PartsOfJoined(names);
    SplitFirst("", JoinSlash(names));
    assert "" + "/" + JoinSlash(names) == "/" + JoinSlash(names);
    assert ([""] + Split(JoinSlash(names)))[1..] == Split(JoinSlash(names));
  }

  /** A text that begins with a slash is taken from `/`, any other text from the home; there is no third reading. */
  lemma PlainTextsResolve(root: Path, id: string, names: seq<string>)
    requires ValidWorkspaceId(id) && ValidNames(root) && ValidNames(names)
    ensures ResolvePath(root, id, JoinSlash(names)) == Ok(root + [id, "home"] + names)
    ensures ResolvePath(root, id, "/" + JoinSlash(names)) ==
              if root + [id, "home"] <= names then Ok(names) else Err(PathEscape("/" + JoinSlash(names)))
  {
    HomeNames(root, id);
    PartsOfJoined(names);
    CleanNames([], Home(root, id) + names);
    assert [] + (Home(root, id) + names) == Home(root, id) + names;
    AbsoluteParts(names);
    CleanNames([], names);
    assert [] + names == names;
  }

  /** The lexical answer is coarser than the kernel's: it steps over a missing name that a walk would stop at. */
  lemma CleanOutrunsWalk(root: Path, id: string)
    requires ValidWorkspaceId(id) && ValidNames(root)
    ensures Clean(Join(Home(root, id), "gone/..")) == Home(root, id)
    ensures ResolvePath(root, id, "gone/..") == Ok(Home(root, id))
    ensures forall fs: Fs :: Home(root, id) + ["gone"] !in fs ==>
              Walk(fs, [], Join(Home(root, id), "gone/..")).None?
  {
    var home := Home(root, id);
    GoneParts();
    HomeNames(root, id);
    CleanNames([], home);
    assert [] + home == home;
    CleanConcat([], home, ["gone", ".."]);
    PopAfterPush(home, "gone");
    forall fs: Fs | home + ["gone"] !in fs
      ensures Walk(fs, [], home + ["gone", ".."]).None?
    {
      WalkNeeds(fs, home, "gone", [".."]);
      assert home + ["gone", ".."] == home + ["gone"] + [".."];
    }
  }

  lemma GoneParts()
    ensures Parts("gone/..") == ["gone", ".."] && !IsAbsolute("gone/..")
  {
    SplitFirst("gone", "..");
    SplitNoSlash("..");
    assert "gone" + "/" + ".." == "gone/..";
    assert ["gone", ".."][1..] == [".."];
    assert DropDots([".."]) == [".."];
  }

  lemma PopAfterPush(stack: Path, n: Name)
    requires n != ".."
    ensures CleanOnto(stack, [n, ".."]) == stack
  {
    assert [n, ".."][1..] == [".."];
    assert CleanOnto(stack + [n], [".."]) == Parent(stack + [n]);
  }

  /** A walk through a directory name needs that name to exist. */
  lemma WalkNeeds(fs: Fs, p: Path, n: Name, more: seq<string>)
    requires ".." !in p && n != ".." && more != [] && p + [n] !in fs
    ensures Walk(fs, [], p + [n] + more).None?
  {
    var parts := p + [n] + more;
    WalkEndsAtClean(fs, [], parts);
    CleanNames([], p + [n]);
    assert [] + (p + [n]) == p + [n];
    assert parts[..|p| + 1] == p + [n];
  }

  // ---- facts about cleaning ----

  lemma {:induction false} CleanConcat(stack: Path, a: seq<string>, b: seq<string>)
    ensures CleanOnto(stack, a + b) == CleanOnto(CleanOnto(stack, a), b)
    decreases |a|
  {
    if a == [] {
      assert a + b == b;
    } else {
      assert (a + b)[1..] == a[1..] + b;
      CleanConcat(if a[0] == ".." then Parent(stack) else stack + [a[0]], a[1..], b);
    }
  }

  lemma {:induction false} CleanNames(stack: Path, names: seq<string>)
    requires ".." !in names
    ensures CleanOnto(stack, names) == stack + names
    decreases |names|
  {
    if names != [] {
      assert names[0] in names;
      assert forall n :: n in names[1..] ==> n in names;
      CleanNames(stack + [names[0]], names[1..]);
      assert stack + [names[0]] + names[1..] == stack + names;
    }
  }

  lemma {:induction false} CleanHasNoDotDot(stack: Path, parts: seq<string>)
    requires ".." !in stack
    ensures ".." !in CleanOnto(stack, parts)
    decreases |parts|
  {
    if parts != [] {
      CleanHasNoDotDot(if parts[0] == ".." then Parent(stack) else stack + [parts[0]], parts[1..]);
    }
  }

  lemma PrefixElements(a: Path, b: Path, n: Name)
    ensures n in a && a <= b ==> n in b
  {
  }

  lemma ValidIdIsName(id: string)
    requires ValidWorkspaceId(id)
    ensures ValidName(id)
  {
    assert forall c :: c in id ==> IsAsciiAlphanumeric(c) || c == '-' || c == '_';
    assert id[0] != '.';
  }

  lemma HomeNames(root: Path, id: string)
    requires ValidWorkspaceId(id) && ValidNames(root)
    ensures ValidNames(Home(root, id)) && ".." !in Home(root, id)
  {
    ValidIdIsName(id);
  }

  lemma {:induction false} DropDotsValid(names: seq<string>)
    requires ValidNames(names)
    ensures DropDots(names) == names
  {
    if names != [] {
      DropDotsValid(names[1..]);
      assert names == [names[0]] + names[1..];
    }
  }

  lemma PartsOfJoined(names: seq<string>)
    requires ValidNames(names)
    ensures Parts(JoinSlash(names)) == names
    ensures !IsAbsolute(JoinSlash(names))
  {
    if names == [] {
      assert Split("") == [""];
      assert DropDots([""]) == [];
    } else {
      SplitJoin(names);
      DropDotsValid(names);
      assert ValidName(names[0]) && names[0][0] in names[0];
      assert JoinSlash(names)[0] == names[0][0];
    }
  }

  /** The text of a path below home, relative to home, resolves back to that very path. */
  lemma ResolveRelativeText(root: Path, id: string, p: Path)
    requires ValidWorkspaceId(id) && ValidNames(p) && Home(root, id) <= p
    ensures ResolvePath(root, id, JoinSlash(p[|Home(root, id)|..])) == Ok(p)
  {
    var rel := p[|Home(root, id)|..];
    PartsOfJoined(rel);
    assert Join(Home(root, id), JoinSlash(rel)) == Home(root, id) + rel == p;
    CleanNames([], p);
    assert [] + p == p;
  }

  /** Paths accepted for two different workspaces never coincide and neither contains the other. */
  lemma WorkspacesNeverNest(root: Path, id: string, id': string, relative: string, relative': string)
    requires id != id'
    requires ResolvePath(root, id, relative).Ok? && ResolvePath(root, id', relative').Ok?
    ensures !(ResolvePath(root, id, relative).value <= ResolvePath(root, id', relative').value)
    ensures !(ResolvePath(root, id', relative').value <= ResolvePath(root, id, relative).value)
  {
    var p, p' := ResolvePath(root, id, relative).value, ResolvePath(root, id', relative').value;
    assert p[|root|] == Home(root, id)[|root|] == id;
    assert p'[|root|] == Home(root, id')[|root|] == id';
  }

  /** The empty path is the workspace home. */
  lemma HomeResolves(root: Path, id: string)
    requires ValidWorkspaceId(id) && ".." !in root
    ensures ResolvePath(root, id, "") == Ok(Home(root, id))
  {
    ValidIdIsName(id);
    PartsOfJoined([]);
    assert Home(root, id) + [] == Home(root, id);
    CleanNames([], Home(root, id));
    assert [] + Home(root, id) == Home(root, id);
  }

  /** A workspace root that is not clean makes every request fail; with a clean one the home itself is accepted. */
  lemma RootMustBeClean(root: Path, id: string)
    requires ValidWorkspaceId(id)
    ensures ".." in root <==> forall relative :: ResolvePath(root, id, relative) == Err(PathEscape(relative))
  {
    ValidIdIsName(id);
    if ".." in root {
      assert ".." in Home(root, id);
      forall relative
        ensures ResolvePath(root, id, relative) == Err(PathEscape(relative))
      {
        var joined := Clean(Join(Home(root, id), relative));
        CleanHasNoDotDot([], Join(Home(root, id), relative));
        PrefixElements(Home(root, id), joined, "..");
      }
    } else {
      HomeResolves(root, id);
    }
  }
}

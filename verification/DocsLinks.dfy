/** Relative links in archived documentation pages, staged one directory deeper than they were written. */
module DocsLinks {
  import opened Paths

  /** An absolute path as text. */
  function Absolute(at: seq<string>): string {
    "/" + Join(at)
  }

  /** path.resolve of an absolute directory and a path without a leading slash */
  function Resolve(dir: string, path: string): string {
    Absolute(Walk(true, [], Components(dir) + Components(path)))
  }

  /** The part of a link before any query or fragment. */
  function PathPart(spec: string): (p: string)
    ensures p <= spec && '?' !in p && '#' !in p
    ensures p == spec || spec[|p|] == '?' || spec[|p|] == '#'
  {
    if spec == "" || spec[0] == '?' || spec[0] == '#' then "" else [spec[0]] + PathPart(spec[1..])
  }

  function FixEscapingRelative(spec: string, fileDir: string, versionRoot: string): string {
    if !("." <= spec) then spec
    else
      var target := Resolve(fileDir, PathPart(spec));
      if target != versionRoot && !(versionRoot + "/" <= target) then "../" + spec else spec
  }

  // ---------------------------------------------------------------------------------------------
  // Text and components
  // ---------------------------------------------------------------------------------------------

  lemma ResolveFrom(dir: seq<string>, path: string)
    requires dir != [] && Names(dir)
    ensures Resolve(Absolute(dir), path) == Absolute(Walk(true, dir, Components(path)))
  {
    ComponentsOfJoin(dir);
    ComponentsOfConcat("", Join(dir));
    assert "" + "/" + Join(dir) == Absolute(dir);
    assert Components(Absolute(dir)) == [""] + dir;
    WalkConcat(true, [], [""] + dir, Components(path));
    WalkConcat(true, [], [""], dir);
    assert [] + dir == dir;
    CleanWalksToItself(true, [], dir);
  }

  lemma {:induction false} JoinConcat(a: seq<string>, b: seq<string>)
    requires a != [] && b != []
    ensures Join(a + b) == Join(a) + "/" + Join(b)
    decreases |a|
  {
    if |a| == 1 {
      assert (a + b)[1..] == b;
    } else {
      assert (a + b)[1..] == a[1..] + b;
      JoinConcat(a[1..], b);
    }
  }

  /** Being the directory or below it, as text and as components. */
  lemma InsideAsText(root: seq<string>, at: seq<string>)
    requires root != [] && Names(root) && Names(at)
    ensures (Absolute(at) == Absolute(root) || Absolute(root) + "/" <= Absolute(at)) <==> root <= at
  {
    if root <= at && root != at {
      BelowAsText(root, at);
    }
    if Absolute(at) == Absolute(root) {
      SameText(root, at);
    }
    if Absolute(root) + "/" <= Absolute(at) {
      TextBelow(root, at);
    }
  }

  lemma BelowAsText(root: seq<string>, at: seq<string>)
    requires root != [] && root < at
    ensures Absolute(root) + "/" <= Absolute(at)
  {
    JoinConcat(root, at[|root|..]);
    assert at == root + at[|root|..];
    assert Absolute(at) == Absolute(root) + "/" + Join(at[|root|..]);
  }

  lemma SameText(root: seq<string>, at: seq<string>)
    requires root != [] && Names(root) && Names(at) && Absolute(at) == Absolute(root)
    ensures at == root
  {
    assert Join(at) == Absolute(at)[1..] == Absolute(root)[1..] == Join(root);
    JoinIsNotEmpty(root);
    ComponentsOfJoin(root);
    ComponentsOfJoin(at);
  }

  lemma TextBelow(root: seq<string>, at: seq<string>)
    requires root != [] && Names(root) && Names(at) && Absolute(root) + "/" <= Absolute(at)
    ensures root <= at
  {
    var rest := Absolute(at)[|Absolute(root)| + 1..];
    assert Absolute(at) == Absolute(root) + "/" + rest;
    assert Join(at) == Absolute(at)[1..] == Join(root) + "/" + rest;
    ComponentsOfConcat(Join(root), rest);
    ComponentsOfJoin(root);
    ComponentsOfJoin(at);
  }

  lemma JoinIsNotEmpty(c: seq<string>)
    requires c != [] && Names(c)
    ensures Join(c) != ""
  {
  }

  /** Text in front of a link that starts no query and no fragment belongs to its path. */
  lemma {:induction false} PathPartAfter(front: string, spec: string)
    requires '?' !in front && '#' !in front
    ensures PathPart(front + spec) == front + PathPart(spec)
    decreases |front|
  {
    if front == "" {
      assert front + spec == spec;
    } else {
      assert (front + spec)[1..] == front[1..] + spec;
      PathPartAfter(front[1..], spec);
    }
  }

  lemma ComponentsAfterUp(path: string)
    ensures Components("../" + path) == [".."] + Components(path)
  {
    ComponentsOfConcat("..", path);
    ComponentsOfPlain("..");
    assert ".." + "/" + path == "../" + path;
  }

  lemma PathPartOfFixed(spec: string)
    ensures PathPart("../" + spec) == "../" + PathPart(spec)
    ensures Components("../" + PathPart(spec)) == [".."] + Components(PathPart(spec))
  {
    var up := "../";
    PathPartAfter(up, spec);
    ComponentsAfterUp(PathPart(spec));
  }

  // ---------------------------------------------------------------------------------------------
  // Walks from the original and from the staged page
  // ---------------------------------------------------------------------------------------------

  /** A walk that stays below a directory goes the same way wherever that directory is. */
  lemma {:induction false} StayingWalk(root: seq<string>, dir: seq<string>, path: seq<string>)
    requires Names(root + dir) && SlashFree(path) && Stays(|dir|, path)
    ensures Walk(true, root + dir, path) == root + Walk(true, dir, path)
    decreases |path|
  {
    if path != [] {
      var c := path[0];
      StaysStep(|dir|, path);
      assert Stays(|dir| + Change(c), path[1..]) ==> |dir| + Change(c) + Level(path[1..][..0]) >= 0;
      assert c == ".." ==> (root + dir)[|root + dir| - 1] == dir[|dir| - 1];
      assert c == ".." ==> (root + dir)[..|root + dir| - 1] == root + dir[..|dir| - 1];
      assert (root + dir) + [c] == root + (dir + [c]);
      assert forall i :: 0 <= i < |dir| ==> dir[i] == (root + dir)[|root| + i];
      StayingWalk(root, Step(true, dir, c), path[1..]);
    }
  }

  lemma StaysAtOnce(depth: nat)
    ensures Stays(depth, [])
  {
  }

  /** Two directories equally deep that share the first `m` levels: a walk that goes above those ends alike. */
  lemma {:induction false} LeavingWalk(a: seq<string>, b: seq<string>, m: nat, path: seq<string>)
    requires |a| == |b| && m <= |a| && a[..m] == b[..m] && Names(a) && Names(b) && SlashFree(path)
    requires !Stays(|a| - m, path)
    ensures Walk(true, a, path) == Walk(true, b, path)
    decreases |path|
  {
    if |a| == m {
      assert a == a[..m] == b[..m] == b;
    } else {
      StaysAtOnce(|a| - m);
      StaysStep(|a| - m, path);
      var a', b' := Step(true, a, path[0]), Step(true, b, path[0]);
      assert a'[..m] == a[..m] && b'[..m] == b[..m];
      LeavingWalk(a', b', m, path[1..]);
    }
  }

  /** From one level deeper, a walk ends one level deeper, unless the shallower one hit the top. */
  lemma {:induction false} DeeperWalk(a: seq<string>, b: seq<string>, path: seq<string>)
    requires |b| == |a| + 1 && Names(a) && Names(b) && SlashFree(path)
    ensures Stays(|a|, path) ==> |Walk(true, b, path)| == |Walk(true, a, path)| + 1
    ensures !Stays(|a|, path) ==> Walk(true, a, path) == Walk(true, b, path)
    decreases |path|
  {
    if path == [] {
      assert Level(path[..0]) == 0;
    } else {
      StaysStep(|a|, path);
      var c := path[0];
      var a', b' := Step(true, a, c), Step(true, b, c);
      if c == ".." && a == [] {
        assert a' == b' == [];
        assert Stays(-1, path[1..]) ==> -1 + Level(path[1..][..0]) >= 0;
      } else {
        DeeperWalk(a', b', path[1..]);
      }
    }
  }

  // ---------------------------------------------------------------------------------------------
  // Links keep their meaning
  // ---------------------------------------------------------------------------------------------

  /** Where a link in the page at docs/dir led before the page was staged. */
  function Written(docs: seq<string>, dir: seq<string>, spec: string): seq<string> {
    Walk(true, docs + dir, Components(PathPart(spec)))
  }

  /** Where a link text leads from the staged page at docs/slug/dir. */
  function Staged(docs: seq<string>, slug: string, dir: seq<string>, spec: string): seq<string> {
    Walk(true, docs + [slug] + dir, Components(PathPart(spec)))
  }

  function Fixed(docs: seq<string>, slug: string, dir: seq<string>, spec: string): string {
    FixEscapingRelative(spec, Absolute(docs + [slug] + dir), Absolute(docs + [slug]))
  }

  /** One level up is added exactly to a relative link that leads out of the staged version. */
  lemma FixedWhen(docs: seq<string>, slug: string, dir: seq<string>, spec: string)
    requires Names(docs + [slug] + dir)
    ensures Fixed(docs, slug, dir, spec)
         == if spec != "" && spec[0] == '.' && !(docs + [slug] <= Staged(docs, slug, dir, spec)) then "../" + spec
            else spec
  {
    var at := docs + [slug] + dir;
    ResolveFrom(at, PathPart(spec));
    WalkOfNames(at, Components(PathPart(spec)));
    assert forall i :: 0 <= i < |docs + [slug]| ==> (docs + [slug])[i] == at[i];
    InsideAsText(docs + [slug], Staged(docs, slug, dir, spec));
  }

  /** A link that never leaves the documentation is left alone and leads to the staged copy of its target. */
  lemma InnerLinksFollowThePage(docs: seq<string>, slug: string, dir: seq<string>, spec: string)
    requires Names(docs + [slug] + dir) && "." <= spec
    requires Stays(|dir|, Components(PathPart(spec)))
    ensures Fixed(docs, slug, dir, spec) == spec
    ensures docs <= Written(docs, dir, spec)
    ensures Staged(docs, slug, dir, spec) == docs + [slug] + Written(docs, dir, spec)[|docs|..]
  {
    var path := Components(PathPart(spec));
    var at := docs + [slug] + dir;
    assert forall i :: 0 <= i < |docs| ==> docs[i] == at[i];
    assert forall i :: 0 <= i < |dir| ==> dir[i] == at[|docs| + 1 + i];
    StayingWalk(docs, dir, path);
    StayingWalk(docs + [slug], dir, path);
    FixedWhen(docs, slug, dir, spec);
  }

  /**
   * A link that leaves the documentation, wherever it then leads, is fixed to lead to the very same
   * target, exactly unless the unfixed text leads back into the staged version without having run
   * into the top of the file system.
   */
  lemma OuterLinksKeepTheirTarget(docs: seq<string>, slug: string, dir: seq<string>, spec: string)
    requires Names(docs + [slug] + dir) && "." <= spec
    requires !Stays(|dir|, Components(PathPart(spec)))
    ensures Staged(docs, slug, dir, Fixed(docs, slug, dir, spec)) == Written(docs, dir, spec) <==>
              || !(docs + [slug] <= Staged(docs, slug, dir, spec))
              || !Stays(|docs| + |dir|, Components(PathPart(spec)))
  {
    var path := Components(PathPart(spec));
    var at := docs + [slug] + dir;
    assert forall i :: 0 <= i < |docs| ==> docs[i] == at[i];
    assert forall i :: 0 <= i < |dir| ==> dir[i] == at[|docs| + 1 + i];
    FixedWhen(docs, slug, dir, spec);
    if docs + [slug] <= Staged(docs, slug, dir, spec) {
      DeeperWalk(docs + dir, at, path);
    } else {
      OneMoreUp(docs, slug, dir, spec);
    }
  }

  /** Staged or not, the page lies below the documentation. */
  lemma SameTop(docs: seq<string>, slug: string, dir: seq<string>)
    requires Names(docs + [slug] + dir)
    ensures var at := docs + [slug] + dir;
            at[..|at| - 1][..|docs|] == docs && (docs + dir)[..|docs|] == docs && Names(docs + dir)
  {
    var at := docs + [slug] + dir;
    assert forall i :: 0 <= i < |docs| ==> docs[i] == at[i];
    assert forall i :: 0 <= i < |dir| ==> dir[i] == at[|docs| + 1 + i];
    assert at == docs + ([slug] + dir);
    assert at[..|at| - 1][..|docs|] == at[..|docs|] == docs;
  }

  lemma OneMoreUp(docs: seq<string>, slug: string, dir: seq<string>, spec: string)
    requires Names(docs + [slug] + dir) && !Stays(|dir|, Components(PathPart(spec)))
    ensures Staged(docs, slug, dir, "../" + spec) == Written(docs, dir, spec)
  {
    var path := Components(PathPart(spec));
    var at := docs + [slug] + dir;
    var up := at[..|at| - 1];
    PathPartOfFixed(spec);
    assert ([".."] + path)[1..] == path;
    assert Step(true, at, "..") == up;
    assert Walk(true, at, [".."] + path) == Walk(true, up, path);
    SameTop(docs, slug, dir);
    LeavingWalk(docs + dir, up, |docs|, path);
  }

  /** "../../v/x" */
  const REENTRY := Join(REENTRY_PATH)
  const REENTRY_PATH := ["..", ".."] + ["v", "x"]

  lemma {:induction false} NoSuffix(s: string)
    requires '?' !in s && '#' !in s
    ensures PathPart(s) == s
    decreases |s|
  {
    if s != "" {
      NoSuffix(s[1..]);
    }
  }

  predicate Unsuffixed(c: seq<string>) {
    forall i :: 0 <= i < |c| ==> '?' !in c[i] && '#' !in c[i]
  }

  lemma {:induction false} JoinUnsuffixed(c: seq<string>)
    requires Unsuffixed(c)
    ensures '?' !in Join(c) && '#' !in Join(c)
    decreases |c|
  {
    if |c| > 1 {
      JoinUnsuffixed(c[1..]);
    }
  }

  lemma ReentryPath()
    ensures PathPart(REENTRY) == REENTRY && Components(REENTRY) == REENTRY_PATH && "." <= REENTRY
  {
    JoinUnsuffixed(REENTRY_PATH);
    NoSuffix(REENTRY);
    ComponentsOfJoin(REENTRY_PATH);
    assert REENTRY == REENTRY_PATH[0] + "/" + Join(REENTRY_PATH[1..]);
  }

  lemma ReentryLeaves()
    ensures !Stays(1, REENTRY_PATH)
  {
    var path := REENTRY_PATH;
    assert path[..2][1..] == [".."] && [".."][1..] == [];
    assert Level([".."]) == -1;
    assert Level(path[..2]) == -2;
  }

  lemma UpTwice(at: seq<string>, top: seq<string>)
    requires Names(at) && |at| >= 2 && at[..|at| - 2] == top
    ensures Walk(true, at, ["..", ".."]) == top
  {
    var path, up := ["..", ".."], at[..|at| - 1];
    assert path[1..] == [".."] && [".."][1..] == [];
    assert Step(true, at, "..") == up && Step(true, up, "..") == top;
    assert Walk(true, up, [".."]) == top;
  }

  lemma ReentryWalk(at: seq<string>, top: seq<string>, rest: seq<string>)
    requires Names(at) && |at| >= 2 && at[..|at| - 2] == top && Names(rest)
    ensures Walk(true, at, ["..", ".."] + rest) == top + rest
  {
    UpTwice(at, top);
    WalkConcat(true, at, ["..", ".."], rest);
    NamesAreClean(top, rest);
    CleanWalksToItself(true, top, rest);
  }

  lemma NamesAreClean(a: seq<string>, b: seq<string>)
    requires Names(a) && Names(b)
    ensures Names(a + b) && Clean(a + b)
  {
    forall i | 0 <= i < |a + b| ensures IsName((a + b)[i]) {
      assert (a + b)[i] == if i < |a| then a[i] else b[i - |a|];
    }
  }

  /** The link "../../v/x" of the page docs/p leaves the documentation and comes back into docs/v: it is not fixed. */
  lemma ReentryIsNotFixed() returns (docs: seq<string>, slug: string, dir: seq<string>, spec: string)
    ensures Names(docs + [slug] + dir) && "." <= spec && !Stays(|dir|, Components(PathPart(spec)))
    ensures Fixed(docs, slug, dir, spec) == spec
    ensures Staged(docs, slug, dir, Fixed(docs, slug, dir, spec)) == docs + [slug, "x"]
    ensures Written(docs, dir, spec) == [slug, "x"]
  {
    docs, slug, dir, spec := ["d"], "v", ["p"], REENTRY;
    ReentryPath();
    ReentryLeaves();
    ReentryWalk(docs + [slug] + dir, docs, ["v", "x"]);
    ReentryWalk(docs + dir, [], ["v", "x"]);
    FixedWhen(docs, slug, dir, spec);
  }
}

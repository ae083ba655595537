/** The check that a symlink in an archive does not point outside the directory it is extracted to. */
module Symlink {
  import opened Paths

  /** path.Clean */
  function CleanPath(p: string): string {
    var rooted := IsRooted(p);
    var at := Walk(rooted, [], Components(p));
    if rooted then "/" + Join(at) else if at == [] then "." else Join(at)
  }

  predicate IsRooted(p: string) {
    p != "" && p[0] == '/'
  }

  /** The path is a directory, with its slash, and a name; the directory may be empty, and so may the name. */
  ghost predicate Cuts(p: string, dir: string, name: string) {
    p == dir + name && '/' !in name && (dir == "" || dir[|dir| - 1] == '/')
  }

  lemma CutsOnce(p: string, dir: string, name: string)
    requires Cuts(p, dir, name)
    ensures dir == DirPart(p)
  {
    var d := DirPart(p);
    assert forall k :: |d| <= k < |p| ==> p[k] == p[|d|..][k - |d|] && p[k] in p[|d|..];
    assert forall k :: |dir| <= k < |p| ==> p[k] == name[k - |dir|] && p[k] in name;
    assert (d != "" ==> p[|d| - 1] == '/') && (dir != "" ==> p[|dir| - 1] == '/');
    assert d == p[..|d|] && dir == p[..|dir|];
  }

  /** Everything up to and including the last slash. */
  function DirPart(p: string): (d: string)
    ensures d <= p && Cuts(p, d, p[|d|..])
  {
    if p == "" then "" else if p[|p| - 1] == '/' then p else DirPart(p[..|p| - 1])
  }

  /** path.Dir */
  function Dir(p: string): string {
    CleanPath(DirPart(p))
  }

  /** path.Join of two elements */
  function JoinPath(a: string, b: string): string {
    if a == "" && b == "" then ""
    else if a == "" then CleanPath(b)
    else if b == "" then CleanPath(a)
    else CleanPath(a + "/" + b)
  }

  /** Whether the link `rel` may point to `target`. */
  predicate ValidateSymlink(rel: string, target: string) {
    if target == "" then false
    else if target[0] == '/' || target[0] == '\\' then false
    else
      var resolved := CleanPath(JoinPath(Dir(rel), target));
      !(resolved == ".." || "../" <= resolved)
  }

  lemma CleanWalk(p: string)
    requires !IsRooted(p)
    ensures Clean(Walk(false, [], Components(p)))
  {
    WalkIsClean([], Components(p));
  }

  lemma EmptyStart(at: seq<string>)
    ensures [] + at == at
  {
  }

  /** Cleaning a relative path keeps what it walks to. */
  lemma CleanedComponents(p: string)
    requires !IsRooted(p)
    ensures !IsRooted(CleanPath(p)) && CleanPath(p) != ""
    ensures Walk(false, [], Components(CleanPath(p))) == Walk(false, [], Components(p))
  {
    var at := Walk(false, [], Components(p));
    CleanWalk(p);
    if at == [] {
      ComponentsOfPlain(".");
    } else {
      ComponentsOfJoin(at);
      EmptyStart(at);
      CleanWalksToItself(false, [], at);
      JoinStarts(at);
    }
  }

  lemma JoinStarts(at: seq<string>)
    requires at != [] && at[0] != "" && '/' !in at[0]
    ensures Join(at) != "" && Join(at)[0] == at[0][0] != '/'
  {
    assert at[0][0] in at[0];
  }

  lemma LeavesAsText(at: seq<string>)
    requires at != [] && Clean(at)
    ensures (Join(at) == ".." || "../" <= Join(at)) <==> at[0] == ".."
  {
    ComponentsOfJoin(at);
    var s := Join(at);
    ComponentsOfPlain("..");
    if "../" <= s {
      StartsWithUp(s);
    }
  }

  lemma StartsWithUp(s: string)
    requires "../" <= s
    ensures Components(s)[0] == ".."
  {
    assert s == ".." + "/" + s[3..];
    ComponentsOfConcat("..", s[3..]);
    ComponentsOfPlain("..");
  }

  lemma RelativeJoin(a: string, b: string)
    requires !IsRooted(a) && a != "" && b != ""
    ensures !IsRooted(JoinPath(a, b))
    ensures Walk(false, [], Components(JoinPath(a, b))) == Walk(false, Walk(false, [], Components(a)), Components(b))
  {
    var p := a + "/" + b;
    assert p[0] == a[0];
    CleanedComponents(p);
    ComponentsOfConcat(a, b);
    WalkConcat(false, [], Components(a), Components(b));
  }

  /** From the root through the link's directory and along the target no step leaves the root. */
  ghost predicate StaysInside(rel: string, target: string) {
    forall dir, name :: Cuts(rel, dir, name) ==> Stays(0, Components(dir) + Components(target))
  }

  lemma StaysInsideIff(rel: string, target: string)
    ensures StaysInside(rel, target) <==> Stays(0, Components(DirPart(rel)) + Components(target))
  {
    forall dir, name | Cuts(rel, dir, name) ensures dir == DirPart(rel) {
      CutsOnce(rel, dir, name);
    }
    assert Cuts(rel, DirPart(rel), rel[|DirPart(rel)|..]);
  }

  /**
   * For a relative link name the check accepts exactly the relative targets whose route, followed
   * component by component from the root through the link's directory and along the target, stays
   * inside the root at every step; a route that once leaves the root is never accepted, wherever it
   * ends. Below a rooted link name every relative target is accepted.
   */
  lemma SymlinkAcceptedIff(rel: string, target: string)
    ensures ValidateSymlink(rel, target) <==>
              && target != "" && target[0] != '/' && target[0] != '\\'
              && ((rel != "" && rel[0] == '/') || StaysInside(rel, target))
  {
    if target != "" && target[0] != '/' && target[0] != '\\' {
      if IsRooted(rel) {
        RootedIsAccepted(rel, target);
      } else {
        StaysInsideIff(rel, target);
        RelativeIsAcceptedIff(rel, target);
      }
    }
  }

  lemma RelativeIsAcceptedIff(rel: string, target: string)
    requires !IsRooted(rel) && target != "" && target[0] != '/' && target[0] != '\\'
    ensures ValidateSymlink(rel, target) <==> Stays(0, Components(DirPart(rel)) + Components(target))
  {
    var dir := DirPart(rel);
    var path := Components(dir) + Components(target);
    assert !IsRooted(dir);
    CleanedComponents(dir);
    RelativeJoin(Dir(rel), target);
    CleanedComponents(JoinPath(Dir(rel), target));
    WalkConcat(false, [], Components(dir), Components(target));
    var at := Walk(false, [], path);
    EscapeIsRemembered([], path);
    WalkIsClean([], path);
    if at != [] {
      LeavesAsText(at);
    }
  }

  lemma {:induction false} RootedDir(rel: string)
    requires IsRooted(rel)
    ensures IsRooted(DirPart(rel))
    decreases |rel|
  {
    if rel[|rel| - 1] != '/' {
      RootedDir(rel[..|rel| - 1]);
    }
  }

  lemma RootedIsAccepted(rel: string, target: string)
    requires IsRooted(rel) && target != "" && target[0] != '/' && target[0] != '\\'
    ensures ValidateSymlink(rel, target)
  {
    RootedDir(rel);
    var a := Dir(rel);
    assert IsRooted(a);
    assert (a + "/" + target)[0] == '/';
    var resolved := CleanPath(JoinPath(a, target));
    assert resolved[0] == '/';
  }
}

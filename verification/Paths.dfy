/** Lexical path normalisation, on slash-separated strings and on their components. */
module Paths {

  /** The pieces between slashes; one more than there are slashes. */
  function Components(s: string): (c: seq<string>)
    ensures |c| >= 1 && forall i :: 0 <= i < |c| ==> '/' !in c[i]
  {
    if s == "" then [""]
    else
      var rest := Components(s[1..]);
      if s[0] == '/' then [""] + rest else [[s[0]] + rest[0]] + rest[1..]
  }

  function Join(c: seq<string>): string {
    if c == [] then "" else if |c| == 1 then c[0] else c[0] + "/" + Join(c[1..])
  }

  predicate SlashFree(c: seq<string>) {
    forall i :: 0 <= i < |c| ==> '/' !in c[i]
  }

  /** An ordinary file or directory name. */
  predicate IsName(c: string) {
    c != "" && c != "." && c != ".." && '/' !in c
  }

  predicate Names(c: seq<string>) {
    forall i :: 0 <= i < |c| ==> IsName(c[i])
  }

  lemma {:induction false} ComponentsOfConcat(a: string, b: string)
    ensures Components(a + "/" + b) == Components(a) + Components(b)
    decreases |a|
  {
    var s := a + "/" + b;
    if a == "" {
      assert s[1..] == b;
    } else {
      assert s[0] == a[0] && s[1..] == a[1..] + "/" + b;
      ComponentsOfConcat(a[1..], b);
    }
  }

  lemma {:induction false} ComponentsOfPlain(a: string)
    requires '/' !in a
    ensures Components(a) == [a]
    decreases |a|
  {
    if a != "" {
      ComponentsOfPlain(a[1..]);
      assert a == [a[0]] + a[1..];
    }
  }

  lemma {:induction false} ComponentsOfJoin(c: seq<string>)
    requires c != [] && SlashFree(c)
    ensures Components(Join(c)) == c
    decreases |c|
  {
    ComponentsOfPlain(c[0]);
    if |c| > 1 {
      ComponentsOfJoin(c[1..]);
      ComponentsOfConcat(c[0], Join(c[1..]));
      assert [c[0]] + c[1..] == c;
    }
  }

  /**
   * Walks a path from a directory. Empty and "." components stay, ".." goes up, names go down. Going
   * up from the top stays at the top of a rooted path and is remembered in a relative one.
   */
  function Walk(rooted: bool, at: seq<string>, path: seq<string>): seq<string>
    decreases |path|
  {
    if path == [] then at else Walk(rooted, Step(rooted, at, path[0]), path[1..])
  }

  function Step(rooted: bool, at: seq<string>, c: string): seq<string> {
    if c == "" || c == "." then at
    else if c != ".." then at + [c]
    else if at != [] && at[|at| - 1] != ".." then at[..|at| - 1]
    else if rooted then at
    else at + [".."]
  }

  /** How many levels a walk ends below where it started, counting every step. */
  function Level(path: seq<string>): int {
    if path == [] then 0 else Change(path[0]) + Level(path[1..])
  }

  function Change(c: string): int {
    if c == "" || c == "." then 0 else if c == ".." then -1 else 1
  }

  /** Started `depth` levels below some directory, the walk at no point leaves that directory. */
  ghost predicate Stays(depth: int, path: seq<string>) {
    forall k :: 0 <= k <= |path| ==> depth + Level(path[..k]) >= 0
  }

  /** The same, one step at a time. */
  lemma StaysStep(depth: int, path: seq<string>)
    requires path != []
    ensures Stays(depth, path) <==> depth >= 0 && Stays(depth + Change(path[0]), path[1..])
  {
    forall k | 1 <= k <= |path| ensures Level(path[..k]) == Change(path[0]) + Level(path[1..][..k - 1]) {
      assert path[..k][1..] == path[1..][..k - 1];
    }
    if Stays(depth, path) {
      assert depth + Level(path[..0]) >= 0;
      forall k | 0 <= k <= |path[1..]| ensures depth + Change(path[0]) + Level(path[1..][..k]) >= 0 {
        assert depth + Level(path[..k + 1]) >= 0;
        assert path[1..][..k + 1 - 1] == path[1..][..k];
      }
    }
    if depth >= 0 && Stays(depth + Change(path[0]), path[1..]) {
      forall k | 0 <= k <= |path| ensures depth + Level(path[..k]) >= 0 {
        if k > 0 {
          assert depth + Change(path[0]) + Level(path[1..][..k - 1]) >= 0;
        }
      }
    }
  }

  lemma {:induction false} WalkConcat(rooted: bool, at: seq<string>, p: seq<string>, q: seq<string>)
    ensures Walk(rooted, at, p + q) == Walk(rooted, Walk(rooted, at, p), q)
    decreases |p|
  {
    if p == [] {
      assert p + q == q;
    } else {
      assert (p + q)[1..] == p[1..] + q;
      WalkConcat(rooted, Step(rooted, at, p[0]), p[1..], q);
    }
  }

  /** A cleaned relative path: some number of ".." and then names. */
  predicate Clean(at: seq<string>) {
    && SlashFree(at)
    && (forall i :: 0 <= i < |at| ==> at[i] != "" && at[i] != ".")
    && (forall i, j :: 0 <= i < j < |at| && at[j] == ".." ==> at[i] == "..")
  }

  lemma {:induction false} WalkIsClean(at: seq<string>, path: seq<string>)
    requires Clean(at) && SlashFree(path)
    ensures Clean(Walk(false, at, path))
    decreases |path|
  {
    if path != [] {
      WalkIsClean(Step(false, at, path[0]), path[1..]);
    }
  }

  lemma {:induction false} WalkOfNames(at: seq<string>, path: seq<string>)
    requires Names(at) && SlashFree(path)
    ensures Names(Walk(true, at, path))
    decreases |path|
  {
    if path != [] {
      WalkOfNames(Step(true, at, path[0]), path[1..]);
    }
  }

  /** Walking along a cleaned path reproduces it. */
  lemma {:induction false} CleanWalksToItself(rooted: bool, at: seq<string>, path: seq<string>)
    requires Clean(at + path) && (rooted ==> Names(at + path))
    ensures Walk(rooted, at, path) == at + path
    decreases |path|
  {
    if path != [] {
      var c := path[0];
      assert (at + path)[|at|] == c;
      assert at + [c] + path[1..] == at + path;
      if c == ".." && at != [] {
        assert (at + path)[|at| - 1] == "..";
      }
      CleanWalksToItself(rooted, at + [c], path[1..]);
    } else {
      assert at + path == at;
    }
  }

  /** A relative walk from a directory ends outside it exactly when it left it on the way: it never hides. */
  lemma {:induction false} EscapeIsRemembered(at: seq<string>, path: seq<string>)
    requires Clean(at) && SlashFree(path)
    ensures var r := Walk(false, at, path);
            (r != [] && r[0] == "..") <==> (at != [] && at[0] == "..") || !Stays(|at|, path)
    decreases |path|
  {
    if path == [] {
      assert Level(path[..0]) == 0;
    } else {
      var next := Step(false, at, path[0]);
      StepIsClean(at, path[0]);
      EscapeIsRemembered(next, path[1..]);
      StaysStep(|at|, path);
      assert Stays(|at| + Change(path[0]), path[1..]) ==> |at| + Change(path[0]) + Level(path[1..][..0]) >= 0;
    }
  }

  lemma StepIsClean(at: seq<string>, c: string)
    requires Clean(at)
    ensures var next := Step(false, at, c);
            && (at != [] && at[0] == ".." ==> next != [] && next[0] == "..")
            && (!(at != [] && at[0] == "..") ==>
                  if at == [] && c == ".." then next == [".."] && |at| + Change(c) < 0
                  else |next| == |at| + Change(c) && !(next != [] && next[0] == ".."))
  {
  }
}

/** Overriding the namespace of a package definition. */
module Namespace {
  import opened Outcomes

  datatype Chart = Chart(name: string, namespace: string)
  datatype Manifest = Manifest(name: string, namespace: string)
  datatype ClusterWait = ClusterWait(kind: string, name: string, condition: string, namespace: string)
  datatype Wait = Wait(cluster: Option<ClusterWait>, network: string)
  datatype Action = Action(cmd: string, wait: Option<Wait>)
  datatype ActionSet = ActionSet(
    before: seq<Action>, after: seq<Action>, onSuccess: seq<Action>, onFailure: seq<Action>)
  datatype Component = Component(
    name: string,
    charts: seq<Chart>,
    manifests: seq<Manifest>,
    onCreate: ActionSet,
    onDeploy: ActionSet,
    onRemove: ActionSet)

  /** A change of namespaces. */
  type Renaming = string -> string

  function To(original: string, target: string): Renaming {
    ns => if ns == original then target else ns
  }

  function Charts(s: seq<Chart>, f: Renaming): seq<Chart> {
    seq(|s|, i requires 0 <= i < |s| => s[i].(namespace := f(s[i].namespace)))
  }

  function Manifests(s: seq<Manifest>, f: Renaming): seq<Manifest> {
    seq(|s|, i requires 0 <= i < |s| => s[i].(namespace := f(s[i].namespace)))
  }

  predicate WaitsInCluster(a: Action) { a.wait.Some? && a.wait.value.cluster.Some? }

  function WaitNamespace(a: Action): string
    requires WaitsInCluster(a)
  {
    a.wait.value.cluster.value.namespace
  }

  function Act(a: Action, f: Renaming): Action {
    if WaitsInCluster(a) then WithNamespace(a, f(WaitNamespace(a))) else a
  }

  function WithNamespace(a: Action, ns: string): (r: Action)
    requires WaitsInCluster(a)
    ensures WaitsInCluster(r) && WaitNamespace(r) == ns && r.cmd == a.cmd
  {
    a.(wait := Some(a.wait.value.(cluster := Some(a.wait.value.cluster.value.(namespace := ns)))))
  }

  function Actions(s: seq<Action>, f: Renaming): seq<Action> {
    seq(|s|, i requires 0 <= i < |s| => Act(s[i], f))
  }

  function Set(s: ActionSet, f: Renaming): ActionSet {
    ActionSet(Actions(s.before, f), Actions(s.after, f), Actions(s.onSuccess, f), Actions(s.onFailure, f))
  }

  function Renamed(c: Component, f: Renaming): Component {
    Component(c.name, Charts(c.charts, f), Manifests(c.manifests, f),
              Set(c.onCreate, f), Set(c.onDeploy, f), Set(c.onRemove, f))
  }

  function AllRenamed(s: seq<Component>, f: Renaming): seq<Component> {
    seq(|s|, i requires 0 <= i < |s| => Renamed(s[i], f))
  }

  // Which namespaces a definition speaks of.

  ghost predicate Installs(c: Component, ns: string) {
    (exists i :: 0 <= i < |c.charts| && c.charts[i].namespace == ns)
    || (exists i :: 0 <= i < |c.manifests| && c.manifests[i].namespace == ns)
  }

  ghost predicate AwaitedBy(s: seq<Action>, ns: string) {
    exists i :: 0 <= i < |s| && WaitsInCluster(s[i]) && WaitNamespace(s[i]) == ns
  }

  ghost predicate AwaitedIn(s: ActionSet, ns: string) {
    AwaitedBy(s.before, ns) || AwaitedBy(s.after, ns) || AwaitedBy(s.onSuccess, ns) || AwaitedBy(s.onFailure, ns)
  }

  ghost predicate Waits(c: Component, ns: string) {
    AwaitedIn(c.onCreate, ns) || AwaitedIn(c.onDeploy, ns) || AwaitedIn(c.onRemove, ns)
  }

  ghost predicate Installed(s: seq<Component>, ns: string) { exists i :: 0 <= i < |s| && Installs(s[i], ns) }

  ghost predicate Awaited(s: seq<Component>, ns: string) { exists i :: 0 <= i < |s| && Waits(s[i], ns) }

  // Two renamings agree on a definition exactly when they agree on the namespaces it speaks of.

  ghost predicate Agree(f: Renaming, g: Renaming, x: string) { f(x) == g(x) }

  lemma ActionsAgree(s: seq<Action>, f: Renaming, g: Renaming)
    ensures Actions(s, f) == Actions(s, g) <==> forall x :: AwaitedBy(s, x) ==> Agree(f, g, x)
  {
    forall i | 0 <= i < |s| && WaitsInCluster(s[i])
      ensures Actions(s, f)[i] == Actions(s, g)[i] <==> Agree(f, g, WaitNamespace(s[i]))
    {
      assert AwaitedBy(s, WaitNamespace(s[i]));
      assert WaitNamespace(Actions(s, f)[i]) == f(WaitNamespace(s[i]));
    }
    if forall x :: AwaitedBy(s, x) ==> Agree(f, g, x) {
      forall i | 0 <= i < |s| ensures Actions(s, f)[i] == Actions(s, g)[i] {
        assert WaitsInCluster(s[i]) ==> AwaitedBy(s, WaitNamespace(s[i]));
      }
    }
  }

  lemma SetAgrees(s: ActionSet, f: Renaming, g: Renaming)
    ensures Set(s, f) == Set(s, g) <==> forall x :: AwaitedIn(s, x) ==> Agree(f, g, x)
  {
    ActionsAgree(s.before, f, g);
    ActionsAgree(s.after, f, g);
    ActionsAgree(s.onSuccess, f, g);
    ActionsAgree(s.onFailure, f, g);
  }

  lemma InstallsAgree(c: Component, f: Renaming, g: Renaming)
    ensures Charts(c.charts, f) == Charts(c.charts, g) && Manifests(c.manifests, f) == Manifests(c.manifests, g)
       <==> forall x :: Installs(c, x) ==> Agree(f, g, x)
  {
    if Charts(c.charts, f) == Charts(c.charts, g) && Manifests(c.manifests, f) == Manifests(c.manifests, g) {
      forall i | 0 <= i < |c.charts| ensures Agree(f, g, c.charts[i].namespace) {
        assert Charts(c.charts, f)[i] == Charts(c.charts, g)[i];
      }
      forall i | 0 <= i < |c.manifests| ensures Agree(f, g, c.manifests[i].namespace) {
        assert Manifests(c.manifests, f)[i] == Manifests(c.manifests, g)[i];
      }
    }
    if forall x :: Installs(c, x) ==> Agree(f, g, x) {
      forall i | 0 <= i < |c.charts| ensures Charts(c.charts, f)[i] == Charts(c.charts, g)[i] {
        assert Agree(f, g, c.charts[i].namespace);
      }
      forall i | 0 <= i < |c.manifests| ensures Manifests(c.manifests, f)[i] == Manifests(c.manifests, g)[i] {
        assert Agree(f, g, c.manifests[i].namespace);
      }
    }
  }

  lemma ComponentAgrees(c: Component, f: Renaming, g: Renaming)
    ensures Renamed(c, f) == Renamed(c, g) <==> forall x :: Installs(c, x) || Waits(c, x) ==> Agree(f, g, x)
  {
    InstallsAgree(c, f, g);
    SetAgrees(c.onCreate, f, g);
    SetAgrees(c.onDeploy, f, g);
    SetAgrees(c.onRemove, f, g);
  }

  lemma RenamingsAgree(s: seq<Component>, f: Renaming, g: Renaming)
    ensures AllRenamed(s, f) == AllRenamed(s, g) <==> forall x :: Installed(s, x) || Awaited(s, x) ==> Agree(f, g, x)
  {
    forall i | 0 <= i < |s|
      ensures AllRenamed(s, f)[i] == AllRenamed(s, g)[i]
         <==> forall x :: Installs(s[i], x) || Waits(s[i], x) ==> Agree(f, g, x)
    {
      ComponentAgrees(s[i], f, g);
    }
    assert AllRenamed(s, f) == AllRenamed(s, g)
      <==> forall i :: 0 <= i < |s| ==> AllRenamed(s, f)[i] == AllRenamed(s, g)[i];
  }

  // Renaming twice is renaming once by the composition.

  function Then(f: Renaming, g: Renaming): Renaming {
    x => g(f(x))
  }

  lemma ChartsTwice(c: Component, f: Renaming, g: Renaming)
    ensures Charts(Charts(c.charts, f), g) == Charts(c.charts, Then(f, g))
    ensures Manifests(Manifests(c.manifests, f), g) == Manifests(c.manifests, Then(f, g))
  {
    forall i | 0 <= i < |c.charts| ensures Charts(Charts(c.charts, f), g)[i] == Charts(c.charts, Then(f, g))[i] {
      assert Then(f, g)(c.charts[i].namespace) == g(f(c.charts[i].namespace));
    }
    forall i | 0 <= i < |c.manifests|
      ensures Manifests(Manifests(c.manifests, f), g)[i] == Manifests(c.manifests, Then(f, g))[i]
    {
      assert Then(f, g)(c.manifests[i].namespace) == g(f(c.manifests[i].namespace));
    }
  }

  lemma ActionsTwice(s: seq<Action>, f: Renaming, g: Renaming)
    ensures Actions(Actions(s, f), g) == Actions(s, Then(f, g))
  {
    forall i | 0 <= i < |s| ensures Actions(Actions(s, f), g)[i] == Actions(s, Then(f, g))[i] {
      assert WaitsInCluster(s[i]) ==> Then(f, g)(WaitNamespace(s[i])) == g(f(WaitNamespace(s[i])));
    }
  }

  lemma SetTwice(s: ActionSet, f: Renaming, g: Renaming)
    ensures Set(Set(s, f), g) == Set(s, Then(f, g))
  {
    ActionsTwice(s.before, f, g);
    ActionsTwice(s.after, f, g);
    ActionsTwice(s.onSuccess, f, g);
    ActionsTwice(s.onFailure, f, g);
  }

  lemma RenamedTwice(s: seq<Component>, f: Renaming, g: Renaming)
    ensures AllRenamed(AllRenamed(s, f), g) == AllRenamed(s, Then(f, g))
  {
    forall i | 0 <= i < |s| ensures AllRenamed(AllRenamed(s, f), g)[i] == AllRenamed(s, Then(f, g))[i] {
      ChartsTwice(s[i], f, g);
      SetTwice(s[i].onCreate, f, g);
      SetTwice(s[i].onDeploy, f, g);
      SetTwice(s[i].onRemove, f, g);
    }
  }

  // The override.

  /** Charts and manifests are installed in one namespace at most. */
  ghost predicate OneNamespace(s: seq<Component>) {
    forall x, y :: Installed(s, x) && Installed(s, y) ==> x == y
  }

  ghost predicate InstallsNothing(s: seq<Component>) { forall x :: !Installed(s, x) }

  ghost function Original(s: seq<Component>): string
    requires OneNamespace(s)
  {
    if InstallsNothing(s) then "" else var x :| Installed(s, x); x
  }

  ghost function Overridden(s: seq<Component>, target: string): seq<Component>
    requires OneNamespace(s)
  {
    AllRenamed(s, To(Original(s), target))
  }

  /** Where a renamed component installs. */
  lemma InstallsRenamed(c: Component, f: Renaming, y: string)
    ensures Installs(Renamed(c, f), y) <==> exists x :: Installs(c, x) && f(x) == y
  {
    var r := Renamed(c, f);
    if x :| Installs(c, x) && f(x) == y {
      if i :| 0 <= i < |c.charts| && c.charts[i].namespace == x {
        assert r.charts[i].namespace == y;
      } else {
        var i :| 0 <= i < |c.manifests| && c.manifests[i].namespace == x;
        assert r.manifests[i].namespace == y;
      }
    }
    if Installs(r, y) {
      if i :| 0 <= i < |r.charts| && r.charts[i].namespace == y {
        assert Installs(c, c.charts[i].namespace);
      } else {
        var i :| 0 <= i < |r.manifests| && r.manifests[i].namespace == y;
        assert Installs(c, c.manifests[i].namespace);
      }
    }
  }

  lemma InstalledRenamed(s: seq<Component>, f: Renaming, y: string)
    ensures Installed(AllRenamed(s, f), y) <==> exists x :: Installed(s, x) && f(x) == y
  {
    forall i | 0 <= i < |s| ensures Installs(AllRenamed(s, f)[i], y) <==> exists x :: Installs(s[i], x) && f(x) == y {
      InstallsRenamed(s[i], f, y);
    }
    if x :| Installed(s, x) && f(x) == y {
      var i :| 0 <= i < |s| && Installs(s[i], x);
      assert Installs(AllRenamed(s, f)[i], y);
    }
    if Installed(AllRenamed(s, f), y) {
      var i :| 0 <= i < |s| && Installs(AllRenamed(s, f)[i], y);
      var x :| Installs(s[i], x) && f(x) == y;
      assert Installed(s, x);
    }
  }

  /** After an override everything is installed in the target, so that a further override is possible. */
  lemma InstalledInTarget(s: seq<Component>, target: string)
    requires OneNamespace(s)
    ensures forall x :: Installed(Overridden(s, target), x) <==> x == target && !InstallsNothing(s)
    ensures OneNamespace(Overridden(s, target))
    ensures Original(Overridden(s, target)) == if InstallsNothing(s) then "" else target
  {
    var o := Original(s);
    forall x ensures Installed(Overridden(s, target), x) <==> x == target && !InstallsNothing(s) {
      InstalledRenamed(s, To(o, target), x);
      assert !InstallsNothing(s) ==> Installed(s, o) && To(o, target)(o) == target;
    }
    assert InstallsNothing(s) ==> InstallsNothing(Overridden(s, target));
    assert !InstallsNothing(s) ==> Installed(Overridden(s, target), target);
  }

  /**
   * When overriding to `a` and then to `b` is the same as overriding to `b` at once: unless both steps
   * do something, exactly when no wait action already names the namespace that the second step replaces.
   */
  ghost predicate SecondOverrideWins(s: seq<Component>, a: string, b: string)
    requires OneNamespace(s)
  {
    a == b || a == Original(s) || !Awaited(s, if InstallsNothing(s) then "" else a)
  }

  lemma TwoOverrides(s: seq<Component>, a: string, b: string)
    requires OneNamespace(s)
    ensures OneNamespace(Overridden(s, a))
    ensures Overridden(Overridden(s, a), b) == Overridden(s, b) <==> SecondOverrideWins(s, a, b)
  {
    InstalledInTarget(s, a);
    var o := Original(s);
    var second := if InstallsNothing(s) then "" else a;
    var once, twice := To(o, b), Then(To(o, a), To(second, b));
    RenamedTwice(s, To(o, a), To(second, b));
    RenamingsAgree(s, twice, once);
    assert forall x :: Installed(s, x) ==> x == o;
    assert forall x :: Agree(twice, once, x) <==> a == b || a == o || x != second || (x == o && a == second);
  }

  /** Overriding again to the same namespace changes nothing, whatever the namespace. */
  lemma OverrideIsIdempotent(s: seq<Component>, target: string)
    requires OneNamespace(s)
    ensures OneNamespace(Overridden(s, target))
    ensures Overridden(Overridden(s, target), target) == Overridden(s, target)
  {
    TwoOverrides(s, target, target);
  }

  function Blank(): Renaming {
    _ => ""
  }

  /** Only namespaces change: blanked out, the definition is the same before and after. */
  lemma OnlyNamespacesChange(s: seq<Component>, target: string)
    requires OneNamespace(s)
    ensures AllRenamed(Overridden(s, target), Blank()) == AllRenamed(s, Blank())
  {
    RenamedTwice(s, To(Original(s), target), Blank());
    RenamingsAgree(s, Then(To(Original(s), target), Blank()), Blank());
  }

  /** A package without charts or manifests: the first override moves its bare waits, the second finds none. */
  lemma FirstOverrideSticks() returns (s: seq<Component>)
    ensures OneNamespace(s) && OneNamespace(Overridden(s, "a"))
    ensures Overridden(Overridden(s, "a"), "b") != Overridden(s, "b")
  {
    var none := ActionSet([], [], [], []);
    var bare := Action("", Some(Wait(Some(ClusterWait("pod", "p", "ready", "")), "")));
    s := [Component("c", [], [], none, none.(after := [bare]), none)];
    assert forall x :: !Installs(s[0], x);
    assert WaitsInCluster(s[0].onDeploy.after[0]) && AwaitedBy(s[0].onDeploy.after, "");
    assert AwaitedIn(s[0].onDeploy, "") && Waits(s[0], "");
    assert Awaited(s, "");
    TwoOverrides(s, "a", "b");
  }

  // The operations in place.

  method RewriteActions(actions: seq<Action>, original: string, target: string) returns (r: seq<Action>)
    ensures r == Actions(actions, To(original, target))
  {
    r := actions;
    for i := 0 to |actions|
      invariant |r| == |actions| && r[i..] == actions[i..]
      invariant forall j :: 0 <= j < i ==> r[j] == Act(actions[j], To(original, target))
    {
      assert r[i] == r[i..][0] == actions[i];
      if r[i].wait.Some? && r[i].wait.value.cluster.Some? {
        var wait := r[i].wait.value;
        var cluster := wait.cluster.value;
        if cluster.namespace == original {
          r := r[i := r[i].(wait := Some(wait.(cluster := Some(cluster.(namespace := target)))))];
        }
      }
    }
  }

  method RewriteActionSet(s: ActionSet, original: string, target: string) returns (r: ActionSet)
    ensures r == Set(s, To(original, target))
  {
    var before := RewriteActions(s.before, original, target);
    var after := RewriteActions(s.after, original, target);
    var onSuccess := RewriteActions(s.onSuccess, original, target);
    var onFailure := RewriteActions(s.onFailure, original, target);
    r := ActionSet(before, after, onSuccess, onFailure);
  }

  method RewriteComponent(c: Component, original: string, target: string) returns (r: Component)
    ensures r == Renamed(c, To(original, target))
  {
    var charts, manifests := c.charts, c.manifests;
    for j := 0 to |charts|
      invariant |charts| == |c.charts| && charts[j..] == c.charts[j..]
      invariant forall k :: 0 <= k < j ==> charts[k] == Charts(c.charts, To(original, target))[k]
    {
      assert charts[j] == charts[j..][0] == c.charts[j];
      if charts[j].namespace == original {
        charts := charts[j := charts[j].(namespace := target)];
      }
    }
    for j := 0 to |manifests|
      invariant |manifests| == |c.manifests| && manifests[j..] == c.manifests[j..]
      invariant forall k :: 0 <= k < j ==> manifests[k] == Manifests(c.manifests, To(original, target))[k]
    {
      assert manifests[j] == manifests[j..][0] == c.manifests[j];
      if manifests[j].namespace == original {
        manifests := manifests[j := manifests[j].(namespace := target)];
      }
    }
    var onCreate := RewriteActionSet(c.onCreate, original, target);
    var onDeploy := RewriteActionSet(c.onDeploy, original, target);
    var onRemove := RewriteActionSet(c.onRemove, original, target);
    r := Component(c.name, charts, manifests, onCreate, onDeploy, onRemove);
  }

  class PackageDefinition {
    var components: seq<Component>
    const preventNamespaceOverride: bool
    const isInitConfig: bool

    constructor (components: seq<Component>, prevent: bool, isInit: bool)
      ensures this.components == components && preventNamespaceOverride == prevent && isInitConfig == isInit
    {
      this.components, preventNamespaceOverride, isInitConfig := components, prevent, isInit;
    }

    method UniqueNamespaces() returns (seen: set<string>)
      ensures forall x :: x in seen <==> Installed(components, x)
    {
      seen := {};
      for i := 0 to |components|
        invariant forall x :: x in seen <==> Installed(components[..i], x)
      {
        ghost var before := seen;
        var c := components[i];
        for j := 0 to |c.charts|
          invariant forall x :: x in seen <==> x in before || exists k :: 0 <= k < j && c.charts[k].namespace == x
        {
          seen := seen + {c.charts[j].namespace};
        }
        ghost var charted := seen;
        for j := 0 to |c.manifests|
          invariant forall x :: x in seen
                         <==> x in charted || exists k :: 0 <= k < j && c.manifests[k].namespace == x
        {
          seen := seen + {c.manifests[j].namespace};
        }
        assert forall x :: x in seen <==> x in before || Installs(c, x);
        forall x ensures Installed(components[..i + 1], x) <==> Installed(components[..i], x) || Installs(c, x) {
          OneMore(components, i, x);
        }
      }
      assert components[..|components|] == components;
    }

    method OverrideComponentNamespaces(original: string, target: string)
      modifies this
      ensures components == AllRenamed(old(components), To(original, target))
    {
      ghost var before := components;
      for i := 0 to |components|
        invariant |components| == |before| && components[i..] == before[i..]
        invariant forall j :: 0 <= j < i ==> components[j] == Renamed(before[j], To(original, target))
      {
        assert components[i] == components[i..][0] == before[i];
        var c := RewriteComponent(components[i], original, target);
        components := components[i := c];
      }
    }

    /** Refused for a definition that forbids it, for an init package and for several namespaces. */
    method OverrideNamespace(namespace: string) returns (ok: bool)
      modifies this
      ensures ok <==> !preventNamespaceOverride && !isInitConfig && OneNamespace(old(components))
      ensures components == if ok then Overridden(old(components), namespace) else old(components)
    {
      if preventNamespaceOverride || isInitConfig {
        return false;
      }
      var namespaces := UniqueNamespaces();
      if |namespaces| > 1 {
        SeveralMembers(namespaces);
        return false;
      }
      FewMembers(namespaces);
      var original := "";
      if |namespaces| == 1 {
        original :| original in namespaces;
      }
      assert original == Original(components);
      OverrideComponentNamespaces(original, namespace);
      return true;
    }
  }

  lemma OneMore(s: seq<Component>, i: nat, x: string)
    requires i < |s|
    ensures Installed(s[..i + 1], x) <==> Installed(s[..i], x) || Installs(s[i], x)
  {
    assert forall j :: 0 <= j < i ==> s[..i + 1][j] == s[..i][j];
    assert s[..i + 1][i] == s[i];
  }

  lemma SeveralMembers(s: set<string>)
    requires |s| > 1
    ensures exists x, y :: x in s && y in s && x != y
  {
    var x :| x in s;
    assert |s - {x}| > 0;
    var y :| y in s - {x};
  }

  lemma FewMembers(s: set<string>)
    requires |s| <= 1
    ensures forall x, y :: x in s && y in s ==> x == y
    ensures |s| == 0 <==> s == {}
  {
    forall x, y | x in s && y in s ensures x == y {
      assert |s - {x}| == 0;
      assert y !in s - {x};
    }
  }
}

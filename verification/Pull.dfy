/** The metadata pass of a pull: one worker per image, three shared lists, one lock. */
module Pull {
  import opened Outcomes
  import Overrides

  datatype Image = Image(reference: string, name: string, digest: string)
  datatype WithOverride = WithOverride(original: Image, overridden: Image)
  datatype Info = Info(overrideRef: string, ref: string, size: nat)

  /** How a worker's look at the registry ends, when it ends without error. */
  datatype Outcome = InRegistry(size: nat) | TryDaemon

  datatype Lists = Lists(infos: seq<Info>, pulled: seq<Image>, fallback: seq<WithOverride>)

  /** A worker's position. Appending to a shared list is reading it and, in a later step, writing it back. */
  datatype Phase =
    | Fetching
    | Fetched(outcome: Outcome)
    | Holding(outcome: Outcome)
    | Loaded(outcome: Outcome, mine: Lists)
    | Stored(outcome: Outcome)
    | Done(outcome: Outcome)
    | Failed

  datatype State = State(phases: seq<Phase>, lists: Lists, holder: Option<nat>)

  datatype Step = Fetch(outcome: Outcome) | Fail | Lock | Load | Store | Unlock

  /** Worker `worker` takes the step. */
  datatype Action = Action(worker: nat, step: Step)

  function Start(images: seq<WithOverride>): State {
    State(seq(|images|, _ => Fetching), Lists([], [], []), None)
  }

  function InfoOf(image: WithOverride, size: nat): Info {
    Info(image.overridden.reference, image.original.reference, size)
  }

  function Appended(l: Lists, image: WithOverride, o: Outcome): Lists {
    match o
    case InRegistry(size) =>
      l.(infos := l.infos + [InfoOf(image, size)], pulled := l.pulled + [image.original])
    case TryDaemon =>
      l.(fallback := l.fallback + [image])
  }

  predicate Enabled(s: State, a: Action) {
    a.worker < |s.phases| &&
    var p := s.phases[a.worker];
    match a.step
    case Fetch(_) => p.Fetching?
    case Fail => p.Fetching?
    case Lock => p.Fetched? && s.holder.None?
    case Load => p.Holding?
    case Store => p.Loaded?
    case Unlock => p.Stored?
  }

  function Next(images: seq<WithOverride>, s: State, a: Action): State
    requires |images| == |s.phases| && Enabled(s, a)
  {
    var i := a.worker;
    var p := s.phases[i];
    match a.step
    case Fetch(o) => s.(phases := s.phases[i := Fetched(o)])
    case Fail => s.(phases := s.phases[i := Failed])
    case Lock => s.(phases := s.phases[i := Holding(p.outcome)], holder := Some(i))
    case Load => s.(phases := s.phases[i := Loaded(p.outcome, s.lists)])
    case Store => s.(phases := s.phases[i := Stored(p.outcome)], lists := Appended(p.mine, images[i], p.outcome))
    case Unlock => s.(phases := s.phases[i := Done(p.outcome)], holder := None)
  }

  /** The states that some interleaving of the workers' steps leads to. */
  ghost predicate Reaches(images: seq<WithOverride>, actions: seq<Action>, s: State)
    decreases |actions|
  {
    if actions == [] then s == Start(images) else
      var n := |actions| - 1;
      exists before :: Reaches(images, actions[..n], before) && |before.phases| == |images|
        && Enabled(before, actions[n]) && s == Next(images, before, actions[n])
  }

  predicate Settled(s: State) { forall i :: 0 <= i < |s.phases| ==> s.phases[i].Done? || s.phases[i].Failed? }

  predicate Succeeded(s: State) { forall i :: 0 <= i < |s.phases| ==> s.phases[i].Done? }

  function Originals(images: seq<WithOverride>): seq<Image> {
    seq(|images|, i requires 0 <= i < |images| => images[i].original)
  }

  /** Everything that was put on a list, under its original reference. */
  function Reported(l: Lists): seq<Image> { l.pulled + Originals(l.fallback) }

  // The invariant.

  predicate InSection(p: Phase) { p.Holding? || p.Loaded? || p.Stored? }
  predicate Recorded(p: Phase) { p.Stored? || p.Done? }

  /** How many workers for the image `x` have written their entry. */
  function Entries(images: seq<WithOverride>, phases: seq<Phase>, x: Image): nat
    requires |images| == |phases|
  {
    if images == [] then 0 else
      var n := |images| - 1;
      Entries(images[..n], phases[..n], x) + Entry(images[n], phases[n], x)
  }

  function Entry(w: WithOverride, p: Phase, x: Image): nat {
    if Recorded(p) && w.original == x then 1 else 0
  }

  ghost predicate Locked(phases: seq<Phase>, lists: Lists, holder: Option<nat>) {
    && (forall i :: 0 <= i < |phases| && InSection(phases[i]) ==> holder == Some(i))
    && (holder.Some? ==> holder.value < |phases| && InSection(phases[holder.value]))
    && (forall i :: 0 <= i < |phases| && phases[i].Loaded? ==> phases[i].mine == lists)
  }

  ghost predicate FromImages(images: seq<WithOverride>, l: Lists) {
    && |l.infos| == |l.pulled|
    && (forall k :: 0 <= k < |l.infos| ==> exists w :: w in images && IsInfoOf(w, l.infos[k], l.pulled[k]))
    && (forall w :: w in l.fallback ==> w in images)
  }

  ghost predicate IsInfoOf(w: WithOverride, info: Info, pulled: Image) {
    pulled == w.original && info.ref == w.original.reference && info.overrideRef == w.overridden.reference
  }

  /** The image is reported as often as it was recorded. */
  ghost predicate Balanced(images: seq<WithOverride>, phases: seq<Phase>, l: Lists, x: Image)
    requires |phases| == |images|
  {
    multiset(Reported(l))[x] == Entries(images, phases, x)
  }

  ghost predicate Inv(images: seq<WithOverride>, s: State) {
    && |s.phases| == |images|
    && Locked(s.phases, s.lists, s.holder)
    && FromImages(images, s.lists)
    && forall x :: Balanced(images, s.phases, s.lists, x)
  }

  /** A change of one worker's phase changes its own entry alone. */
  lemma {:induction false} EntriesAfter(images: seq<WithOverride>, phases: seq<Phase>, i: nat, p: Phase, x: Image)
    requires |images| == |phases| && i < |phases|
    ensures Entries(images, phases[i := p], x) - Entries(images, phases, x)
         == Entry(images[i], p, x) - Entry(images[i], phases[i], x)
    decreases |images|
  {
    var n := |images| - 1;
    var after := phases[i := p];
    if i < n {
      assert after[..n] == phases[..n][i := p];
      EntriesAfter(images[..n], phases[..n], i, p, x);
    } else {
      assert after[..n] == phases[..n];
    }
  }

  lemma AppendedReports(images: seq<WithOverride>, l: Lists, w: WithOverride, o: Outcome)
    requires FromImages(images, l) && w in images
    ensures FromImages(images, Appended(l, w, o))
    ensures multiset(Reported(Appended(l, w, o))) == multiset(Reported(l)) + multiset{w.original}
  {
    var r := Appended(l, w, o);
    match o
    case InRegistry(size) =>
      assert Reported(r) == l.pulled + [w.original] + Originals(l.fallback);
      forall k | 0 <= k < |r.infos| ensures exists v :: v in images && IsInfoOf(v, r.infos[k], r.pulled[k]) {
        if k < |l.infos| {
          var v :| v in images && IsInfoOf(v, l.infos[k], l.pulled[k]);
          assert IsInfoOf(v, r.infos[k], r.pulled[k]);
        } else {
          assert IsInfoOf(w, r.infos[k], r.pulled[k]);
        }
      }
    case TryDaemon =>
      assert Originals(r.fallback) == Originals(l.fallback) + [w.original];
      assert Reported(r) == Reported(l) + [w.original];
  }

  lemma StepKeepsLock(images: seq<WithOverride>, s: State, a: Action)
    requires |images| == |s.phases| && Locked(s.phases, s.lists, s.holder) && Enabled(s, a)
    ensures var t := Next(images, s, a); Locked(t.phases, t.lists, t.holder)
  {
    match a.step
    case Fetch(_) =>
    case Fail =>
    case Lock =>
    case Load =>
    case Store =>
    case Unlock =>
  }

  /** The lock makes the write-back safe: what is written back is what all the others have recorded. */
  lemma StepKeepsBalance(images: seq<WithOverride>, s: State, a: Action, x: Image)
    requires |images| == |s.phases| && Locked(s.phases, s.lists, s.holder) && FromImages(images, s.lists)
    requires Enabled(s, a)
    requires Balanced(images, s.phases, s.lists, x)
    ensures var t := Next(images, s, a); FromImages(images, t.lists) && Balanced(images, t.phases, t.lists, x)
  {
    var i, t := a.worker, Next(images, s, a);
    EntriesAfter(images, s.phases, i, t.phases[i], x);
    match a.step
    case Fetch(_) =>
    case Fail =>
    case Lock =>
    case Load =>
    case Store => AppendedReports(images, s.lists, images[i], s.phases[i].outcome);
    case Unlock =>
  }

  lemma StepKeepsInv(images: seq<WithOverride>, s: State, a: Action)
    requires Inv(images, s) && Enabled(s, a)
    ensures Inv(images, Next(images, s, a))
  {
    var t := Next(images, s, a);
    StepKeepsLock(images, s, a);
    var mine := images[a.worker].original;
    assert Balanced(images, s.phases, s.lists, mine);
    StepKeepsBalance(images, s, a, mine);
    forall x ensures Balanced(images, t.phases, t.lists, x) {
      assert Balanced(images, s.phases, s.lists, x);
      StepKeepsBalance(images, s, a, x);
    }
  }

  lemma {:induction false} NoEntries(images: seq<WithOverride>, phases: seq<Phase>, x: Image)
    requires |images| == |phases| && forall i :: 0 <= i < |phases| ==> !Recorded(phases[i])
    ensures Entries(images, phases, x) == 0
    decreases |images|
  {
    if images != [] {
      NoEntries(images[..|images| - 1], phases[..|images| - 1], x);
    }
  }

  lemma {:induction false} RunKeepsInv(images: seq<WithOverride>, actions: seq<Action>, s: State)
    requires Reaches(images, actions, s)
    ensures Inv(images, s)
    decreases |actions|
  {
    if actions == [] {
      forall x ensures Entries(images, s.phases, x) == 0 {
        NoEntries(images, s.phases, x);
      }
    } else {
      var n := |actions| - 1;
      var before :| Reaches(images, actions[..n], before) && |before.phases| == |images|
        && Enabled(before, actions[n]) && s == Next(images, before, actions[n]);
      RunKeepsInv(images, actions[..n], before);
      StepKeepsInv(images, before, actions[n]);
    }
  }

  // Which list a worker's entry is on.

  ghost predicate FiledForDaemon(images: seq<WithOverride>, phases: seq<Phase>, i: int, w: WithOverride) {
    0 <= i < |phases| == |images| && Recorded(phases[i]) && phases[i].outcome.TryDaemon? && images[i] == w
  }

  ghost predicate FiledAsInfo(images: seq<WithOverride>, phases: seq<Phase>, i: int, x: Info) {
    && 0 <= i < |phases| == |images| && Recorded(phases[i]) && phases[i].outcome.InRegistry?
    && x == Info(images[i].overridden.reference, images[i].original.reference, phases[i].outcome.size)
  }

  /** The lists hold exactly the entries of the workers that have recorded theirs, by outcome. */
  ghost predicate Filed(images: seq<WithOverride>, phases: seq<Phase>, l: Lists) {
    && (forall w :: w in l.fallback <==> exists i :: FiledForDaemon(images, phases, i, w))
    && (forall x :: x in l.infos <==> exists i :: FiledAsInfo(images, phases, i, x))
  }

  /** A worker that neither records now nor had recorded can change its phase freely. */
  lemma FiledUnchanged(images: seq<WithOverride>, phases: seq<Phase>, i: nat, p: Phase, l: Lists)
    requires Filed(images, phases, l) && i < |phases| == |images|
    requires Recorded(p) == Recorded(phases[i]) && (Recorded(p) ==> p.outcome == phases[i].outcome)
    ensures Filed(images, phases[i := p], l)
  {
    var after := phases[i := p];
    assert forall j, w :: FiledForDaemon(images, after, j, w) <==> FiledForDaemon(images, phases, j, w);
    assert forall j, x :: FiledAsInfo(images, after, j, x) <==> FiledAsInfo(images, phases, j, x);
  }

  lemma FiledOneMore(images: seq<WithOverride>, phases: seq<Phase>, i: nat, o: Outcome, l: Lists)
    requires Filed(images, phases, l) && i < |phases| == |images| && !Recorded(phases[i])
    ensures Filed(images, phases[i := Stored(o)], Appended(l, images[i], o))
  {
    var after, m := phases[i := Stored(o)], Appended(l, images[i], o);
    forall w ensures w in m.fallback <==> exists j :: FiledForDaemon(images, after, j, w) {
      assert FiledForDaemon(images, after, i, w) <==> o.TryDaemon? && images[i] == w;
      assert forall j :: j != i ==> (FiledForDaemon(images, after, j, w) <==> FiledForDaemon(images, phases, j, w));
    }
    forall x ensures x in m.infos <==> exists j :: FiledAsInfo(images, after, j, x) {
      assert FiledAsInfo(images, after, i, x) <==> o.InRegistry? && x == InfoOf(images[i], o.size);
      assert forall j :: j != i ==> (FiledAsInfo(images, after, j, x) <==> FiledAsInfo(images, phases, j, x));
    }
  }

  lemma StepKeepsFiled(images: seq<WithOverride>, s: State, a: Action)
    requires Inv(images, s) && Filed(images, s.phases, s.lists) && Enabled(s, a)
    ensures var t := Next(images, s, a); Filed(images, t.phases, t.lists)
  {
    var i := a.worker;
    if a.step.Store? {
      FiledOneMore(images, s.phases, i, s.phases[i].outcome, s.lists);
    } else {
      FiledUnchanged(images, s.phases, i, Next(images, s, a).phases[i], s.lists);
    }
  }

  // What every interleaving achieves.

  /** No interleaving blocks: until every worker has ended some worker can go on. */
  lemma NoDeadlock(images: seq<WithOverride>, actions: seq<Action>, s: State)
    requires Reaches(images, actions, s) && !Settled(s)
    ensures exists a :: Enabled(s, a)
  {
    RunKeepsInv(images, actions, s);
    var i :| 0 <= i < |s.phases| && !s.phases[i].Done? && !s.phases[i].Failed?;
    var k: nat := if s.holder.Some? then s.holder.value else i;
    var a := match s.phases[k]
      case Fetching => Action(k, Fail)
      case Fetched(_) => Action(k, Lock)
      case Holding(_) => Action(k, Load)
      case Loaded(_, _) => Action(k, Store)
      case _ => Action(k, Unlock);
    assert Enabled(s, a);
  }

  lemma {:induction false} AllEntries(images: seq<WithOverride>, phases: seq<Phase>, x: Image)
    requires |images| == |phases| && forall i :: 0 <= i < |phases| ==> Recorded(phases[i])
    ensures Entries(images, phases, x) == multiset(Originals(images))[x]
    decreases |images|
  {
    if images != [] {
      var n := |images| - 1;
      AllEntries(images[..n], phases[..n], x);
      assert Originals(images) == Originals(images[..n]) + [images[n].original];
    }
  }

  predicate Distinct(s: seq<Image>) { forall i, j :: 0 <= i < j < |s| ==> s[i] != s[j] }

  lemma {:induction false} DistinctCountsOnce(s: seq<Image>, x: Image)
    requires Distinct(s)
    ensures multiset(s)[x] == if x in s then 1 else 0
    decreases |s|
  {
    if s != [] {
      assert s == [s[0]] + s[1..];
      assert s[0] !in s[1..];
      DistinctCountsOnce(s[1..], x);
    }
  }

  /** Every image is reported once, and is on exactly one of the two lists. */
  lemma EachImageOnce(images: seq<WithOverride>, actions: seq<Action>, s: State, x: Image)
    requires Distinct(Originals(images)) && Reaches(images, actions, s) && Succeeded(s)
    ensures multiset(Reported(s.lists))[x] == if x in Originals(images) then 1 else 0
    ensures x in Originals(images) <==> (x in s.lists.pulled) != (x in Originals(s.lists.fallback))
    ensures !(x in s.lists.pulled && x in Originals(s.lists.fallback))
  {
    RunKeepsInv(images, actions, s);
    assert Balanced(images, s.phases, s.lists, x);
    AllEntries(images, s.phases, x);
    DistinctCountsOnce(Originals(images), x);
    var l := s.lists;
    assert multiset(Reported(l))[x] == multiset(l.pulled)[x] + multiset(Originals(l.fallback))[x];
    assert x in l.pulled <==> multiset(l.pulled)[x] > 0;
    assert x in Originals(l.fallback) <==> multiset(Originals(l.fallback))[x] > 0;
  }

  // Before and after the concurrent pass.

  method Unique(list: seq<Image>) returns (r: seq<Image>)
    ensures Distinct(r) && forall x :: x in r <==> x in list
  {
    r := [];
    for i := 0 to |list|
      invariant Distinct(r) && forall x :: x in r <==> x in list[..i]
    {
      assert list[..i + 1] == list[..i] + [list[i]];
      if list[i] !in r {
        r := r + [list[i]];
      }
    }
    assert list[..|list|] == list;
  }

  /**
   * What is done once all workers have ended: the daemon's images are fetched in turn, then the
   * registry's are saved. Success returns every image once.
   */
  method Finish(images: seq<WithOverride>, ghost actions: seq<Action>, s: State, daemonHas: WithOverride -> bool,
      saved: Info -> bool)
    returns (r: Result<seq<Image>>)
    requires Distinct(Originals(images)) && Reaches(images, actions, s) && Settled(s)
    ensures r.Ok? <==> (&& Succeeded(s) && (forall w :: w in s.lists.fallback ==> daemonHas(w))
                        && (forall x :: x in s.lists.infos ==> saved(x)))
    ensures r.Ok? ==> forall x :: multiset(r.value)[x] == if x in Originals(images) then 1 else 0
  {
    if !Succeeded(s) {
      return Err;
    }
    var pulled := s.lists.pulled;
    var daemon := s.lists.fallback;
    for k := 0 to |daemon|
      invariant pulled == s.lists.pulled + Originals(daemon[..k])
      invariant forall j :: 0 <= j < k ==> daemonHas(daemon[j])
    {
      if !daemonHas(daemon[k]) {
        return Err;
      }
      assert Originals(daemon[..k + 1]) == Originals(daemon[..k]) + [daemon[k].original];
      pulled := pulled + [daemon[k].original];
    }
    assert daemon[..|daemon|] == daemon;
    for k := 0 to |s.lists.infos|
      invariant forall j :: 0 <= j < k ==> saved(s.lists.infos[j])
    {
      if !saved(s.lists.infos[k]) {
        return Err;
      }
    }
    forall x ensures multiset(pulled)[x] == if x in Originals(images) then 1 else 0 {
      EachImageOnce(images, actions, s, x);
    }
    return Ok(pulled);
  }

  // The whole pull.

  /** The worker has not ended and is not waiting for the lock. */
  predicate CanStep(s: State, i: nat) {
    i < |s.phases| && !s.phases[i].Done? && !s.phases[i].Failed? && (s.phases[i].Fetched? ==> s.holder.None?)
  }

  /** The step that a worker takes next, given what its look at the registry comes to. */
  function NextStep(p: Phase, answer: Option<Outcome>): Step {
    match p
    case Fetching => if answer.Some? then Fetch(answer.value) else Fail
    case Fetched(_) => Lock
    case Holding(_) => Load
    case Loaded(_, _) => Store
    case _ => Unlock
  }

  lemma SomeoneCanStep(images: seq<WithOverride>, s: State)
    requires Inv(images, s) && !Settled(s)
    ensures exists i :: 0 <= i < |s.phases| && CanStep(s, i)
  {
    var i :| 0 <= i < |s.phases| && !s.phases[i].Done? && !s.phases[i].Failed?;
    var k: nat := if s.holder.Some? then s.holder.value else i;
    assert CanStep(s, k);
  }

  function StepsLeft(p: Phase): nat {
    match p
    case Fetching => 5
    case Fetched(_) => 4
    case Holding(_) => 3
    case Loaded(_, _) => 2
    case Stored(_) => 1
    case _ => 0
  }

  function AllStepsLeft(phases: seq<Phase>): nat {
    if phases == [] then 0 else AllStepsLeft(phases[..|phases| - 1]) + StepsLeft(phases[|phases| - 1])
  }

  lemma {:induction false} FewerSteps(phases: seq<Phase>, i: nat, p: Phase)
    requires i < |phases|
    ensures AllStepsLeft(phases[i := p]) - AllStepsLeft(phases) == StepsLeft(p) - StepsLeft(phases[i])
    decreases |phases|
  {
    var n, after := |phases| - 1, phases[i := p];
    if i < n {
      assert after[..n] == phases[..n][i := p];
      FewerSteps(phases[..n], i, p);
    } else {
      assert after[..n] == phases[..n];
    }
  }

  lemma ReachesOn(images: seq<WithOverride>, actions: seq<Action>, s: State, a: Action)
    requires Reaches(images, actions, s) && |s.phases| == |images| && Enabled(s, a)
    ensures Reaches(images, actions + [a], Next(images, s, a))
  {
    assert (actions + [a])[..|actions|] == actions;
  }

  /** The phases agree with the answers: a worker has failed only if its look at the registry did. */
  ghost predicate AnsweredBy(phases: seq<Phase>, answer: nat -> Option<Outcome>) {
    forall i :: 0 <= i < |phases| ==>
      && (phases[i].Failed? ==> answer(i).None?)
      && (!phases[i].Failed? && !phases[i].Fetching? ==> answer(i) == Some(phases[i].outcome))
  }

  lemma StepIsFine(images: seq<WithOverride>, s: State, i: nat, answer: nat -> Option<Outcome>)
    requires |s.phases| == |images| && CanStep(s, i) && AnsweredBy(s.phases, answer)
    ensures var a := Action(i, NextStep(s.phases[i], answer(i)));
      && Enabled(s, a)
      && AnsweredBy(Next(images, s, a).phases, answer)
      && AllStepsLeft(Next(images, s, a).phases) < AllStepsLeft(s.phases)
  {
    var a := Action(i, NextStep(s.phases[i], answer(i)));
    FewerSteps(s.phases, i, Next(images, s, a).phases[i]);
  }

  /** The workers take turns in any order, and always come to an end. */
  method RunWorkers(images: seq<WithOverride>, answer: nat -> Option<Outcome>)
    returns (s: State, ghost actions: seq<Action>)
    ensures Reaches(images, actions, s) && Settled(s)
    ensures Succeeded(s) <==> forall i :: 0 <= i < |images| ==> answer(i).Some?
    ensures |s.phases| == |images| && AnsweredBy(s.phases, answer) && Filed(images, s.phases, s.lists)
  {
    s, actions := Start(images), [];
    RunKeepsInv(images, actions, s);
    while !Settled(s)
      invariant Reaches(images, actions, s) && Inv(images, s) && AnsweredBy(s.phases, answer)
      invariant Filed(images, s.phases, s.lists)
      decreases AllStepsLeft(s.phases)
    {
      SomeoneCanStep(images, s);
      var i :| 0 <= i < |s.phases| && CanStep(s, i);
      var a := Action(i, NextStep(s.phases[i], answer(i)));
      StepIsFine(images, s, i, answer);
      ReachesOn(images, actions, s, a);
      StepKeepsInv(images, s, a);
      StepKeepsFiled(images, s, a);
      s, actions := Next(images, s, a), actions + [a];
    }
  }

  /**
   * The first matching override, in a descending list the one with the longest source, rewrites the
   * reference; nothing else of the image changes.
   */
  ghost predicate Redirected(w: WithOverride, vs: seq<Overrides.Override>) {
    && Overrides.ByFirst(w.original.reference, vs, w.overridden.reference)
    && (Overrides.Descending(vs) ==> Overrides.ByLongest(w.original.reference, vs, w.overridden.reference))
    && w.overridden.name == w.original.name && w.overridden.digest == w.original.digest
  }

  method ApplyOverrides(list: seq<Image>, vs: seq<Overrides.Override>) returns (images: seq<WithOverride>)
    ensures Originals(images) == list && forall w :: w in images ==> Redirected(w, vs)
  {
    var refs := seq(|list|, i requires 0 <= i < |list| => list[i].reference);
    var pairs := Overrides.ApplyOverrides(refs, vs);
    images := seq(|list|, i requires 0 <= i < |list| => WithOverride(list[i], list[i].(reference := pairs[i].1)));
  }

  /** The image was found in the registry and saved, or was left to the daemon, which has it. */
  predicate Obtained(w: WithOverride, answer: Option<Outcome>, daemonHas: WithOverride -> bool, saved: Info -> bool) {
    match answer
    case None => false
    case Some(TryDaemon) => daemonHas(w)
    case Some(InRegistry(size)) => saved(Info(w.overridden.reference, w.original.reference, size))
  }

  /** Daemon and saves go through for all list entries exactly when they do for all images. */
  lemma ObtainedIff(images: seq<WithOverride>, s: State, answer: nat -> Option<Outcome>,
                    daemonHas: WithOverride -> bool, saved: Info -> bool)
    requires |s.phases| == |images| && AnsweredBy(s.phases, answer) && Filed(images, s.phases, s.lists) && Succeeded(s)
    ensures (forall w :: w in s.lists.fallback ==> daemonHas(w)) && (forall x :: x in s.lists.infos ==> saved(x))
       <==> forall i :: 0 <= i < |images| ==> Obtained(images[i], answer(i), daemonHas, saved)
  {
    forall i | 0 <= i < |images|
      ensures match answer(i) {
          case None => false
          case Some(TryDaemon) => images[i] in s.lists.fallback
          case Some(InRegistry(size)) => InfoOf(images[i], size) in s.lists.infos
        }
    {
      if s.phases[i].outcome.TryDaemon? {
        assert FiledForDaemon(images, s.phases, i, images[i]);
      } else {
        assert FiledAsInfo(images, s.phases, i, InfoOf(images[i], s.phases[i].outcome.size));
      }
    }
  }

  /**
   * A pull of any list of images, under any interleaving of its workers: it succeeds exactly for a list
   * that is not empty and of which every image is obtained, and then returns each image of the list
   * exactly once, under its original reference.
   */
  method PullImages(list: seq<Image>, vs: seq<Overrides.Override>, answer: nat -> Option<Outcome>,
                    daemonHas: WithOverride -> bool, saved: Info -> bool)
    returns (r: Result<seq<Image>>, ghost images: seq<WithOverride>)
    ensures Distinct(Originals(images)) && forall x :: x in Originals(images) <==> x in list
    ensures forall w :: w in images ==> Redirected(w, vs)
    ensures r.Ok? <==> list != [] && forall i :: 0 <= i < |images| ==> Obtained(images[i], answer(i), daemonHas, saved)
    ensures r.Ok? ==> forall x :: multiset(r.value)[x] == if x in list then 1 else 0
  {
    if |list| == 0 {
      return Err, [];
    }
    var unique := Unique(list);
    var work := ApplyOverrides(unique, vs);
    images := work;
    var s;
    ghost var actions;
    s, actions := RunWorkers(work, answer);
    r := Finish(work, actions, s, daemonHas, saved);
    if Succeeded(s) {
      ObtainedIff(work, s, answer, daemonHas, saved);
    }
  }
}

/** Choosing a node and an image already present on it to run the injector from. */
module Injector {
  import opened Outcomes
  import opened Lex

  datatype Effect = NoSchedule | PreferNoSchedule | NoExecute
  datatype Phase = Pending | Running | Succeeded | Failed | Unknown

  /** Amounts of CPU and memory, each in its own smallest unit; what is left may be negative. */
  datatype Resources = Resources(cpu: int, memory: int) {
    function Minus(o: Resources): Resources { Resources(cpu - o.cpu, memory - o.memory) }
    predicate Covers(need: Resources) { need.cpu <= cpu && need.memory <= memory }
  }

  datatype Pod = Pod(
    node: string,
    phase: Phase,
    requests: Resources,
    pullSecrets: seq<string>,
    containers: seq<string>,
    initContainers: seq<string>,
    ephemeralContainers: seq<string>)

  datatype Node = Node(name: string, taints: seq<Effect>, architecture: string, allocatable: Resources)

  datatype Choice = Choice(image: string, node: string)

  /** Some line of the image name starts with the address of Zarf's own registry. */
  predicate IsZarfImage(image: string) {
    exists i :: 0 <= i < |image| && (i == 0 || image[i - 1] == '\n')
      && (At(image, "127.0.0.1:", i) || At(image, "[::1]:", i))
  }

  predicate Usable(image: string) { image != "" && !IsZarfImage(image) }

  /** Some line of the text starts with the mark. */
  ghost predicate StartsALine(text: string, mark: string) {
    exists before, rest :: text == before + mark + rest && (before == "" || before[|before| - 1] == '\n')
  }

  ghost predicate IsForeign(image: string) {
    image != "" && !StartsALine(image, "127.0.0.1:") && !StartsALine(image, "[::1]:")
  }

  ghost predicate LineAt(text: string, mark: string, i: int) {
    At(text, mark, i) && (i == 0 || text[i - 1] == '\n')
  }

  lemma StartsALineAt(text: string, mark: string)
    requires mark != ""
    ensures StartsALine(text, mark) <==> exists i :: LineAt(text, mark, i)
  {
    if before, rest :| text == before + mark + rest && (before == "" || before[|before| - 1] == '\n') {
      assert before != "" ==> text[|before| - 1] == before[|before| - 1];
      assert LineAt(text, mark, |before|);
    }
    if i :| LineAt(text, mark, i) {
      var before, rest := text[..i], text[i + |mark|..];
      assert text == before + mark + rest;
    }
  }

  lemma UsableIff(image: string)
    ensures Usable(image) <==> IsForeign(image)
  {
    var v4, v6 := "127.0.0.1:", "[::1]:";
    StartsALineAt(image, v4);
    StartsALineAt(image, v6);
    assert IsZarfImage(image) <==> exists i :: LineAt(image, v4, i) || LineAt(image, v6, i) by {
      forall i | LineAt(image, v4, i) || LineAt(image, v6, i) ensures IsZarfImage(image) {
        assert 0 <= i < |image|;
      }
      forall i | At(image, v4, i) || At(image, v6, i)
        ensures i == 0 || image[i - 1] == '\n' ==> LineAt(image, v4, i) || LineAt(image, v6, i)
      {
      }
    }
  }

  predicate Alive(p: Pod) { p.node != "" && !p.phase.Succeeded? && !p.phase.Failed? }

  /** The pods that occupy a node, in listing order. */
  function Hosted(pods: seq<Pod>, node: string): seq<Pod> {
    if pods == [] then [] else
      var rest := Hosted(pods[..|pods| - 1], node);
      var last := pods[|pods| - 1];
      if Alive(last) && last.node == node then rest + [last] else rest
  }

  function Requested(pods: seq<Pod>): Resources {
    if pods == [] then Resources(0, 0) else
      var rest := Requested(pods[..|pods| - 1]);
      var last := pods[|pods| - 1].requests;
      Resources(rest.cpu + last.cpu, rest.memory + last.memory)
  }

  function PodImages(p: Pod): seq<string> {
    p.containers + p.initContainers + p.ephemeralContainers
  }

  /** All images of the pods in order; with `open` only of the pods that need no pull secret. */
  function Images(pods: seq<Pod>, open: bool): seq<string> {
    if pods == [] then [] else
      var p := pods[|pods| - 1];
      Images(pods[..|pods| - 1], open) + (if open && p.pullSecrets != [] then [] else PodImages(p))
  }

  lemma {:induction false} HostedAre(pods: seq<Pod>, node: string, p: Pod)
    ensures p in Hosted(pods, node) <==>
              p in pods && p.node == node != "" && p.phase in {Pending, Running, Unknown}
    decreases |pods|
  {
    if pods != [] {
      assert pods == pods[..|pods| - 1] + [pods[|pods| - 1]];
      HostedAre(pods[..|pods| - 1], node, p);
    }
  }

  lemma {:induction false} ImagesAre(pods: seq<Pod>, open: bool, x: string)
    ensures x in Images(pods, open) <==> exists p :: p in pods && (open ==> p.pullSecrets == []) && x in PodImages(p)
    decreases |pods|
  {
    if pods != [] {
      assert pods == pods[..|pods| - 1] + [pods[|pods| - 1]];
      ImagesAre(pods[..|pods| - 1], open, x);
    }
  }

  /** A candidate that is found stays; otherwise the earliest usable image, or "" if there is none. */
  function Pick(found: string, images: seq<string>): string {
    if images == [] then found else
      var n := |images| - 1;
      var r := Pick(found, images[..n]);
      if r != "" then r else if Usable(images[n]) then images[n] else ""
  }

  lemma {:induction false} PickIsFirst(images: seq<string>) returns (k: nat)
    ensures k <= |images| && forall j :: 0 <= j < k ==> !IsForeign(images[j])
    ensures Pick("", images) == if k == |images| then "" else images[k]
    ensures k < |images| ==> IsForeign(images[k])
    decreases |images|
  {
    k := 0;
    if images != [] {
      var n := |images| - 1;
      k := PickIsFirst(images[..n]);
      assert images == images[..n] + [images[n]];
      UsableIff(images[n]);
      if k == n && !Usable(images[n]) {
        k := k + 1;
      }
    }
  }

  /** Looking through two lists in a row is looking through their concatenation. */
  lemma {:induction false} PickInTurn(found: string, a: seq<string>, b: seq<string>)
    ensures Pick(found, a + b) == Pick(Pick(found, a), b)
    decreases |b|
  {
    if b == [] {
      assert a + b == a;
    } else {
      var n := |b| - 1;
      assert (a + b)[..|a| + n] == a + b[..n];
      PickInTurn(found, a, b[..n]);
    }
  }

  predicate Blocked(taints: seq<Effect>) { NoSchedule in taints || NoExecute in taints }

  /** Untainted, of the right or of no stated architecture, and with enough left over. */
  predicate Eligible(n: Node, pods: seq<Pod>, need: Resources, architecture: string) {
    && !Blocked(n.taints)
    && n.architecture in {"", architecture}
    && n.allocatable.Minus(Requested(Hosted(pods, n.name))).Covers(need)
  }

  /** Every taint is a mere preference, the architecture fits, and requests and need are within what is allocatable. */
  ghost predicate Fits(n: Node, pods: seq<Pod>, need: Resources, architecture: string) {
    && (forall i :: 0 <= i < |n.taints| ==> n.taints[i] == PreferNoSchedule)
    && (n.architecture == "" || n.architecture == architecture)
    && var asked := Requested(Hosted(pods, n.name));
    && asked.cpu + need.cpu <= n.allocatable.cpu && asked.memory + need.memory <= n.allocatable.memory
  }

  lemma EligibleIff(n: Node, pods: seq<Pod>, need: Resources, architecture: string)
    ensures Eligible(n, pods, need, architecture) <==> Fits(n, pods, need, architecture)
  {
    assert forall i :: 0 <= i < |n.taints| ==> n.taints[i] in n.taints;
  }

  /** What a node has to offer: its first usable image if the node is eligible, otherwise "". */
  function Offer(n: Node, pods: seq<Pod>, need: Resources, architecture: string, open: bool): string {
    if Eligible(n, pods, need, architecture) then Pick("", Images(Hosted(pods, n.name), open)) else ""
  }

  /** One pass over the nodes. */
  function FirstOffer(nodes: seq<Node>, pods: seq<Pod>, need: Resources, architecture: string, open: bool)
    : Result<Choice>
  {
    if nodes == [] then Err else
      var n := |nodes| - 1;
      var r := FirstOffer(nodes[..n], pods, need, architecture, open);
      var image := Offer(nodes[n], pods, need, architecture, open);
      if r.Ok? then r else if image == "" then Err else Ok(Choice(image, nodes[n].name))
  }

  /** The pass stops at the first node with an offer, and fails exactly when no node has one. */
  lemma {:induction false} FirstOfferIsFirst(nodes: seq<Node>, pods: seq<Pod>, need: Resources, architecture: string,
      open: bool)
    returns (k: nat)
    ensures k <= |nodes| && forall j :: 0 <= j < k ==> Offer(nodes[j], pods, need, architecture, open) == ""
    ensures k < |nodes| ==> Offer(nodes[k], pods, need, architecture, open) != ""
    ensures FirstOffer(nodes, pods, need, architecture, open)
         == if k == |nodes| then Err else Ok(Choice(Offer(nodes[k], pods, need, architecture, open), nodes[k].name))
    decreases |nodes|
  {
    k := 0;
    if nodes != [] {
      var n := |nodes| - 1;
      k := FirstOfferIsFirst(nodes[..n], pods, need, architecture, open);
      assert nodes == nodes[..n] + [nodes[n]];
      if k == n && Offer(nodes[n], pods, need, architecture, open) == "" {
        k := k + 1;
      }
    }
  }

  /** Two passes: images that need no pull secret on any node come before all others. */
  function TwoPasses(nodes: seq<Node>, pods: seq<Pod>, need: Resources, architecture: string): Result<Choice> {
    var open := FirstOffer(nodes, pods, need, architecture, true);
    if open.Ok? then open else FirstOffer(nodes, pods, need, architecture, false)
  }

  method GroupByNode(pods: seq<Pod>) returns (r: map<string, seq<Pod>>)
    ensures forall n :: (if n in r then r[n] else []) == Hosted(pods, n)
  {
    r := map[];
    for i := 0 to |pods|
      invariant forall n :: (if n in r then r[n] else []) == Hosted(pods[..i], n)
    {
      assert pods[..i + 1][..i] == pods[..i];
      var p := pods[i];
      if p.node == "" || p.phase == Succeeded || p.phase == Failed {
        continue;
      }
      r := r[p.node := (if p.node in r then r[p.node] else []) + [p]];
    }
    assert pods[..|pods|] == pods;
  }

  method HasBlockingTaints(taints: seq<Effect>) returns (r: bool)
    ensures r == Blocked(taints)
  {
    for i := 0 to |taints|
      invariant !Blocked(taints[..i])
    {
      if taints[i] == NoSchedule || taints[i] == NoExecute {
        return true;
      }
    }
    assert taints[..|taints|] == taints;
    return false;
  }

  /** One group of a pod's containers: fill whichever candidate is still missing. */
  method Collect(images: seq<string>, noCreds: bool, c: string, f: string) returns (candidate: string, fallback: string)
    ensures candidate == if noCreds then Pick(c, images) else c
    ensures fallback == Pick(f, images)
  {
    candidate, fallback := c, f;
    for i := 0 to |images|
      invariant candidate == if noCreds then Pick(c, images[..i]) else c
      invariant fallback == Pick(f, images[..i])
    {
      assert images[..i + 1][..i] == images[..i];
      if IsZarfImage(images[i]) {
        continue;
      }
      if fallback == "" {
        fallback := images[i];
      }
      if noCreds && candidate == "" {
        candidate := images[i];
      }
    }
    assert images[..|images|] == images;
  }

  /** One pod: its containers, then its init containers, then its ephemeral ones. */
  method CollectPod(p: Pod, c: string, f: string) returns (candidate: string, fallback: string)
    ensures candidate == if p.pullSecrets == [] then Pick(c, PodImages(p)) else c
    ensures fallback == Pick(f, PodImages(p))
  {
    var noCreds := |p.pullSecrets| == 0;
    candidate, fallback := Collect(p.containers, noCreds, c, f);
    candidate, fallback := Collect(p.initContainers, noCreds, candidate, fallback);
    candidate, fallback := Collect(p.ephemeralContainers, noCreds, candidate, fallback);
    forall x
      ensures Pick(x, PodImages(p)) == Pick(Pick(Pick(x, p.containers), p.initContainers), p.ephemeralContainers)
    {
      PickInTurn(x, p.containers + p.initContainers, p.ephemeralContainers);
      PickInTurn(x, p.containers, p.initContainers);
    }
  }

  lemma OneMorePod(pods: seq<Pod>, i: nat, open: bool)
    requires i < |pods|
    ensures Requested(pods[..i]) == Requested(pods[..i + 1]).Minus(pods[i].requests)
    ensures Pick("", Images(pods[..i + 1], open))
         == var before := Pick("", Images(pods[..i], open));
            if open && pods[i].pullSecrets != [] then before else Pick(before, PodImages(pods[i]))
  {
    assert pods[..i + 1][..i] == pods[..i];
    var before := Images(pods[..i], open);
    assert before + [] == before;
    PickInTurn("", before, PodImages(pods[i]));
  }

  /** One node's pods: subtract what they ask for and gather the two candidate images. */
  method Survey(pods: seq<Pod>, allocatable: Resources)
    returns (available: Resources, candidate: string, fallback: string)
    ensures available == allocatable.Minus(Requested(pods))
    ensures candidate == Pick("", Images(pods, true)) && fallback == Pick("", Images(pods, false))
  {
    available, candidate, fallback := allocatable, "", "";
    for i := 0 to |pods|
      invariant available == allocatable.Minus(Requested(pods[..i]))
      invariant candidate == Pick("", Images(pods[..i], true)) && fallback == Pick("", Images(pods[..i], false))
    {
      OneMorePod(pods, i, true);
      OneMorePod(pods, i, false);
      var r := pods[i].requests;
      available := Resources(available.cpu - r.cpu, available.memory - r.memory);
      candidate, fallback := CollectPod(pods[i], candidate, fallback);
    }
    assert pods[..|pods|] == pods;
  }

  /** A node that is skipped offers nothing. */
  method Inspect(n: Node, hosted: seq<Pod>, ghost pods: seq<Pod>, need: Resources, architecture: string)
    returns (open: string, any: string)
    requires hosted == Hosted(pods, n.name)
    ensures open == Offer(n, pods, need, architecture, true) && any == Offer(n, pods, need, architecture, false)
  {
    var blocked := HasBlockingTaints(n.taints);
    if blocked || (n.architecture != "" && n.architecture != architecture) {
      return "", "";
    }
    var available, candidate, fallback := Survey(hosted, n.allocatable);
    if available.cpu < need.cpu || available.memory < need.memory {
      return "", "";
    }
    return candidate, fallback;
  }

  /** The single pass that remembers one fallback finds what two passes would find. */
  method GetInjectorImageAndNode(nodes: seq<Node>, pods: seq<Pod>, need: Resources, architecture: string)
    returns (r: Result<Choice>)
    ensures r == TwoPasses(nodes, pods, need, architecture)
  {
    var podsByNode := GroupByNode(pods);
    var fallback: Option<Choice> := None;
    for i := 0 to |nodes|
      invariant FirstOffer(nodes[..i], pods, need, architecture, true).Err?
      invariant FirstOffer(nodes[..i], pods, need, architecture, false)
             == if fallback.None? then Err else Ok(fallback.value)
    {
      var n := nodes[i];
      OneMoreNode(nodes, i, pods, need, architecture, true);
      OneMoreNode(nodes, i, pods, need, architecture, false);
      var open, any := Inspect(n, if n.name in podsByNode then podsByNode[n.name] else [], pods, need, architecture);
      if open != "" {
        LaterNodesDoNotMatter(nodes, i + 1, pods, need, architecture, true);
        return Ok(Choice(open, n.name));
      }
      if any != "" && fallback == None {
        fallback := Some(Choice(any, n.name));
      }
    }
    assert nodes[..|nodes|] == nodes;
    return if fallback.Some? then Ok(fallback.value) else Err;
  }

  lemma OneMoreNode(nodes: seq<Node>, i: nat, pods: seq<Pod>, need: Resources, architecture: string, open: bool)
    requires i < |nodes|
    ensures FirstOffer(nodes[..i + 1], pods, need, architecture, open)
         == var before := FirstOffer(nodes[..i], pods, need, architecture, open);
            var image := Offer(nodes[i], pods, need, architecture, open);
            if before.Ok? then before else if image == "" then Err else Ok(Choice(image, nodes[i].name))
  {
    assert nodes[..i + 1][..i] == nodes[..i];
  }

  /** Once a node has made an offer the nodes after it do not matter. */
  lemma {:induction false} LaterNodesDoNotMatter(nodes: seq<Node>, i: nat, pods: seq<Pod>, need: Resources,
      architecture: string, open: bool)
    requires i <= |nodes| && FirstOffer(nodes[..i], pods, need, architecture, open).Ok?
    ensures FirstOffer(nodes, pods, need, architecture, open) == FirstOffer(nodes[..i], pods, need, architecture, open)
    decreases |nodes|
  {
    if i == |nodes| {
      assert nodes[..i] == nodes;
    } else {
      assert nodes[..|nodes| - 1][..i] == nodes[..i];
      LaterNodesDoNotMatter(nodes[..|nodes| - 1], i, pods, need, architecture, open);
    }
  }

  predicate RunsIn(p: Pod, n: Node, open: bool, image: string) {
    && p.node == n.name != "" && p.phase in {Pending, Running, Unknown}
    && (open ==> p.pullSecrets == []) && image in PodImages(p)
  }

  /** A live pod on the node runs the usable image; with `open`, a pod without pull secrets. */
  ghost predicate Runs(n: Node, pods: seq<Pod>, open: bool, image: string) {
    IsForeign(image) && exists p :: p in pods && RunsIn(p, n, open, image)
  }

  lemma OfferIff(n: Node, pods: seq<Pod>, need: Resources, architecture: string, open: bool)
    ensures var r := Offer(n, pods, need, architecture, open);
      if r == "" then Fits(n, pods, need, architecture) ==> forall x :: !Runs(n, pods, open, x)
      else Fits(n, pods, need, architecture) && Runs(n, pods, open, r)
  {
    EligibleIff(n, pods, need, architecture);
    var here := Hosted(pods, n.name);
    var k := PickIsFirst(Images(here, open));
    forall x ensures x in Images(here, open) && IsForeign(x) <==> Runs(n, pods, open, x) {
      ImagesAre(here, open, x);
      forall p
        ensures p in here <==> p in pods && p.node == n.name != "" && p.phase in {Pending, Running, Unknown}
      {
        HostedAre(pods, n.name, p);
      }
    }
  }

  /**
   * The search fails exactly when no eligible node runs a usable image. Otherwise the chosen image runs
   * on the chosen, eligible node, and in a pod without pull secrets if any eligible node has such a pod.
   */
  lemma SearchResult(nodes: seq<Node>, pods: seq<Pod>, need: Resources, architecture: string)
    returns (chosen: Option<Node>)
    ensures chosen.Some? == TwoPasses(nodes, pods, need, architecture).Ok?
    ensures chosen.None? ==>
              forall n, x :: n in nodes && Fits(n, pods, need, architecture) ==> !Runs(n, pods, false, x)
    ensures chosen.Some? ==> var r := TwoPasses(nodes, pods, need, architecture).value; var n := chosen.value;
      && n in nodes && n.name == r.node && Fits(n, pods, need, architecture)
      && Runs(n, pods, false, r.image)
      && (Runs(n, pods, true, r.image)
          || forall m, x :: m in nodes && Fits(m, pods, need, architecture) ==> !Runs(m, pods, true, x))
  {
    forall n, open: bool ensures var r := Offer(n, pods, need, architecture, open);
      if r == "" then Fits(n, pods, need, architecture) ==> forall x :: !Runs(n, pods, open, x)
      else Fits(n, pods, need, architecture) && Runs(n, pods, open, r)
    {
      OfferIff(n, pods, need, architecture, open);
    }
    var k := FirstOfferIsFirst(nodes, pods, need, architecture, true);
    if k == |nodes| {
      k := FirstOfferIsFirst(nodes, pods, need, architecture, false);
    }
    chosen := if k < |nodes| then Some(nodes[k]) else None;
  }
}

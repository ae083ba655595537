/** The state that `zarf init` keeps in the cluster, over any sequence of first and repeated inits. */
module Init {
  import opened Outcomes

  datatype Family = IPv4 | IPv6 | Dual
  datatype Mode = NoMode | NodePort | Proxy | External
  datatype Mtls = NoStrategy | NotUsed | ZarfManaged

  /** An address is empty, a port on the local host, or anything else. */
  datatype Address = NoAddress | Local(v6: bool, port: int) | Remote(url: string)

  datatype Service = Registry | Git | Artifact | Agent

  datatype Credentials = Credentials(pushUser: string, pushPassword: string, pullUser: string, pullPassword: string)

  datatype RegistryInfo = RegistryInfo(
    credentials: Credentials,
    secret: string,
    address: Address,
    nodePort: int,
    port: int,
    mode: Mode,
    mtls: Mtls)
  {
    predicate IsConfigured() { address != NoAddress }
    predicate IsInternal() {
      if mode != NoMode then mode != External else address in {Local(false, port), Local(true, port)}
    }
  }

  datatype GitInfo = GitInfo(credentials: Credentials, address: string)
  datatype ArtifactInfo = ArtifactInfo(pushUser: string, pushToken: string, address: string)
  datatype Certificate = Certificate(cert: string, userProvided: bool)

  datatype State = State(
    appliance: bool,
    distro: string,
    storageClass: string,
    family: Option<Family>,
    agent: Certificate,
    mutationPolicy: string,
    injectorPort: int,
    git: GitInfo,
    registry: RegistryInfo,
    artifact: ArtifactInfo)

  datatype Options = Options(
    applianceMode: bool,
    git: GitInfo,
    registry: RegistryInfo,
    artifact: ArtifactInfo,
    storageClass: string,
    injectorPort: int,
    agentTls: Option<string>,
    mutationPolicy: string,
    internalServices: set<Service>)

  /** Passwords and secrets as the random source delivers them. */
  datatype Generated = Generated(push: Result<string>, pull: Result<string>, secret: Result<string>)

  /** Everything that comes from the cluster during one init. */
  datatype Env = Env(
    stateReadable: bool,
    namespaceApplied: bool,
    family: Result<Family>,
    distro: Result<string>,
    agentTls: Result<string>,
    namespacesIgnored: bool,
    accountFound: bool,
    git: Generated,
    registry: Generated,
    certsCreated: bool,
    save: Fate)

  const NODE_PORT := 31999
  const HOST_PORT := 5000
  const GIT_URL := "http://zarf-gitea-http.zarf.svc.cluster.local:3000"
  const ARTIFACT_URL := "http://zarf-gitea-http.zarf.svc.cluster.local:3000/api/packages/zarf-git-user"

  const NO_CREDENTIALS := Credentials("", "", "", "")
  const NO_REGISTRY := RegistryInfo(NO_CREDENTIALS, "", NoAddress, 0, 0, NoMode, NoStrategy)
  const EMPTY_STATE :=
    State(false, "", "", None, Certificate("", false), "", 0, GitInfo(NO_CREDENTIALS, ""), NO_REGISTRY,
          ArtifactInfo("", "", ""))

  function LocalAddress(f: Family, port: int): Address { Local(f == IPv6, port) }

  /** The port that goes with a mode, or 0. */
  function DefaultPort(m: Mode): int {
    if m == NodePort then NODE_PORT else if m == Proxy then HOST_PORT else 0
  }

  // Filling in defaults.

  function OrElse(given: string, fallback: string): string { if given != "" then given else fallback }

  function OrGenerated(given: string, g: Result<string>): Result<string> { if given != "" then Ok(given) else g }

  function FillCredentials(c: Credentials, internal: bool, pushUser: string, pullUser: string, g: Generated)
    : Result<Credentials>
  {
    var push := OrGenerated(c.pushPassword, g.push);
    var pull :=
      if internal then OrGenerated(c.pullPassword, g.pull)
      else if push.Err? then Err else Ok(OrElse(c.pullPassword, push.value));
    var user := OrElse(c.pushUser, if internal then pushUser else "");
    if push.Err? || pull.Err? then Err
    else Ok(Credentials(user, push.value, OrElse(c.pullUser, if internal then pullUser else user), pull.value))
  }

  function FillGit(i: GitInfo, g: Generated): Result<GitInfo> {
    var address := OrElse(i.address, GIT_URL);
    var c := FillCredentials(i.credentials, address == GIT_URL, "zarf-git-user", "zarf-git-read-user", g);
    if c.Err? then Err else Ok(GitInfo(c.value, address))
  }

  function FillRegistry(r: RegistryInfo, f: Family, g: Generated): Result<RegistryInfo> {
    var mode := if r.mode != NoMode then r.mode else if r.address == NoAddress then NodePort else External;
    var port := if r.port == 0 && r.address == NoAddress then DefaultPort(mode) else r.port;
    var address := if r.address == NoAddress then LocalAddress(f, port) else r.address;
    var c := FillCredentials(r.credentials, mode != External, "zarf-push", "zarf-pull", g);
    var secret := OrGenerated(r.secret, g.secret);
    if c.Err? || secret.Err? then Err
    else
      var mtls := if r.mtls == NoStrategy then NotUsed else r.mtls;
      Ok(RegistryInfo(c.value, secret.value, address, r.nodePort, port, mode, mtls))
  }

  function FillArtifact(a: ArtifactInfo): ArtifactInfo {
    ArtifactInfo(OrElse(a.pushUser, "zarf-git-user"), a.pushToken, OrElse(a.address, ARTIFACT_URL))
  }

  /** A given user, token and address stay; without them it is Zarf's own server and its push user. */
  predicate ArtifactFilled(a: ArtifactInfo, b: ArtifactInfo) {
    && b.pushToken == a.pushToken
    && (a.pushUser != "" ==> b.pushUser == a.pushUser) && (a.pushUser == "" ==> b.pushUser == "zarf-git-user")
    && (a.address != "" ==> b.address == a.address)
    && (a.address == "" ==>
          b.address == "http://zarf-gitea-http.zarf.svc.cluster.local:3000/api/packages/zarf-git-user")
  }

  /** Given values stay; an empty one becomes the default of an internal service, or copies the push user's. */
  predicate Filled(c: Credentials, d: Credentials, internal: bool, pushUser: string, pullUser: string, g: Generated) {
    && (c.pushUser != "" ==> d.pushUser == c.pushUser)
    && (c.pullUser != "" ==> d.pullUser == c.pullUser)
    && (c.pushPassword != "" ==> d.pushPassword == c.pushPassword)
    && (c.pullPassword != "" ==> d.pullPassword == c.pullPassword)
    && (c.pushPassword == "" ==> Ok(d.pushPassword) == g.push)
    && (c.pullPassword == "" ==> if internal then Ok(d.pullPassword) == g.pull else d.pullPassword == d.pushPassword)
    && (c.pullUser == "" && !internal ==> d.pullUser == d.pushUser)
    && (c.pushUser == "" ==> d.pushUser == if internal then pushUser else "")
    && (c.pullUser == "" && internal ==> d.pullUser == pullUser)
  }

  /** The registry is configured, given values stay, and empty ones get the documented defaults. */
  predicate RegistryFilled(r: RegistryInfo, t: RegistryInfo, f: Family, g: Generated) {
    && t.IsConfigured() && t.mode != NoMode && (t.mode == Proxy ==> r.mode == Proxy)
    && (r.IsConfigured() ==> t.address == r.address && t.port == r.port)
    && (r.mode != NoMode ==> t.mode == r.mode) && (r.port != 0 ==> t.port == r.port)
    && t.mtls == (if r.mtls != NoStrategy then r.mtls else NotUsed)
    && (if r.secret != "" then t.secret == r.secret else Ok(t.secret) == g.secret)
    && Filled(r.credentials, t.credentials, t.mode != External, "zarf-push", "zarf-pull", g)
    && (!r.IsConfigured() ==>
          && t.address == Local(f == IPv6, t.port)
          && (r.mode == NoMode ==> t.mode == NodePort)
          && (r.port == 0 ==> t.port == if t.mode == NodePort then 31999 else if t.mode == Proxy then 5000 else 0))
    && (r.IsConfigured() && r.mode == NoMode ==> t.mode == External)
  }

  /** Filling in defaults never replaces a given value, never picks the proxy, and leaves a configured registry. */
  lemma FillOnlyFills(r: RegistryInfo, f: Family, g: Generated)
    requires FillRegistry(r, f, g).Ok?
    ensures RegistryFilled(r, FillRegistry(r, f, g).value, f, g)
  {
  }

  // Reading and writing the state.

  /** The deprecated port field is kept equal to the port, and used where the port is unset. */
  function ReconcilePort(r: RegistryInfo): RegistryInfo {
    var port := if r.port == 0 && r.nodePort != 0 then r.nodePort else r.port;
    r.(port := port, nodePort := port)
  }

  /** A state without a mode is an old one; its address tells whether the registry is Zarf's own. */
  function Loaded(s: State): State {
    var r := ReconcilePort(s.registry);
    s.(registry := if r.mode != NoMode then r else r.(mode := if r.IsInternal() then NodePort else External))
  }

  /** What loading promises of the state it returns. */
  predicate Reconciled(s: State, t: State) {
    var r, u := s.registry, t.registry;
    && u.port == u.nodePort && u.mode != NoMode
    && (r.port != 0 ==> u.port == r.port) && (r.port == 0 ==> u.port == r.nodePort)
    && (r.mode != NoMode ==> u.mode == r.mode)
    && (r.mode == NoMode ==>
          u.mode == if r.address in {Local(false, u.port), Local(true, u.port)} then NodePort else External)
    && t == s.(registry := r.(port := u.port, nodePort := u.nodePort, mode := u.mode))
  }

  // One init as a function of the saved state.

  function InitAgent(s: State, opts: Options, env: Env): Result<State> {
    if !env.namespacesIgnored then Err
    else if opts.agentTls.Some? then Ok(s.(agent := Certificate(opts.agentTls.value, true)))
    else if env.agentTls.Err? then Err
    else Ok(s.(agent := Certificate(env.agentTls.value, false)))
  }

  predicate Selected(k: Service, configured: bool, opts: Options) { k in opts.internalServices || configured }

  /** What a new cluster starts from: its distribution and, if it is deployed, the agent's certificate. */
  function Blank(opts: Options, env: Env): Result<State> {
    var distro := if opts.applianceMode then Ok("k3s") else env.distro;
    if distro.Err? || !env.accountFound then Err else
    var s := EMPTY_STATE.(appliance := opts.applianceMode, distro := distro.value);
    if Agent in opts.internalServices then InitAgent(s, opts, env) else Ok(s)
  }

  function GitAsked(opts: Options, env: Env): Result<GitInfo> {
    if Selected(Git, opts.git.address != "", opts) then FillGit(opts.git, env.git) else Ok(EMPTY_STATE.git)
  }

  function RegistryAsked(opts: Options, f: Family, env: Env): Result<RegistryInfo> {
    if Selected(Registry, opts.registry.IsConfigured(), opts) then FillRegistry(opts.registry, f, env.registry)
    else Ok(NO_REGISTRY)
  }

  /** A new cluster: the services that Zarf deploys or that the options point to. Also returns the filled-in options. */
  function Fresh(opts: Options, f: Family, env: Env): Result<(State, RegistryInfo)> {
    var s := Blank(opts, env);
    var git := GitAsked(opts, env);
    var asked := Selected(Registry, opts.registry.IsConfigured(), opts);
    var registry := RegistryAsked(opts, f, env);
    var artifact :=
      if Selected(Artifact, opts.artifact.address != "", opts) then FillArtifact(opts.artifact)
      else EMPTY_STATE.artifact;
    if s.Err? || git.Err? || registry.Err? then Err
    else Ok((s.value.(git := git.value, registry := registry.value, artifact := artifact),
             if asked then registry.value else opts.registry))
  }

  /** A known cluster: only internal services that were never configured are filled in. */
  function Services(s: State, opts: Options, f: Family, env: Env): Result<State> {
    var git := if Git in opts.internalServices && s.git.address == "" then FillGit(s.git, env.git) else Ok(s.git);
    var artifact :=
      if Artifact in opts.internalServices && s.artifact.address == "" then FillArtifact(s.artifact) else s.artifact;
    var fill := Registry in opts.internalServices && !s.registry.IsConfigured();
    var registry := if fill then FillRegistry(s.registry, f, env.registry) else Ok(s.registry);
    if git.Err? || registry.Err? then Err
    else Ok(s.(git := git.value, artifact := artifact, registry := registry.value))
  }

  function Again(s: State, opts: Options, f: Family, env: Env): Result<State> {
    var t := Services(s, opts, f, env);
    if t.Ok? && Agent in opts.internalServices && s.agent.cert == "" then InitAgent(t.value, opts, env) else t
  }

  /** How the registry is reached afterwards, field by field. */
  function Access(r: RegistryInfo, asked: RegistryInfo, f: Family): RegistryInfo {
    var mode := if asked.mode != NoMode then asked.mode else r.mode;
    var own := mode in {NodePort, Proxy};
    var port :=
      if !own then r.port else if asked.port != 0 then asked.port
      else if mode != r.mode then DefaultPort(mode) else r.port;
    r.(mode := mode,
       port := port,
       address := if own then LocalAddress(f, port) else r.address,
       mtls := if asked.mode == Proxy then ZarfManaged else if mode == NodePort then NotUsed else r.mtls)
  }

  function StorageClass(distro: string, current: string): string {
    if distro in {"k3s", "k3d"} then "local-path" else if distro in {"kind", "gke"} then "standard"
    else if distro == "dockerdesktop" then "hostpath" else current
  }

  /** The state before its access fields are settled, and the registry options that settle them. */
  function Started(saved: Option<State>, opts: Options, f: Family, env: Env): Result<(State, RegistryInfo)> {
    if saved.None? then Fresh(opts, f, env)
    else
      var t := Again(Loaded(saved.value), opts, f, env);
      if t.Err? then Err else Ok((t.value, opts.registry))
  }

  function Completed(s: State, asked: RegistryInfo, opts: Options, f: Family): State {
    var changed := asked.mode != NoMode && asked.mode != s.registry.mode;
    s.(family := Some(f),
       registry := ReconcilePort(Access(s.registry, asked, f)),
       injectorPort := if opts.injectorPort != 0 then opts.injectorPort else if changed then 0 else s.injectorPort,
       storageClass := OrElse(opts.storageClass, StorageClass(s.distro, s.storageClass)),
       mutationPolicy := OrElse(opts.mutationPolicy, s.mutationPolicy))
  }

  /** The state that an init goes to save, if it gets that far. */
  function Init(saved: Option<State>, opts: Options, env: Env): Result<State> {
    if !env.stateReadable || !env.namespaceApplied || env.family.Err? then Err else
    var f := env.family.value;
    var start := Started(saved, opts, f, env);
    if start.Err? || (start.value.1.mode == Proxy && !env.certsCreated) then Err
    else Ok(Completed(start.value.0, start.value.1, opts, f))
  }

  // What every init establishes.

  /** A first init that names an own mode together with an address and only the deprecated port. */
  predicate StrayPort(saved: Option<State>, opts: Options) {
    && saved.None? && opts.registry.mode in {NodePort, Proxy} && opts.registry.IsConfigured()
    && opts.registry.port == 0 && opts.registry.nodePort != 0
  }

  predicate ProxyIsManaged(r: RegistryInfo) { r.mode == Proxy ==> r.mtls == ZarfManaged }

  /** A registry of Zarf's own is reached on the local host at its stored port, with mTLS exactly behind the proxy. */
  predicate Consistent(s: State) {
    var r := s.registry;
    && (r.mode == NodePort ==> r.mtls == NotUsed)
    && ProxyIsManaged(r)
    && (r.mode in {NodePort, Proxy} ==> s.family.Some? && r.address == Local(s.family.value == IPv6, r.port))
  }

  /** The modes and ports that an init starts from. */
  lemma FreshStart(opts: Options, f: Family, env: Env)
    requires Fresh(opts, f, env).Ok?
    ensures var (s, asked) := Fresh(opts, f, env).value; StartsWell(None, opts, s.registry, asked)
  {
  }

  lemma KnownServicesStart(s: State, opts: Options, f: Family, env: Env)
    requires Services(Loaded(s), opts, f, env).Ok? && ProxyIsManaged(s.registry)
    ensures StartsWell(Some(s), opts, Services(Loaded(s), opts, f, env).value.registry, opts.registry)
  {
  }

  lemma KnownStart(s: State, opts: Options, f: Family, env: Env)
    requires Again(Loaded(s), opts, f, env).Ok? && ProxyIsManaged(s.registry)
    ensures StartsWell(Some(s), opts, Again(Loaded(s), opts, f, env).value.registry, opts.registry)
  {
    KnownServicesStart(s, opts, f, env);
  }

  ghost predicate StartsWell(saved: Option<State>, opts: Options, r: RegistryInfo, asked: RegistryInfo) {
    && (r.mode == Proxy ==> r.mtls == ZarfManaged || asked.mode == Proxy)
    && (StrayPort(saved, opts) ==>
          asked == r && asked.port == 0 && asked.nodePort != 0 && asked.mode == opts.registry.mode)
    && (!StrayPort(saved, opts) && r.port == 0 && r.nodePort != 0 ==> r == asked && r.mode == External)
  }

  lemma CompletedIsConsistentIff(saved: Option<State>, s: State, asked: RegistryInfo, opts: Options, f: Family)
    requires StartsWell(saved, opts, s.registry, asked)
    ensures ProxyIsManaged(Completed(s, asked, opts, f).registry)
    ensures Consistent(Completed(s, asked, opts, f)) <==> !StrayPort(saved, opts)
  {
  }

  /**
   * A successful init leaves a consistent state, provided an earlier proxy was managed; except that the
   * stray deprecated port of `StrayPort` overwrites the port after the address was built from it.
   */
  lemma InitIsConsistentIff(saved: Option<State>, opts: Options, env: Env)
    requires saved.Some? ==> ProxyIsManaged(saved.value.registry)
    requires Init(saved, opts, env).Ok?
    ensures ProxyIsManaged(Init(saved, opts, env).value.registry)
    ensures Consistent(Init(saved, opts, env).value) <==> !StrayPort(saved, opts)
  {
    var f := env.family.value;
    if saved.None? {
      FreshStart(opts, f, env);
    } else {
      KnownStart(saved.value, opts, f, env);
    }
    var (s, asked) := Started(saved, opts, f, env).value;
    CompletedIsConsistentIff(saved, s, asked, opts, f);
  }

  /**
   * After a first init a service is configured exactly when it was deployed or pointed to, with what was
   * given for it.
   */
  lemma FirstInitConfigures(opts: Options, env: Env)
    requires Init(None, opts, env).Ok?
    ensures var s := Init(None, opts, env).value;
      && (s.git.address != "" <==> Git in opts.internalServices || opts.git.address != "")
      && (s.git.address != "" ==>
          Filled(opts.git.credentials, s.git.credentials, s.git.address == GIT_URL, "zarf-git-user",
              "zarf-git-read-user", env.git))
      && (opts.git.address != "" ==> s.git.address == opts.git.address)
      && (s.git.address in {"", opts.git.address, "http://zarf-gitea-http.zarf.svc.cluster.local:3000"})
      && (s.artifact.address != "" <==> Artifact in opts.internalServices || opts.artifact.address != "")
      && (s.artifact.address != "" ==> ArtifactFilled(opts.artifact, s.artifact))
      && (Registry in opts.internalServices || opts.registry.IsConfigured() ==>
            && s.registry.IsConfigured()
            && Filled(opts.registry.credentials, s.registry.credentials, s.registry.mode != External, "zarf-push",
                "zarf-pull", env.registry))
      && (Agent in opts.internalServices && opts.agentTls.Some? ==> s.agent == Certificate(opts.agentTls.value, true))
      && (Agent !in opts.internalServices ==> s.agent.cert == "")
  {
    if Selected(Registry, opts.registry.IsConfigured(), opts) {
      FillOnlyFills(opts.registry, env.family.value, env.registry);
    }
  }

  /** Class and policy are the given ones; without them the class is the distribution's, and the policy stays. */
  predicate SettingsFollow(s: State, t: State, opts: Options) {
    && t.mutationPolicy == (if opts.mutationPolicy != "" then opts.mutationPolicy else s.mutationPolicy)
    && (opts.storageClass != "" ==> t.storageClass == opts.storageClass)
    && (opts.storageClass == "" ==>
          && (t.distro == "k3s" || t.distro == "k3d" ==> t.storageClass == "local-path")
          && (t.distro == "kind" || t.distro == "gke" ==> t.storageClass == "standard")
          && (t.distro == "dockerdesktop" ==> t.storageClass == "hostpath")
          && (t.distro !in {"k3s", "k3d", "kind", "gke", "dockerdesktop"} ==> t.storageClass == s.storageClass))
  }

  lemma CompletedSettings(s: State, asked: RegistryInfo, opts: Options, f: Family)
    ensures SettingsFollow(s, Completed(s, asked, opts, f), opts)
  {
  }

  /** The class and the policy after any init, first or repeated. */
  lemma InitSettings(saved: Option<State>, opts: Options, env: Env)
    requires Init(saved, opts, env).Ok?
    ensures SettingsFollow(if saved.None? then EMPTY_STATE else saved.value, Init(saved, opts, env).value, opts)
    ensures saved.None? ==> Init(saved, opts, env).value.injectorPort == opts.injectorPort
  {
    var f := env.family.value;
    var (s, asked) := Started(saved, opts, f, env).value;
    CompletedSettings(s, asked, opts, f);
  }

  predicate GitFilled(s: GitInfo, t: GitInfo, g: Generated) {
    && t.address == "http://zarf-gitea-http.zarf.svc.cluster.local:3000"
    && Filled(s.credentials, t.credentials, true, "zarf-git-user", "zarf-git-read-user", g)
  }

  predicate ServicesFilled(s: State, t: State, opts: Options, env: Env) {
    && (if Git in opts.internalServices && s.git.address == "" then GitFilled(s.git, t.git, env.git)
        else t.git == s.git)
    && (if Artifact in opts.internalServices && s.artifact.address == "" then ArtifactFilled(s.artifact, t.artifact)
        else t.artifact == s.artifact)
    && (if Registry in opts.internalServices && s.registry.address == NoAddress
        then Filled(s.registry.credentials, t.registry.credentials, StoredMode(s) != External, "zarf-push",
            "zarf-pull", env.registry)
        else t.registry.credentials == s.registry.credentials && t.registry.secret == s.registry.secret)
  }

  predicate AgentFilled(s: State, t: State, opts: Options, env: Env) {
    if Agent in opts.internalServices && s.agent.cert == ""
    then if opts.agentTls.Some? then t.agent == Certificate(opts.agentTls.value, true)
         else env.agentTls.Ok? && t.agent == Certificate(env.agentTls.value, false)
    else t.agent == s.agent
  }

  lemma ServicesAreFilled(s: State, opts: Options, f: Family, env: Env)
    requires Services(Loaded(s), opts, f, env).Ok?
    ensures var t := Services(Loaded(s), opts, f, env).value;
      ServicesFilled(s, t, opts, env) && t.agent == s.agent
  {
    if Registry in opts.internalServices && !s.registry.IsConfigured() {
      FillOnlyFills(Loaded(s).registry, f, env.registry);
    }
  }

  lemma AgainFills(s: State, opts: Options, f: Family, env: Env)
    requires Again(Loaded(s), opts, f, env).Ok?
    ensures var t := Again(Loaded(s), opts, f, env).value;
      ServicesFilled(s, t, opts, env) && AgentFilled(s, t, opts, env)
  {
    ServicesAreFilled(s, opts, f, env);
  }

  /** What is completed afterwards are other fields. */
  lemma CompletingKeeps(s: State, asked: RegistryInfo, opts: Options, f: Family)
    ensures var t := Completed(s, asked, opts, f);
      && t.git == s.git && t.artifact == s.artifact && t.agent == s.agent
      && t.registry.credentials == s.registry.credentials && t.registry.secret == s.registry.secret
  {
  }

  /**
   * A re-init fills in what it deploys and was never configured, starting from what is stored for it; all
   * other services keep their credentials.
   */
  lemma LaterInitConfigures(s: State, opts: Options, env: Env)
    requires Init(Some(s), opts, env).Ok?
    ensures var t := Init(Some(s), opts, env).value;
      ServicesFilled(s, t, opts, env) && AgentFilled(s, t, opts, env)
  {
    var f := env.family.value;
    AgainFills(s, opts, f, env);
    CompletingKeeps(Again(Loaded(s), opts, f, env).value, opts.registry, opts, f);
  }

  datatype Step = Step(opts: Options, env: Env)

  /** An init leaves the saved state as it was, unless its save takes effect, reported or not. */
  function After(saved: Option<State>, step: Step): Option<State> {
    var r := Init(saved, step.opts, step.env);
    if r.Ok? && step.env.save.TakesEffect() then Some(r.value) else saved
  }

  /** What an init reports. */
  function Reported(saved: Option<State>, opts: Options, env: Env): Result<State> {
    if env.save.Succeeds? then Init(saved, opts, env) else Err
  }

  function Run(saved: Option<State>, steps: seq<Step>): Option<State> {
    if steps == [] then saved else After(Run(saved, steps[..|steps| - 1]), steps[|steps| - 1])
  }

  /** Over any sequence of inits of a cluster. */
  lemma {:induction false} RunsStayConsistent(steps: seq<Step>)
    requires forall i :: 0 <= i < |steps| ==> !StrayPort(Run(None, steps[..i]), steps[i].opts)
    ensures Run(None, steps).Some? ==> Consistent(Run(None, steps).value)
    decreases |steps|
  {
    if steps != [] {
      var n := |steps| - 1;
      assert forall i :: 0 <= i < n ==> steps[..n][..i] == steps[..i];
      RunsStayConsistent(steps[..n]);
      var before := Run(None, steps[..n]);
      if Init(before, steps[n].opts, steps[n].env).Ok? {
        InitIsConsistentIff(before, steps[n].opts, steps[n].env);
      }
    }
  }

  // What repeated inits keep.

  /** A configured service keeps its credentials and its address; the registry at least its credentials and secret. */
  predicate Kept(s: State, t: State) {
    && (s.git.address != "" ==> t.git == s.git)
    && (s.artifact.address != "" ==> t.artifact == s.artifact)
    && (s.agent.cert != "" ==> t.agent == s.agent)
    && (s.registry.IsConfigured() ==>
          && t.registry.IsConfigured()
          && t.registry.credentials == s.registry.credentials && t.registry.secret == s.registry.secret)
    && t.distro == s.distro && t.appliance == s.appliance
  }

  lemma InitKeeps(s: State, opts: Options, env: Env)
    requires Init(Some(s), opts, env).Ok?
    ensures Kept(s, Init(Some(s), opts, env).value)
  {
  }

  lemma {:induction false} RunKeeps(s: State, steps: seq<Step>)
    ensures Run(Some(s), steps).Some? && Kept(s, Run(Some(s), steps).value)
    decreases |steps|
  {
    if steps != [] {
      var n := |steps| - 1;
      RunKeeps(s, steps[..n]);
      var before := Run(Some(s), steps[..n]).value;
      if Init(Some(before), steps[n].opts, steps[n].env).Ok? {
        InitKeeps(before, steps[n].opts, steps[n].env);
      }
    }
  }

  // Changing the mode.

  /** The mode an init of a known cluster starts from. */
  function StoredMode(s: State): Mode { Loaded(s).registry.mode }

  /** A change between own modes resets both ports unless they are given; without a change they stay unless given. */
  lemma PortsFollowTheMode(s: State, opts: Options, env: Env)
    requires Init(Some(s), opts, env).Ok? && s.registry.IsConfigured()
    ensures var t := Init(Some(s), opts, env).value;
            var changed := opts.registry.mode != NoMode && opts.registry.mode != StoredMode(s);
      && t.registry.mode == (if changed then opts.registry.mode else StoredMode(s))
      && t.injectorPort == (if opts.injectorPort != 0 then opts.injectorPort else if changed then 0 else s.injectorPort)
      && (t.registry.mode in {NodePort, Proxy} ==>
            t.registry.port == if opts.registry.port != 0 then opts.registry.port
                               else if changed then if opts.registry.mode == NodePort then 31999 else 5000
                               else ReconcilePort(s.registry).port)
      && (t.registry.mode == External ==>
            t.registry.port == ReconcilePort(s.registry).port && t.registry.address == s.registry.address)
  {
  }

  /** Which inits that deploy Zarf's registry end with a registry of Zarf's own. */
  lemma OwnRegistryIff(saved: Option<State>, opts: Options, env: Env)
    requires Init(saved, opts, env).Ok? && Registry in opts.internalServices
    ensures Init(saved, opts, env).value.registry.IsInternal()
       <==> (if opts.registry.mode != NoMode then opts.registry.mode != External
             else if saved.None? then !opts.registry.IsConfigured()
             else StoredMode(saved.value) != External)
  {
  }

  /** A cluster set up without a registry takes one that is deployed later for an external one, at port 0. */
  lemma LateRegistryIsTakenForExternal(opts: Options, env: Env, later: Options, laterEnv: Env)
    requires Init(None, opts, env).Ok? && Registry !in opts.internalServices && opts.registry == NO_REGISTRY
    requires later.registry == NO_REGISTRY && Registry in later.internalServices
    requires var s := Init(None, opts, env); Init(Some(s.value), later, laterEnv).Ok?
    ensures var s := Init(None, opts, env).value; var t := Init(Some(s), later, laterEnv).value;
      !t.registry.IsInternal() && t.registry.address == Local(laterEnv.family.value == IPv6, 0)
  {
  }

  /** Options that ask for nothing, and surroundings in which nothing fails. */
  const NO_OPTIONS := Options(false, EMPTY_STATE.git, NO_REGISTRY, EMPTY_STATE.artifact, "", 0, None, "", {})
  const ALL_WELL := var g := Generated(Ok("p"), Ok("q"), Ok("s"));
    Env(true, true, Ok(IPv4), Ok("unknown"), Ok("c"), true, true, g, g, true, Succeeds)

  /** Set up with the internal registry and then pointed elsewhere, a cluster is external at the old local address. */
  lemma ExternalKeepsOldAddress() returns (first: Options, later: Options)
    ensures var s := Init(None, first, ALL_WELL); s.Ok? && s.value.registry.mode == NodePort
    ensures var s := Init(None, first, ALL_WELL).value; var t := Init(Some(s), later, ALL_WELL);
      && later.registry.mode == External && later.registry.address == Remote("registry.example.com")
      && t.Ok? && t.value.registry.mode == External && t.value.registry.address == Local(false, NODE_PORT)
  {
    first := NO_OPTIONS.(internalServices := {Registry});
    later := NO_OPTIONS.(registry := NO_REGISTRY.(mode := External, address := Remote("registry.example.com")));
  }

  /** NodePort mode with an address and only the deprecated port: the stored port and the address part ways. */
  lemma StrayPortPartsFromAddress() returns (opts: Options)
    ensures StrayPort(None, opts)
    ensures var s := Init(None, opts, ALL_WELL);
      && s.Ok? && s.value.registry.mode == NodePort && s.value.registry.port == 5
      && s.value.registry.address == Local(false, 0) && !Consistent(s.value)
  {
    opts := NO_OPTIONS.(registry := NO_REGISTRY.(mode := NodePort, address := Remote("r"), nodePort := 5));
  }

  // The operation in place: the ordered updates of the source come to the function above.

  class Cluster {
    var saved: Option<State>

    constructor ()
      ensures saved == None
    {
      saved := None;
    }

    /**
     * An old state may lack the port or the mode: the ports are made to agree, and a mode is inferred,
     * which is nodeport exactly for a local address at the stored port. Nothing else changes.
     */
    method LoadState() returns (s: Option<State>)
      ensures s.Some? == saved.Some?
      ensures s.Some? ==> s.value == Loaded(saved.value) && Reconciled(saved.value, s.value)
    {
      if saved.None? {
        return None;
      }
      var r := saved.value.registry;
      if r.port == 0 && r.nodePort != 0 {
        r := r.(port := r.nodePort);
      }
      r := r.(nodePort := r.port);
      if r.mode == NoMode {
        if r.IsInternal() {
          r := r.(mode := NodePort);
        } else {
          r := r.(mode := External);
        }
      }
      return Some(saved.value.(registry := r));
    }

    method Start(opts: Options, f: Family, env: Env) returns (r: Result<(State, RegistryInfo)>)
      ensures r == Started(saved, opts, f, env)
    {
      var existing := LoadState();
      if existing.None? {
        r := NewCluster(opts, f, env);
      } else {
        var s := KnownCluster(existing.value, opts, f, env);
        r := if s.Err? then Err else Ok((s.value, opts.registry));
      }
    }

    /**
     * Success saves the state that is returned; a failure leaves the saved state, unless the failed save
     * went through all the same. What is saved keeps what was configured and is consistent.
     */
    method InitState(opts: Options, env: Env) returns (r: Result<State>)
      modifies this
      ensures r == Reported(old(saved), opts, env) && saved == After(old(saved), Step(opts, env))
      ensures r.Ok? ==> saved == Some(r.value)
      ensures r.Err? && !env.save.FailsAfter? ==> saved == old(saved)
      ensures env.save.FailsAfter? && Init(old(saved), opts, env).Ok? ==> saved.Some? && r.Err?
      ensures (r.Ok? || saved != old(saved)) && (old(saved).Some? ==> ProxyIsManaged(old(saved).value.registry)) ==>
                saved.Some? && (Consistent(saved.value) <==> !StrayPort(old(saved), opts))
      ensures (r.Ok? || saved != old(saved)) && old(saved).Some? ==>
                saved.Some? && Kept(old(saved).value, saved.value)
    {
      ghost var before := saved;
      if !env.stateReadable || !env.namespaceApplied || env.family.Err? {
        return Err;
      }
      var f := env.family.value;
      var start := Start(opts, f, env);
      if start.Err? {
        return Err;
      }
      var (s, asked) := start.value;
      if asked.mode == Proxy && !env.certsCreated {
        return Err;
      }
      s := Complete(s, asked, opts, f);
      Promised(before, opts, env);
      if env.save.TakesEffect() {
        saved := Some(s);
      }
      r := if env.save.Succeeds? then Ok(s) else Err;
    }
  }

  lemma Promised(saved: Option<State>, opts: Options, env: Env)
    requires Init(saved, opts, env).Ok?
    ensures (saved.Some? ==> ProxyIsManaged(saved.value.registry)) ==>
              (Consistent(Init(saved, opts, env).value) <==> !StrayPort(saved, opts))
    ensures saved.Some? ==> Kept(saved.value, Init(saved, opts, env).value)
  {
    if saved.Some? ==> ProxyIsManaged(saved.value.registry) {
      InitIsConsistentIff(saved, opts, env);
    }
    if saved.Some? {
      InitKeeps(saved.value, opts, env);
    }
  }

  method DefaultStorage(given: State) returns (s: State)
    ensures s == given.(storageClass := StorageClass(given.distro, given.storageClass))
  {
    s := given;
    if s.distro == "k3s" || s.distro == "k3d" {
      s := s.(storageClass := "local-path");
    } else if s.distro == "kind" || s.distro == "gke" {
      s := s.(storageClass := "standard");
    } else if s.distro == "dockerdesktop" {
      s := s.(storageClass := "hostpath");
    }
  }

  /** The rest of an init, in the order of the source; certificates exist if they are needed. */
  method Complete(given: State, asked: RegistryInfo, opts: Options, f: Family) returns (s: State)
    ensures s == Completed(given, asked, opts, f)
  {
    s := given.(family := Some(f));
    s := SwitchMode(s, asked, f);
    if asked.mode == Proxy {
      s := s.(registry := s.registry.(mtls := ZarfManaged));
    }
    assert s.registry == Access(given.registry, asked, f);
    s := DefaultStorage(s);
    if opts.storageClass != "" {
      s := s.(storageClass := opts.storageClass);
    }
    if opts.injectorPort != 0 {
      s := s.(injectorPort := opts.injectorPort);
    }
    if opts.mutationPolicy != "" {
      s := s.(mutationPolicy := opts.mutationPolicy);
    }
    s := s.(registry := ReconcilePort(s.registry));
  }

  method FillInCredentials(given: Credentials, internal: bool, pushUser: string, pullUser: string, g: Generated)
    returns (r: Result<Credentials>)
    ensures r == FillCredentials(given, internal, pushUser, pullUser, g)
    ensures r.Ok? ==> Filled(given, r.value, internal, pushUser, pullUser, g)
  {
    var c := given;
    if c.pushPassword == "" {
      if g.push.Err? {
        return Err;
      }
      c := c.(pushPassword := g.push.value);
    }
    if c.pushUser == "" && internal {
      c := c.(pushUser := pushUser);
    }
    if c.pullUser == "" {
      c := c.(pullUser := if internal then pullUser else c.pushUser);
    }
    if c.pullPassword == "" {
      if internal {
        if g.pull.Err? {
          return Err;
        }
        c := c.(pullPassword := g.pull.value);
      } else {
        c := c.(pullPassword := c.pushPassword);
      }
    }
    return Ok(c);
  }

  method FillInGit(given: GitInfo, g: Generated) returns (r: Result<GitInfo>)
    ensures r == FillGit(given, g)
    ensures r.Ok? ==>
              && r.value.address != ""
              && Filled(given.credentials, r.value.credentials, r.value.address == GIT_URL, "zarf-git-user",
                  "zarf-git-read-user", g)
  {
    var i := given;
    if i.address == "" {
      i := i.(address := GIT_URL);
    }
    var c := FillInCredentials(i.credentials, i.address == GIT_URL, "zarf-git-user", "zarf-git-read-user", g);
    return if c.Err? then Err else Ok(i.(credentials := c.value));
  }

  method FillInArtifact(given: ArtifactInfo) returns (a: ArtifactInfo)
    ensures a == FillArtifact(given) && ArtifactFilled(given, a)
  {
    a := given;
    if a.address == "" {
      a := a.(address := ARTIFACT_URL);
    }
    if a.pushUser == "" {
      a := a.(pushUser := "zarf-git-user");
    }
  }

  /** Mode, port and address first. */
  method FillInAccess(given: RegistryInfo, f: Family) returns (i: RegistryInfo)
    ensures i.mode == if given.mode != NoMode then given.mode else if given.IsConfigured() then External else NodePort
    ensures i.port == if given.port == 0 && !given.IsConfigured() then DefaultPort(i.mode) else given.port
    ensures i.address == if given.IsConfigured() then given.address else Local(f == IPv6, i.port)
    ensures i == given.(mode := i.mode, port := i.port, address := i.address)
  {
    i := given;
    if i.mode == NoMode {
      if i.address == NoAddress {
        i := i.(mode := NodePort);
      } else {
        i := i.(mode := External);
      }
    }
    if i.port == 0 && i.address == NoAddress {
      match i.mode
      case NodePort => i := i.(port := NODE_PORT);
      case Proxy => i := i.(port := HOST_PORT);
      case _ =>
    }
    if i.address == NoAddress {
      i := i.(address := LocalAddress(f, i.port));
    }
  }

  method FillInRegistry(given: RegistryInfo, f: Family, g: Generated) returns (r: Result<RegistryInfo>)
    ensures r == FillRegistry(given, f, g)
    ensures r.Ok? ==> RegistryFilled(given, r.value, f, g)
  {
    var i := FillInAccess(given, f);
    var c := FillInCredentials(i.credentials, i.mode != External, "zarf-push", "zarf-pull", g);
    if c.Err? {
      return Err;
    }
    i := i.(credentials := c.value);
    if i.secret == "" {
      if g.secret.Err? {
        return Err;
      }
      i := i.(secret := g.secret.value);
    }
    if i.mtls == NoStrategy {
      i := i.(mtls := NotUsed);
    }
    r := Ok(i);
    FillOnlyFills(given, f, g);
  }

  method StartAgent(given: State, opts: Options, env: Env) returns (r: Result<State>)
    ensures r == InitAgent(given, opts, env)
    ensures r.Ok? ==> r.value == given.(agent := r.value.agent) && r.value.agent.userProvided == opts.agentTls.Some?
  {
    var s := given;
    if opts.agentTls.Some? {
      s := s.(agent := Certificate(opts.agentTls.value, true));
    } else {
      if env.agentTls.Err? {
        return Err;
      }
      s := s.(agent := Certificate(env.agentTls.value, false));
    }
    if !env.namespacesIgnored {
      return Err;
    }
    return Ok(s);
  }

  method NewState(opts: Options, env: Env) returns (r: Result<State>)
    ensures r == Blank(opts, env)
    ensures r.Ok? ==> r.value == EMPTY_STATE.(appliance := opts.applianceMode, distro := r.value.distro,
        agent := r.value.agent)
  {
    var s := EMPTY_STATE;
    if opts.applianceMode {
      s := s.(distro := "k3s", appliance := true);
    } else {
      if env.distro.Err? {
        return Err;
      }
      s := s.(distro := env.distro.value);
    }
    if Agent in opts.internalServices {
      var agent := StartAgent(s, opts, env);
      if agent.Err? {
        return Err;
      }
      s := agent.value;
    }
    if !env.accountFound {
      return Err;
    }
    return Ok(s);
  }

  method AskGit(given: State, opts: Options, env: Env) returns (r: Result<State>)
    requires given.git == EMPTY_STATE.git
    ensures r == var git := GitAsked(opts, env); if git.Err? then Err else Ok(given.(git := git.value))
  {
    var s := given;
    if Git in opts.internalServices || opts.git.address != "" {
      var git := FillInGit(opts.git, env.git);
      if git.Err? {
        return Err;
      }
      s := s.(git := git.value);
    }
    return Ok(s);
  }

  /** A new cluster: the state is built up service by service, and the registry options are filled in on the way. */
  method NewCluster(opts: Options, f: Family, env: Env) returns (r: Result<(State, RegistryInfo)>)
    ensures r == Fresh(opts, f, env)
  {
    var start := NewState(opts, env);
    if start.Err? {
      return Err;
    }
    var s, asked := start.value, opts.registry;
    var git := AskGit(s, opts, env);
    if git.Err? {
      return Err;
    }
    s := git.value;
    if Registry in opts.internalServices || opts.registry.address != NoAddress {
      var registry := FillInRegistry(asked, f, env.registry);
      if registry.Err? {
        return Err;
      }
      asked := registry.value;
      s := s.(registry := asked);
    }
    if Artifact in opts.internalServices || opts.artifact.address != "" {
      var artifact := FillInArtifact(opts.artifact);
      s := s.(artifact := artifact);
    }
    return Ok((s, asked));
  }

  /** A known cluster: services that are deployed and were never configured are filled in, one after the other. */
  method KnownCluster(given: State, opts: Options, f: Family, env: Env) returns (r: Result<State>)
    ensures r == Again(given, opts, f, env)
  {
    r := KnownServices(given, opts, f, env);
    if r.Ok? && Agent in opts.internalServices && r.value.agent.cert == "" {
      r := StartAgent(r.value, opts, env);
    }
  }

  method KnownServices(given: State, opts: Options, f: Family, env: Env) returns (r: Result<State>)
    ensures r == Services(given, opts, f, env)
  {
    var s := given;
    if Git in opts.internalServices && s.git.address == "" {
      var git := FillInGit(s.git, env.git);
      if git.Err? {
        return Err;
      }
      s := s.(git := git.value);
    }
    if Artifact in opts.internalServices && s.artifact.address == "" {
      var artifact := FillInArtifact(s.artifact);
      s := s.(artifact := artifact);
    }
    if Registry in opts.internalServices && !s.registry.IsConfigured() {
      var registry := FillInRegistry(s.registry, f, env.registry);
      if registry.Err? {
        return Err;
      }
      s := s.(registry := registry.value);
    }
    return Ok(s);
  }

  /** The mode, the ports and the address, before the proxy's certificates. */
  method SwitchMode(given: State, asked: RegistryInfo, f: Family) returns (s: State)
    ensures var r := Access(given.registry, asked, f);
      s == given.(
        registry := if asked.mode == Proxy then r.(mtls := given.registry.mtls) else r,
        injectorPort := if asked.mode != NoMode && asked.mode != given.registry.mode then 0 else given.injectorPort)
  {
    s := given;
    var previous := s.registry.mode;
    if asked.mode != NoMode {
      s := s.(registry := s.registry.(mode := asked.mode));
    }
    var changed := asked.mode != NoMode && asked.mode != previous;
    if changed {
      s := s.(injectorPort := 0);
    }
    match s.registry.mode
    case NodePort =>
      if asked.port != 0 {
        s := s.(registry := s.registry.(port := asked.port));
      } else if changed {
        s := s.(registry := s.registry.(port := NODE_PORT));
      }
      s := s.(registry := s.registry.(mtls := NotUsed, address := LocalAddress(f, s.registry.port)));
    case Proxy =>
      if asked.port != 0 {
        s := s.(registry := s.registry.(port := asked.port));
      } else if changed {
        s := s.(registry := s.registry.(port := HOST_PORT));
      }
      s := s.(registry := s.registry.(address := LocalAddress(f, s.registry.port)));
    case _ =>
  }
}

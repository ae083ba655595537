/**
 * Credential rotation with rollback. A rotation is a forward pass over remote state and, if that
 * fails, a second pass back to the old credentials. Every remote call may fail, and a failed write may
 * or may not have taken effect. A crash between two calls leaves what a failure at the next call
 * would leave, so statements about every pass cover crashes as well.
 */
module Rotation {
  import opened Outcomes

  datatype RegistryMode = NodePort | Proxy | External

  datatype RegistryInfo = RegistryInfo(address: string, mode: RegistryMode, pullUsername: string, pullPassword: string,
                                       pushUsername: string, pushPassword: string)
  {
    predicate IsInternal() { !mode.External? }
  }

  const INTERNAL_GIT_URL := "http://zarf-gitea-http.zarf.svc.cluster.local:3000"

  datatype GitServer = GitServer(address: string, pullUsername: string, pullPassword: string,
                                 pushUsername: string, pushPassword: string)
  {
    predicate IsInternal() { address == INTERNAL_GIT_URL }
  }

  datatype ZarfState = ZarfState(registry: RegistryInfo, git: GitServer)

  datatype Secret = Secret(managed: bool, data: map<string, string>)

  datatype Namespace = Namespace(name: string, agentLabel: string)

  /**
   * Everything a rotation can change: the registry deployment, both kinds of secrets (keyed by namespace),
   * the Gitea users with their passwords, and the saved Zarf state.
   */
  datatype World = World(
    deployment: RegistryInfo,
    imageSecrets: map<string, Secret>,
    gitSecrets: map<string, Secret>,
    users: map<string, string>,
    saved: ZarfState)

  /** What happens to each remote call of one pass. */
  datatype Plan = Plan(
    list: bool,
    readable: string -> bool,
    generates: string -> bool,
    applies: string -> Fate,
    deploy: Fate,
    connect: bool,
    pullUser: Fate,
    pushUser: Fate,
    save: Fate)

  datatype Surroundings = Surroundings(
    namespaces: seq<Namespace>,
    serviceAddresses: (RegistryMode, string) -> set<string>)
  {
    ghost predicate Valid() {
      forall i, j :: 0 <= i < j < |namespaces| ==> namespaces[i].name != namespaces[j].name
    }
  }

  /** The parts of the cluster a rotation only reads; no two namespaces have the same name. */
  type Env = e: Surroundings | e.Valid() witness Surroundings([], (_, _) => {})

  datatype Outcome = Updated | RolledBack | Inconsistent

  /** One credential pair under the registry's address and every service address that leads to it. */
  function RegistryPullCreds(env: Env, info: RegistryInfo): Secret {
    var login := info.pullUsername + ":" + info.pullPassword;
    Secret(true, map a | a in env.serviceAddresses(info.mode, info.address) + {info.address} :: login)
  }

  function GitPullCreds(git: GitServer): Secret {
    Secret(true, map["username" := git.pullUsername, "password" := git.pullPassword])
  }

  /** A secret is rotated unless its namespace opted out and Zarf does not manage it. */
  predicate InScope(ns: Namespace, secrets: map<string, Secret>) {
    && ns.name in secrets
    && (secrets[ns.name].managed || (ns.agentLabel != "skip" && ns.agentLabel != "ignore"))
  }

  // ---------------------------------------------------------------------------------------------
  // The passes, as functions of the remote state
  // ---------------------------------------------------------------------------------------------

  type Secrets = map<string, Secret>

  /** The image loop stops at the first failure. */
  ghost function ImageLoop(nss: seq<Namespace>, secrets: Secrets, creds: Secret, plan: Plan): (Secrets, bool) {
    if nss == [] then (secrets, true)
    else
      var ns := nss[0];
      if !plan.readable(ns.name) then (secrets, false)
      else if !InScope(ns, secrets) then ImageLoop(nss[1..], secrets, creds, plan)
      else if !plan.generates(ns.name) then (secrets, false)
      else
        var fate := plan.applies(ns.name);
        var next := if fate.TakesEffect() then secrets[ns.name := creds] else secrets;
        if fate.Succeeds? then ImageLoop(nss[1..], next, creds, plan) else (next, false)
  }

  /** The git loop passes over namespaces whose secret cannot be read. */
  ghost function GitLoop(nss: seq<Namespace>, secrets: Secrets, creds: Secret, plan: Plan): (Secrets, bool) {
    if nss == [] then (secrets, true)
    else
      var ns := nss[0];
      if !plan.readable(ns.name) || !InScope(ns, secrets) then GitLoop(nss[1..], secrets, creds, plan)
      else
        var fate := plan.applies(ns.name);
        var next := if fate.TakesEffect() then secrets[ns.name := creds] else secrets;
        if fate.Succeeds? then GitLoop(nss[1..], next, creds, plan) else (next, false)
  }

  ghost function RegistryPass(env: Env, w: World, s: ZarfState, updateRegistry: bool, plan: Plan): (World, bool) {
    var w1 := if updateRegistry && plan.deploy.TakesEffect() then w.(deployment := s.registry) else w;
    if updateRegistry && !plan.deploy.Succeeds? then (w1, false) else ImageSecretsPass(env, w1, s, plan)
  }

  ghost function ImageSecretsPass(env: Env, w: World, s: ZarfState, plan: Plan): (World, bool) {
    if !plan.list then (w, false)
    else
      var (secrets, done) := ImageLoop(env.namespaces, w.imageSecrets, RegistryPullCreds(env, s.registry), plan);
      var w2 := w.(imageSecrets := secrets);
      if !done then (w2, false)
      else (if plan.save.TakesEffect() then w2.(saved := s) else w2, plan.save.Succeeds?)
  }

  /** A user update is authenticated by the push user's current password and needs an existing user. */
  predicate Authorised(users: map<string, string>, auth: GitServer, user: string) {
    auth.pushUsername in users && users[auth.pushUsername] == auth.pushPassword && user in users
  }

  function UpdateUser(users: map<string, string>, auth: GitServer, user: string, password: string, fate: Fate)
    : (map<string, string>, bool)
  {
    if !Authorised(users, auth, user) then (users, false)
    else (if fate.TakesEffect() then users[user := password] else users, fate.Succeeds?)
  }

  ghost function UserPass(users: map<string, string>, from: GitServer, to: GitServer, plan: Plan)
    : (map<string, string>, bool)
  {
    if !plan.connect then (users, false)
    else
      var (u1, ok1) := UpdateUser(users, from, to.pullUsername, to.pullPassword, plan.pullUser);
      if !ok1 then (u1, false)
      else UpdateUser(u1, from, to.pushUsername, to.pushPassword, plan.pushUser)
  }

  ghost function GitPass(env: Env, w: World, from: ZarfState, to: ZarfState, plan: Plan): (World, bool) {
    var (users, ok) := if to.git.IsInternal() then UserPass(w.users, from.git, to.git, plan) else (w.users, true);
    if ok then GitSecretsPass(env, w.(users := users), to, plan) else (w.(users := users), false)
  }

  ghost function GitSecretsPass(env: Env, w: World, to: ZarfState, plan: Plan): (World, bool) {
    if !plan.list then (w, false)
    else
      var (secrets, done) := GitLoop(env.namespaces, w.gitSecrets, GitPullCreds(to.git), plan);
      var w2 := w.(gitSecrets := secrets);
      if !done then (w2, false)
      else (if plan.save.TakesEffect() then w2.(saved := to) else w2, plan.save.Succeeds?)
  }

  ghost function RotateRegistry(
    env: Env, w: World, oldState: ZarfState, newState: ZarfState, forward: Plan, back: Plan): (World, Outcome)
  {
    var (w1, ok) := RegistryPass(env, w, newState, newState.registry.IsInternal(), forward);
    if ok then (w1, Updated)
    else
      var redeploy := oldState.registry.IsInternal() && newState.registry.IsInternal();
      var (w2, ok2) := RegistryPass(env, w1, oldState, redeploy, back);
      (w2, if ok2 then RolledBack else Inconsistent)
  }

  ghost function RotateGit(
    env: Env, w: World, oldState: ZarfState, newState: ZarfState, forward: Plan, back: Plan): (World, Outcome)
  {
    var (w1, ok) := GitPass(env, w, oldState, newState, forward);
    if ok then (w1, Updated)
    else
      var (w2, ok2) := GitPass(env, w1, newState, oldState, back);
      (w2, if ok2 then RolledBack else Inconsistent)
  }

  // ---------------------------------------------------------------------------------------------
  // The cluster, updated in place
  // ---------------------------------------------------------------------------------------------

  class Cluster {
    const env: Env
    var deployment: RegistryInfo
    var imageSecrets: map<string, Secret>
    var gitSecrets: map<string, Secret>
    var users: map<string, string>
    var saved: ZarfState

    constructor (env: Env, w: World)
      ensures this.env == env && Now() == w
    {
      this.env := env;
      deployment, imageSecrets, gitSecrets := w.deployment, w.imageSecrets, w.gitSecrets;
      users, saved := w.users, w.saved;
    }

    ghost function Now(): World
      reads this
    {
      World(deployment, imageSecrets, gitSecrets, users, saved)
    }

    method UpdateZarfManagedImageSecrets(s: ZarfState, plan: Plan) returns (ok: bool)
      modifies this`imageSecrets
      ensures var creds := RegistryPullCreds(env, s.registry);
              var (secrets, done) := ImageLoop(env.namespaces, old(imageSecrets), creds, plan);
              if plan.list then imageSecrets == secrets && ok == done else imageSecrets == old(imageSecrets) && !ok
      ensures PullSecretsOnly(env, old(imageSecrets), imageSecrets, s.registry)
      ensures ok ==> PullSecretsSet(env, old(imageSecrets), imageSecrets, s.registry)
    {
      ImageLoopMeant(env, imageSecrets, s.registry, plan);
      if !plan.list {
        return false;
      }
      var creds := RegistryPullCreds(env, s.registry);
      for i := 0 to |env.namespaces|
        invariant ImageLoop(env.namespaces, old(imageSecrets), creds, plan)
                  == ImageLoop(env.namespaces[i..], imageSecrets, creds, plan)
      {
        var ns := env.namespaces[i];
        assert env.namespaces[i..][1..] == env.namespaces[i + 1..];
        if !plan.readable(ns.name) {
          return false;
        }
        if !InScope(ns, imageSecrets) {
          continue;
        }
        if !plan.generates(ns.name) {
          return false;
        }
        var fate := plan.applies(ns.name);
        if fate.TakesEffect() {
          imageSecrets := imageSecrets[ns.name := creds];
        }
        if !fate.Succeeds? {
          return false;
        }
      }
      return true;
    }

    method UpdateZarfManagedGitSecrets(s: ZarfState, plan: Plan) returns (ok: bool)
      modifies this`gitSecrets
      ensures var (secrets, done) := GitLoop(env.namespaces, old(gitSecrets), GitPullCreds(s.git), plan);
              if plan.list then gitSecrets == secrets && ok == done else gitSecrets == old(gitSecrets) && !ok
      ensures GitSecretsOnly(env, old(gitSecrets), gitSecrets, s.git)
      ensures ok ==> GitSecretsSet(env, old(gitSecrets), gitSecrets, s.git, plan)
    {
      GitLoopMeant(env, gitSecrets, s.git, plan);
      if !plan.list {
        return false;
      }
      var creds := GitPullCreds(s.git);
      for i := 0 to |env.namespaces|
        invariant GitLoop(env.namespaces, old(gitSecrets), creds, plan)
                  == GitLoop(env.namespaces[i..], gitSecrets, creds, plan)
      {
        var ns := env.namespaces[i];
        assert env.namespaces[i..][1..] == env.namespaces[i + 1..];
        if !plan.readable(ns.name) || !InScope(ns, gitSecrets) {
          continue;
        }
        var fate := plan.applies(ns.name);
        if fate.TakesEffect() {
          gitSecrets := gitSecrets[ns.name := creds];
        }
        if !fate.Succeeds? {
          return false;
        }
      }
      return true;
    }

    method SaveState(s: ZarfState, plan: Plan) returns (ok: bool)
      modifies this`saved
      ensures saved == (if plan.save.TakesEffect() then s else old(saved)) && ok == plan.save.Succeeds?
    {
      if plan.save.TakesEffect() {
        saved := s;
      }
      return plan.save.Succeeds?;
    }

    method ApplyRegistryState(s: ZarfState, updateRegistry: bool, plan: Plan) returns (ok: bool)
      modifies this
      ensures (Now(), ok) == RegistryPass(env, old(Now()), s, updateRegistry, plan)
      ensures RegistryCommitted(env, old(Now()), Now(), s, updateRegistry, plan, ok)
      ensures PullSecretsOnly(env, old(imageSecrets), imageSecrets, s.registry)
      ensures saved != old(saved) || ok ==> PullSecretsSet(env, old(imageSecrets), imageSecrets, s.registry)
    {
      RegistryCommitsLast(env, Now(), s, updateRegistry, plan);
      RegistrySecretsMeant(env, Now(), s, updateRegistry, plan);
      if updateRegistry {
        if plan.deploy.TakesEffect() {
          deployment := s.registry;
        }
        if !plan.deploy.Succeeds? {
          return false;
        }
      }
      ok := UpdateZarfManagedImageSecrets(s, plan);
      if ok {
        ok := SaveState(s, plan);
      }
    }

    method UpdateInternalGitServerSecret(from: GitServer, to: GitServer, plan: Plan) returns (ok: bool)
      modifies this`users
      ensures (users, ok) == UserPass(old(users), from, to, plan)
      ensures UsersUpdated(old(users), users, from, to, plan, ok)
    {
      UserPassUpdates(users, from, to, plan);
      if !plan.connect {
        return false;
      }
      var (u1, ok1) := UpdateUser(users, from, to.pullUsername, to.pullPassword, plan.pullUser);
      users := u1;
      if !ok1 {
        return false;
      }
      var (u2, ok2) := UpdateUser(users, from, to.pushUsername, to.pushPassword, plan.pushUser);
      users := u2;
      return ok2;
    }

    method ApplyGitState(from: ZarfState, to: ZarfState, plan: Plan) returns (ok: bool)
      modifies this
      ensures (Now(), ok) == GitPass(env, old(Now()), from, to, plan)
      ensures GitCommitted(env, old(Now()), Now(), from, to, plan, ok)
      ensures GitSecretsOnly(env, old(gitSecrets), gitSecrets, to.git)
      ensures saved != old(saved) || ok ==> GitSecretsSet(env, old(gitSecrets), gitSecrets, to.git, plan)
    {
      GitCommitsLast(env, Now(), from, to, plan);
      GitSecretsMeantBy(env, Now(), from, to, plan);
      if to.git.IsInternal() {
        ok := UpdateInternalGitServerSecret(from.git, to.git, plan);
        if !ok {
          return;
        }
      }
      ok := UpdateZarfManagedGitSecrets(to, plan);
      if ok {
        ok := SaveState(to, plan);
      }
    }

    method UpdateRegistryCreds(oldState: ZarfState, newState: ZarfState, forward: Plan, back: Plan)
      returns (outcome: Outcome)
      modifies this
      ensures (Now(), outcome) == RotateRegistry(env, old(Now()), oldState, newState, forward, back)
      ensures RegistryRotated(env, old(Now()), Now(), oldState, newState, forward, back, outcome)
      ensures outcome.Updated? ==> PullSecretsSet(env, old(imageSecrets), imageSecrets, newState.registry)
      ensures outcome.RolledBack? ==> PullSecretsSet(env, old(imageSecrets), imageSecrets, oldState.registry)
      ensures BystandersKept(env, old(imageSecrets), imageSecrets)
    {
      RegistryRotation(env, Now(), oldState, newState, forward, back);
      RotatedSecretsMeant(env, Now(), oldState, newState, forward, back);
      var ok := ApplyRegistryState(newState, newState.registry.IsInternal(), forward);
      if ok {
        return Updated;
      }
      ok := ApplyRegistryState(oldState, oldState.registry.IsInternal() && newState.registry.IsInternal(), back);
      return if ok then RolledBack else Inconsistent;
    }

    method UpdateGitCreds(oldState: ZarfState, newState: ZarfState, forward: Plan, back: Plan)
      returns (outcome: Outcome)
      modifies this
      ensures (Now(), outcome) == RotateGit(env, old(Now()), oldState, newState, forward, back)
      ensures GitRotated(env, old(Now()), Now(), oldState, newState, forward, back, outcome)
      ensures outcome.Updated? ==> GitSecretsSet(env, old(gitSecrets), gitSecrets, newState.git, forward)
      ensures outcome.RolledBack? ==> GitSecretsSet(env, old(gitSecrets), gitSecrets, oldState.git, back)
      ensures BystandersKept(env, old(gitSecrets), gitSecrets)
    {
      GitRotation(env, Now(), oldState, newState, forward, back);
      RotatedGitSecretsMeant(env, Now(), oldState, newState, forward, back);
      var ok := ApplyGitState(oldState, newState, forward);
      if ok {
        return Updated;
      }
      ok := ApplyGitState(newState, oldState, back);
      return if ok then RolledBack else Inconsistent;
    }
  }

  // ---------------------------------------------------------------------------------------------
  // The secret loops
  // ---------------------------------------------------------------------------------------------

  /** The secrets went from `before` to `after` by replacing some in-scope ones with `creds`. */
  ghost predicate Progress(nss: seq<Namespace>, before: Secrets, after: Secrets, creds: Secret) {
    && after.Keys == before.Keys
    && forall n :: n in before ==>
         || after[n] == before[n]
         || (after[n] == creds && exists i :: 0 <= i < |nss| && nss[i].name == n && InScope(nss[i], before))
  }

  /** Rotating a secret marks it as managed, so no pass changes which secrets are in scope. */
  lemma ProgressKeepsScope(nss: seq<Namespace>, before: Secrets, after: Secrets, creds: Secret)
    requires forall i, j :: 0 <= i < j < |nss| ==> nss[i].name != nss[j].name
    requires creds.managed && Progress(nss, before, after, creds)
    ensures forall i :: 0 <= i < |nss| ==> (InScope(nss[i], before) <==> InScope(nss[i], after))
  {
  }

  lemma ProgressStep(nss: seq<Namespace>, before: Secrets, mid: Secrets, after: Secrets, creds: Secret)
    requires nss != [] && forall i, j :: 0 <= i < j < |nss| ==> nss[i].name != nss[j].name
    requires mid == before || (InScope(nss[0], before) && mid == before[nss[0].name := creds])
    requires Progress(nss[1..], mid, after, creds)
    ensures Progress(nss, before, after, creds)
  {
    forall n | n in before
      ensures after[n] == before[n]
              || (after[n] == creds && exists i :: 0 <= i < |nss| && nss[i].name == n && InScope(nss[i], before))
    {
      if after[n] != mid[n] {
        var i :| 0 <= i < |nss[1..]| && nss[1..][i].name == n && InScope(nss[1..][i], mid);
        assert nss[i + 1].name == n && nss[0].name != n;
      } else if mid[n] != before[n] {
        assert nss[0].name == n;
      }
    }
  }

  lemma {:induction false} ImageLoopProgress(nss: seq<Namespace>, secrets: Secrets, creds: Secret, plan: Plan)
    requires forall i, j :: 0 <= i < j < |nss| ==> nss[i].name != nss[j].name
    ensures Progress(nss, secrets, ImageLoop(nss, secrets, creds, plan).0, creds)
    ensures ImageLoop(nss, secrets, creds, plan).1 ==>
              forall i :: 0 <= i < |nss| && InScope(nss[i], secrets)
                          ==> ImageLoop(nss, secrets, creds, plan).0[nss[i].name] == creds
    decreases |nss|
  {
    if nss != [] && plan.readable(nss[0].name) {
      var n := nss[0].name;
      var writes := InScope(nss[0], secrets) && plan.generates(n) && plan.applies(n).TakesEffect();
      var next := if writes then secrets[n := creds] else secrets;
      var result := ImageLoop(nss, secrets, creds, plan);
      if !InScope(nss[0], secrets) || (plan.generates(n) && plan.applies(n).Succeeds?) {
        ImageLoopProgress(nss[1..], next, creds, plan);
        ProgressStep(nss, secrets, next, result.0, creds);
        forall i | 0 <= i < |nss| && result.1 && InScope(nss[i], secrets) ensures result.0[nss[i].name] == creds {
          if i > 0 {
            assert nss[1..][i - 1] == nss[i] && InScope(nss[i], next);
          }
        }
      } else {
        assert Progress(nss[1..], next, next, creds);
        ProgressStep(nss, secrets, next, next, creds);
      }
    }
  }

  lemma {:induction false} GitLoopProgress(nss: seq<Namespace>, secrets: Secrets, creds: Secret, plan: Plan)
    requires forall i, j :: 0 <= i < j < |nss| ==> nss[i].name != nss[j].name
    ensures var result := GitLoop(nss, secrets, creds, plan);
            && Progress(nss, secrets, result.0, creds)
            && forall i :: 0 <= i < |nss| && InScope(nss[i], secrets) ==>
                 && (!plan.readable(nss[i].name) ==> result.0[nss[i].name] == secrets[nss[i].name])
                 && (result.1 && plan.readable(nss[i].name) ==> result.0[nss[i].name] == creds)
    decreases |nss|
  {
    if nss != [] {
      var n := nss[0].name;
      var reached := plan.readable(n) && InScope(nss[0], secrets);
      var next := if reached && plan.applies(n).TakesEffect() then secrets[n := creds] else secrets;
      var result := GitLoop(nss, secrets, creds, plan);
      if !reached || plan.applies(n).Succeeds? {
        GitLoopProgress(nss[1..], next, creds, plan);
        ProgressStep(nss, secrets, next, result.0, creds);
        forall i | 0 <= i < |nss| && InScope(nss[i], secrets)
          ensures !plan.readable(nss[i].name) ==> result.0[nss[i].name] == secrets[nss[i].name]
          ensures result.1 && plan.readable(nss[i].name) ==> result.0[nss[i].name] == creds
        {
          if i > 0 {
            assert nss[1..][i - 1] == nss[i] && InScope(nss[i], next);
          }
        }
      } else {
        assert Progress(nss[1..], next, next, creds);
        ProgressStep(nss, secrets, next, next, creds);
      }
    }
  }

  // ---------------------------------------------------------------------------------------------
  // What the secrets hold
  // ---------------------------------------------------------------------------------------------

  /** A managed secret with the pull login under the registry's address and its service addresses. */
  ghost predicate IsPullSecret(env: Env, s: Secret, info: RegistryInfo) {
    && s.managed && s.data.Keys == {info.address} + env.serviceAddresses(info.mode, info.address)
    && forall a :: a in s.data ==> s.data[a] == info.pullUsername + ":" + info.pullPassword
  }

  /** A managed secret with the pull user and its password. */
  ghost predicate IsGitSecret(s: Secret, git: GitServer) {
    && s.managed && s.data.Keys == {"username", "password"}
    && s.data["username"] == git.pullUsername && s.data["password"] == git.pullPassword
  }

  /** The namespace has a secret that Zarf manages, or one and no label that keeps the agent away. */
  ghost predicate Rotatable(ns: Namespace, secrets: Secrets) {
    ns.name in secrets && (!secrets[ns.name].managed ==> ns.agentLabel !in {"skip", "ignore"})
  }

  /** Every rotatable secret is now a pull secret for the registry. */
  ghost predicate PullSecretsSet(env: Env, before: Secrets, after: Secrets, info: RegistryInfo) {
    forall ns :: ns in env.namespaces && Rotatable(ns, before) ==>
      ns.name in after && IsPullSecret(env, after[ns.name], info)
  }

  /** A secret that changed was rotatable and is now a pull secret for the registry. */
  ghost predicate PullSecretsOnly(env: Env, before: Secrets, after: Secrets, info: RegistryInfo) {
    && after.Keys == before.Keys
    && forall n :: n in before && after[n] != before[n] ==>
         IsPullSecret(env, after[n], info) && exists ns :: ns in env.namespaces && ns.name == n && Rotatable(ns, before)
  }

  /** Every rotatable secret that could be read is now a secret for the git server. */
  ghost predicate GitSecretsSet(env: Env, before: Secrets, after: Secrets, git: GitServer, plan: Plan) {
    forall ns :: ns in env.namespaces && Rotatable(ns, before) && plan.readable(ns.name) ==>
      ns.name in after && IsGitSecret(after[ns.name], git)
  }

  ghost predicate GitSecretsOnly(env: Env, before: Secrets, after: Secrets, git: GitServer) {
    && after.Keys == before.Keys
    && forall n :: n in before && after[n] != before[n] ==>
         IsGitSecret(after[n], git) && exists ns :: ns in env.namespaces && ns.name == n && Rotatable(ns, before)
  }

  lemma PullCredsAre(env: Env, info: RegistryInfo)
    ensures IsPullSecret(env, RegistryPullCreds(env, info), info)
  {
  }

  lemma GitCredsAre(git: GitServer)
    ensures IsGitSecret(GitPullCreds(git), git)
  {
  }

  /** What a pass has changed holds its credentials and was rotatable. */
  lemma ChangedAre(env: Env, before: Secrets, after: Secrets, creds: Secret)
    requires Progress(env.namespaces, before, after, creds)
    ensures after.Keys == before.Keys
    ensures forall n :: n in before && after[n] != before[n] ==>
              after[n] == creds && exists ns :: ns in env.namespaces && ns.name == n && Rotatable(ns, before)
  {
    forall n | n in before && after[n] != before[n]
      ensures exists ns :: ns in env.namespaces && ns.name == n && Rotatable(ns, before)
    {
      var i :| 0 <= i < |env.namespaces| && env.namespaces[i].name == n && InScope(env.namespaces[i], before);
      assert env.namespaces[i] in env.namespaces && Rotatable(env.namespaces[i], before);
    }
  }

  lemma PullSecretsMeant(env: Env, before: Secrets, after: Secrets, info: RegistryInfo)
    requires Progress(env.namespaces, before, after, RegistryPullCreds(env, info))
    ensures PullSecretsOnly(env, before, after, info)
  {
    PullCredsAre(env, info);
    ChangedAre(env, before, after, RegistryPullCreds(env, info));
  }

  lemma PullSecretsHeld(env: Env, before: Secrets, after: Secrets, info: RegistryInfo)
    requires AllHold(env, before, after, RegistryPullCreds(env, info))
    ensures PullSecretsSet(env, before, after, info)
  {
    PullCredsAre(env, info);
  }

  lemma GitSecretsMeant(env: Env, before: Secrets, after: Secrets, git: GitServer)
    requires Progress(env.namespaces, before, after, GitPullCreds(git))
    ensures GitSecretsOnly(env, before, after, git)
  {
    GitCredsAre(git);
    ChangedAre(env, before, after, GitPullCreds(git));
  }

  lemma GitSecretsHeld(env: Env, before: Secrets, after: Secrets, git: GitServer, plan: Plan)
    requires ReadableHold(env, before, after, GitPullCreds(git), plan)
    ensures GitSecretsSet(env, before, after, git, plan)
  {
    GitCredsAre(git);
  }

  /** The push credentials have no part in the pull secrets. */
  lemma PushCredentialsDoNotMatter(env: Env, a: RegistryInfo, b: RegistryInfo)
    requires a == b.(pushUsername := a.pushUsername, pushPassword := a.pushPassword)
    ensures RegistryPullCreds(env, a) == RegistryPullCreds(env, b)
    ensures forall s :: IsPullSecret(env, s, a) <==> IsPullSecret(env, s, b)
  {
  }

  // ---------------------------------------------------------------------------------------------
  // Registry rotation
  // ---------------------------------------------------------------------------------------------

  /** Every secret that was in scope holds `creds`. */
  ghost predicate AllHold(env: Env, scope: Secrets, secrets: Secrets, creds: Secret) {
    forall i :: 0 <= i < |env.namespaces| && InScope(env.namespaces[i], scope) ==>
      env.namespaces[i].name in secrets && secrets[env.namespaces[i].name] == creds
  }

  /** No remote call of the pass fails. */
  ghost predicate Smooth(plan: Plan) {
    && plan.list && plan.connect && plan.deploy.Succeeds? && plan.save.Succeeds?
    && plan.pullUser.Succeeds? && plan.pushUser.Succeeds?
    && (forall n :: plan.readable(n)) && (forall n :: plan.generates(n)) && (forall n :: plan.applies(n).Succeeds?)
  }

  lemma {:induction false} SmoothImageLoop(nss: seq<Namespace>, secrets: Secrets, creds: Secret, plan: Plan)
    requires Smooth(plan)
    ensures ImageLoop(nss, secrets, creds, plan).1
    decreases |nss|
  {
    if nss != [] {
      var next := if InScope(nss[0], secrets) then secrets[nss[0].name := creds] else secrets;
      SmoothImageLoop(nss[1..], next, creds, plan);
    }
  }

  /** What one pass, successful or broken off at any call, makes of the world. */
  ghost predicate RegistryCommitted(env: Env, w: World, w': World, s: ZarfState, updateRegistry: bool, plan: Plan,
      ok: bool)
  {
    var creds := RegistryPullCreds(env, s.registry);
    && w'.gitSecrets == w.gitSecrets && w'.users == w.users
    && Progress(env.namespaces, w.imageSecrets, w'.imageSecrets, creds)
    && (w'.deployment == w.deployment || (updateRegistry && w'.deployment == s.registry))
    && (w'.saved == w.saved || w'.saved == s)
    && (w'.saved != w.saved || ok ==>
          && AllHold(env, w.imageSecrets, w'.imageSecrets, creds)
          && (updateRegistry ==> w'.deployment == s.registry))
    && (ok ==> w'.saved == s)
    && (Smooth(plan) ==> ok)
  }

  /**
   * One pass, however it ends, saves the new state only after every in-scope pull secret and, where it
   * is updated at all, the deployment carry the new credentials; and it succeeds unless a call fails.
   */
  lemma RegistryCommitsLast(env: Env, w: World, s: ZarfState, updateRegistry: bool, plan: Plan)
    ensures var (w', ok) := RegistryPass(env, w, s, updateRegistry, plan);
            RegistryCommitted(env, w, w', s, updateRegistry, plan, ok)
  {
    var deploys := updateRegistry && plan.deploy.TakesEffect();
    ImageSecretsCommitLast(env, if deploys then w.(deployment := s.registry) else w, s, plan);
  }

  lemma ImageSecretsCommitLast(env: Env, w: World, s: ZarfState, plan: Plan)
    ensures var (w', ok) := ImageSecretsPass(env, w, s, plan);
            var creds := RegistryPullCreds(env, s.registry);
            && w' == w.(imageSecrets := w'.imageSecrets, saved := w'.saved)
            && Progress(env.namespaces, w.imageSecrets, w'.imageSecrets, creds)
            && (w'.saved == w.saved || w'.saved == s) && (ok ==> w'.saved == s)
            && (w'.saved != w.saved || ok ==> AllHold(env, w.imageSecrets, w'.imageSecrets, creds))
            && (Smooth(plan) ==> ok)
  {
    var creds := RegistryPullCreds(env, s.registry);
    ImageLoopProgress(env.namespaces, w.imageSecrets, creds, plan);
    if Smooth(plan) {
      SmoothImageLoop(env.namespaces, w.imageSecrets, creds, plan);
    }
  }

  /** What each outcome of a registry rotation says about the world it leaves. */
  ghost predicate RegistryRotated(env: Env, w: World, w': World, oldState: ZarfState, newState: ZarfState,
      forward: Plan, back: Plan, outcome: Outcome)
  {
    && w'.gitSecrets == w.gitSecrets && w'.users == w.users && w'.imageSecrets.Keys == w.imageSecrets.Keys
    && (outcome.Updated? ==>
          && w'.saved == newState
          && AllHold(env, w.imageSecrets, w'.imageSecrets, RegistryPullCreds(env, newState.registry))
          && w'.deployment == if newState.registry.mode != External then newState.registry else w.deployment)
    && (outcome.RolledBack? ==>
          && w'.saved == oldState
          && AllHold(env, w.imageSecrets, w'.imageSecrets, RegistryPullCreds(env, oldState.registry))
          && w'.deployment ==
               if newState.registry.mode == External then w.deployment
               else if oldState.registry.mode != External then oldState.registry
               else if forward.deploy.TakesEffect() then newState.registry
               else w.deployment)
    && (Smooth(forward) ==> outcome.Updated?)
    && (Smooth(back) ==> !outcome.Inconsistent?)
    && forall i :: 0 <= i < |env.namespaces| && !InScope(env.namespaces[i], w.imageSecrets)
                   && env.namespaces[i].name in w.imageSecrets
         ==> w'.imageSecrets[env.namespaces[i].name] == w.imageSecrets[env.namespaces[i].name]
  }

  /**
   * A registry rotation that reports a rollback has restored, from whatever point the forward pass
   * reached, the saved state and every in-scope pull secret; the deployment is the old one again, or
   * was never touched, except that a switch from an external to an internal registry is not undone.
   */
  lemma RegistryRotation(env: Env, w: World, oldState: ZarfState, newState: ZarfState, forward: Plan, back: Plan)
    ensures var (w', outcome) := RotateRegistry(env, w, oldState, newState, forward, back);
            RegistryRotated(env, w, w', oldState, newState, forward, back, outcome)
  {
    var newCreds, oldCreds := RegistryPullCreds(env, newState.registry), RegistryPullCreds(env, oldState.registry);
    var redeploy := oldState.registry.IsInternal() && newState.registry.IsInternal();
    RegistryCommitsLast(env, w, newState, newState.registry.IsInternal(), forward);
    var (w1, ok) := RegistryPass(env, w, newState, newState.registry.IsInternal(), forward);
    ProgressKeepsScope(env.namespaces, w.imageSecrets, w1.imageSecrets, newCreds);
    OutOfScopeUntouched(env, w.imageSecrets, w1.imageSecrets, newCreds);
    if !ok {
      RegistryCommitsLast(env, w1, oldState, redeploy, back);
      var (w2, _) := RegistryPass(env, w1, oldState, redeploy, back);
      OutOfScopeUntouched(env, w1.imageSecrets, w2.imageSecrets, oldCreds);
    }
  }

  lemma OutOfScopeUntouched(env: Env, before: Secrets, after: Secrets, creds: Secret)
    requires Progress(env.namespaces, before, after, creds)
    ensures forall i :: 0 <= i < |env.namespaces| && !InScope(env.namespaces[i], before) ==>
              env.namespaces[i].name in before ==>
                after[env.namespaces[i].name] == before[env.namespaces[i].name]
  {
  }

  /** The deployment switched to an internal registry is not switched back by the rollback. */
  lemma InternalDeploymentStays()
    returns (env: Env, w: World, oldState: ZarfState, newState: ZarfState, forward: Plan, back: Plan)
    ensures w.saved == oldState && w.deployment == oldState.registry
    ensures var (w', outcome) := RotateRegistry(env, w, oldState, newState, forward, back);
            outcome.RolledBack? && w'.saved == oldState && w'.deployment == newState.registry != oldState.registry
  {
    env := Surroundings([], (_, _) => {});
    var git := GitServer("", "", "", "", "");
    oldState := ZarfState(RegistryInfo("r", External, "", "", "", ""), git);
    newState := ZarfState(RegistryInfo("n", NodePort, "", "", "", ""), git);
    w := World(oldState.registry, map[], map[], map[], oldState);
    back := Plan(true, _ => true, _ => true, _ => Succeeds, Succeeds, true, Succeeds, Succeeds, Succeeds);
    forward := back.(save := FailsBefore);
  }

  // ---------------------------------------------------------------------------------------------
  // Git rotation
  // ---------------------------------------------------------------------------------------------

  /** The update of the pull user does not take away the password that the update of the push user needs. */
  predicate SecondAuthorised(from: GitServer, to: GitServer) {
    to.pullUsername != from.pushUsername || to.pullPassword == from.pushPassword
  }

  /**
   * What the two user updates make of the users, for any servers and users: exactly when they succeed,
   * that the pull user comes first, and that nobody else is touched.
   */
  ghost predicate UsersUpdated(users: map<string, string>, users': map<string, string>, from: GitServer,
      to: GitServer, plan: Plan, ok: bool)
  {
    && users'.Keys == users.Keys
    && (ok <==>
          && plan.connect && plan.pullUser.Succeeds? && plan.pushUser.Succeeds?
          && Authorised(users, from, to.pullUsername) && to.pushUsername in users && SecondAuthorised(from, to))
    && (ok ==> users' == users[to.pullUsername := to.pullPassword][to.pushUsername := to.pushPassword])
    && (!Authorised(users, from, to.pullUsername) ==> users' == users)
    && (forall u :: u in users && u != to.pullUsername && u != to.pushUsername ==> users'[u] == users[u])
    && (forall u :: u in users && users'[u] != users[u] ==>
          || (u == to.pullUsername && users'[u] == to.pullPassword)
          || (u == to.pushUsername && users'[u] == to.pushPassword))
    && (to.pushUsername in users && to.pushUsername != to.pullUsername ==>
          users'[to.pushUsername] == users[to.pushUsername] || users'[to.pullUsername] == to.pullPassword)
  }

  lemma UserPassUpdates(users: map<string, string>, from: GitServer, to: GitServer, plan: Plan)
    ensures var (users', ok) := UserPass(users, from, to, plan); UsersUpdated(users, users', from, to, plan, ok)
  {
  }

  /** The two user updates of a pass can be authenticated; a pass to an external server needs none. */
  predicate UsersAllowed(users: map<string, string>, from: GitServer, to: GitServer) {
    to.IsInternal() ==>
      Authorised(users, from, to.pullUsername) && to.pushUsername in users && SecondAuthorised(from, to)
  }

  /** The forward pass changed the new push user's password, its last step before the secrets. */
  ghost predicate PushUserChanged(w: World, oldState: ZarfState, newState: ZarfState, forward: Plan) {
    && newState.git.IsInternal() && UsersAllowed(w.users, oldState.git, newState.git)
    && forward.connect && forward.pullUser.Succeeds? && forward.pushUser.TakesEffect()
  }

  /** The forward pass changed the new pull user's password. */
  ghost predicate PullUserChanged(w: World, oldState: ZarfState, newState: ZarfState, forward: Plan) {
    && newState.git.IsInternal() && Authorised(w.users, oldState.git, newState.git.pullUsername)
    && forward.connect && forward.pullUser.TakesEffect()
  }

  /** The password that Gitea has for the new push user after the forward pass. */
  ghost function PushPassword(w: World, oldState: ZarfState, newState: ZarfState, forward: Plan): string
    requires newState.git.pushUsername in w.users
  {
    if PushUserChanged(w, oldState, newState, forward) then newState.git.pushPassword
    else if newState.git.pullUsername == newState.git.pushUsername && PullUserChanged(w, oldState, newState, forward)
    then newState.git.pullPassword
    else w.users[newState.git.pushUsername]
  }

  /** Apart from secrets it cannot read, no remote call of the pass fails. */
  ghost predicate SmoothWrites(plan: Plan) {
    && plan.list && plan.connect && plan.save.Succeeds? && plan.pullUser.Succeeds? && plan.pushUser.Succeeds?
    && forall n :: plan.applies(n).Succeeds?
  }

  lemma {:induction false} SmoothGitLoop(nss: seq<Namespace>, secrets: Secrets, creds: Secret, plan: Plan)
    requires SmoothWrites(plan)
    ensures GitLoop(nss, secrets, creds, plan).1
    decreases |nss|
  {
    if nss != [] {
      var reached := plan.readable(nss[0].name) && InScope(nss[0], secrets);
      SmoothGitLoop(nss[1..], if reached then secrets[nss[0].name := creds] else secrets, creds, plan);
    }
  }

  /** The Gitea users after the forward pass. */
  ghost function UsersAfter(w: World, oldState: ZarfState, newState: ZarfState, forward: Plan): map<string, string> {
    if newState.git.IsInternal() then UserPass(w.users, oldState.git, newState.git, forward).0 else w.users
  }

  /** Where the forward pass leaves the Gitea users, for any two states and any failures. */
  lemma UserPassResult(w: World, oldState: ZarfState, newState: ZarfState, forward: Plan)
    ensures var users, to := UsersAfter(w, oldState, newState, forward), newState.git;
            && users.Keys == w.users.Keys
            && (to.pushUsername in w.users ==>
                  users[to.pushUsername] == PushPassword(w, oldState, newState, forward))
            && (to.pullUsername in w.users && to.pullUsername != to.pushUsername ==>
                  users[to.pullUsername] == if PullUserChanged(w, oldState, newState, forward) then to.pullPassword
                                            else w.users[to.pullUsername])
            && (forall u :: u in w.users && u != to.pullUsername && u != to.pushUsername ==> users[u] == w.users[u])
    ensures newState.git.IsInternal() ==>
              (UserPass(w.users, oldState.git, newState.git, forward).1 <==>
                 PushUserChanged(w, oldState, newState, forward) && forward.pushUser.Succeeds?)
  {
  }

  /** Every secret that was in scope and could be read holds `creds`. */
  ghost predicate ReadableHold(env: Env, scope: Secrets, secrets: Secrets, creds: Secret, plan: Plan) {
    forall i :: 0 <= i < |env.namespaces| && InScope(env.namespaces[i], scope) ==>
      plan.readable(env.namespaces[i].name) ==>
        env.namespaces[i].name in secrets && secrets[env.namespaces[i].name] == creds
  }

  /** Both users carry the passwords of `to`. */
  ghost predicate UsersSet(users: map<string, string>, users': map<string, string>, to: GitServer) {
    users' == users[to.pullUsername := to.pullPassword][to.pushUsername := to.pushPassword]
  }

  /** What one git pass, successful or broken off at any call, makes of the world. */
  ghost predicate GitCommitted(
    env: Env, w: World, w': World, from: ZarfState, to: ZarfState, plan: Plan, ok: bool)
  {
    && w'.imageSecrets == w.imageSecrets && w'.deployment == w.deployment
    && (if to.git.IsInternal() then exists done :: UsersUpdated(w.users, w'.users, from.git, to.git, plan, done)
        else w'.users == w.users)
    && Progress(env.namespaces, w.gitSecrets, w'.gitSecrets, GitPullCreds(to.git))
    && (w'.gitSecrets != w.gitSecrets && to.git.IsInternal() ==> UsersSet(w.users, w'.users, to.git))
    && (w'.saved == w.saved || w'.saved == to)
    && (ok ==> w'.saved == to)
    && (w'.saved != w.saved || ok ==>
          && (to.git.IsInternal() ==> UsersSet(w.users, w'.users, to.git))
          && ReadableHold(env, w.gitSecrets, w'.gitSecrets, GitPullCreds(to.git), plan))
  }

  /** A git pass saves the new state only after the users and every in-scope secret it could read are new. */
  lemma GitCommitsLast(env: Env, w: World, from: ZarfState, to: ZarfState, plan: Plan)
    ensures var (w', ok) := GitPass(env, w, from, to, plan); GitCommitted(env, w, w', from, to, plan, ok)
  {
    var users := if to.git.IsInternal() then UserPass(w.users, from.git, to.git, plan).0 else w.users;
    SecretsCommitLast(env, w.(users := users), to, plan);
    if to.git.IsInternal() {
      UserPassUpdates(w.users, from.git, to.git, plan);
      var (users, done) := UserPass(w.users, from.git, to.git, plan);
      assert UsersUpdated(w.users, users, from.git, to.git, plan, done);
    }
  }

  lemma SecretsCommitLast(env: Env, w: World, to: ZarfState, plan: Plan)
    ensures var (w', ok) := GitSecretsPass(env, w, to, plan);
            && w' == w.(gitSecrets := w'.gitSecrets, saved := w'.saved)
            && Progress(env.namespaces, w.gitSecrets, w'.gitSecrets, GitPullCreds(to.git))
            && (w'.saved == w.saved || w'.saved == to) && (ok ==> w'.saved == to)
            && (w'.saved != w.saved || ok ==>
                  ReadableHold(env, w.gitSecrets, w'.gitSecrets, GitPullCreds(to.git), plan))
  {
    GitLoopProgress(env.namespaces, w.gitSecrets, GitPullCreds(to.git), plan);
  }

  /** A pass without failing calls succeeds exactly when its user updates are allowed; if not, only users change. */
  lemma GitPassSucceedsIff(env: Env, w: World, from: ZarfState, to: ZarfState, plan: Plan)
    ensures var (w', ok) := GitPass(env, w, from, to, plan);
            && (SmoothWrites(plan) ==> (ok <==> UsersAllowed(w.users, from.git, to.git)))
            && (!UsersAllowed(w.users, from.git, to.git) ==>
                  !ok && w'.gitSecrets == w.gitSecrets && w'.saved == w.saved)
            && (ok && to.git.IsInternal() ==> UsersSet(w.users, w'.users, to.git))
            && (!to.git.IsInternal() ==> w'.users == w.users)
  {
    if SmoothWrites(plan) {
      SmoothGitLoop(env.namespaces, w.gitSecrets, GitPullCreds(to.git), plan);
    }
  }

  /**
   * The forward pass of a git rotation to an internal server does nothing beyond the users until the push
   * user's password is changed; without failing calls it succeeds unless a user update is refused.
   */
  lemma GitForwardPass(env: Env, w: World, oldState: ZarfState, newState: ZarfState, forward: Plan)
    ensures var (w1, ok) := GitPass(env, w, oldState, newState, forward);
            && GitCommitted(env, w, w1, oldState, newState, forward, ok)
            && w1.users == UsersAfter(w, oldState, newState, forward)
            && (newState.git.IsInternal() && !PushUserChanged(w, oldState, newState, forward) ==>
                  !ok && w1.gitSecrets == w.gitSecrets && w1.saved == w.saved)
            && (SmoothWrites(forward) ==> (ok <==> UsersAllowed(w.users, oldState.git, newState.git)))
  {
    GitCommitsLast(env, w, oldState, newState, forward);
    UserPassResult(w, oldState, newState, forward);
    GitPassSucceedsIff(env, w, oldState, newState, forward);
  }

  /**
   * The rollback can authenticate. One to an internal server uses the new push credentials: Gitea must have
   * that user on that password by then, and the rollback's first update must leave it so.
   */
  ghost predicate RollbackPossible(w: World, oldState: ZarfState, newState: ZarfState, forward: Plan) {
    oldState.git.IsInternal() ==>
      && newState.git.pushUsername in w.users
      && PushPassword(w, oldState, newState, forward) == newState.git.pushPassword
      && oldState.git.pullUsername in w.users && oldState.git.pushUsername in w.users
      && SecondAuthorised(newState.git, oldState.git)
  }

  lemma RollbackPossibleMeans(w: World, oldState: ZarfState, newState: ZarfState, forward: Plan)
    ensures RollbackPossible(w, oldState, newState, forward) <==>
              UsersAllowed(UsersAfter(w, oldState, newState, forward), newState.git, oldState.git)
  {
    UserPassResult(w, oldState, newState, forward);
  }

  /**
   * After a forward failure, a rollback whose own calls all go through succeeds exactly when it can
   * authenticate. Otherwise the double failure is reported, and the rollback has not touched secrets and
   * saved state; if the forward pass stopped at the users they are still the old ones.
   */
  lemma GitRollbackSucceedsIff(
    env: Env, w: World, oldState: ZarfState, newState: ZarfState, forward: Plan, back: Plan)
    requires !GitPass(env, w, oldState, newState, forward).1
    ensures var (w1, _) := GitPass(env, w, oldState, newState, forward);
            var (w', outcome) := RotateGit(env, w, oldState, newState, forward, back);
            && (SmoothWrites(back) ==> (outcome.RolledBack? <==> RollbackPossible(w, oldState, newState, forward)))
            && (!RollbackPossible(w, oldState, newState, forward) ==>
                  outcome.Inconsistent? && w'.gitSecrets == w1.gitSecrets && w'.saved == w1.saved)
            && (newState.git.IsInternal() && !PushUserChanged(w, oldState, newState, forward) ==>
                  w1.gitSecrets == w.gitSecrets && w1.saved == w.saved)
  {
    GitForwardPass(env, w, oldState, newState, forward);
    RollbackPossibleMeans(w, oldState, newState, forward);
    GitPassSucceedsIff(env, GitPass(env, w, oldState, newState, forward).0, newState, oldState, back);
  }

  /**
   * Both servers internal, the push user kept and on its old password: the rollback is possible exactly
   * when the push user's password was changed, or is the new one all the same, and neither pass locks
   * itself out.
   */
  lemma RollbackOfSameUser(w: World, oldState: ZarfState, newState: ZarfState, forward: Plan)
    requires GitSetting(w, oldState, newState)
    requires oldState.git.pullUsername in w.users && oldState.git.pullUsername != oldState.git.pushUsername
    requires newState.git.pullUsername in w.users && newState.git.pullUsername != newState.git.pushUsername
    ensures RollbackPossible(w, oldState, newState, forward) <==>
              || (forward.connect && forward.pullUser.Succeeds? && forward.pushUser.TakesEffect())
              || oldState.git.pushPassword == newState.git.pushPassword
  {
  }

  /** Both servers internal, the push user kept and currently on its old password. */
  ghost predicate GitSetting(w: World, oldState: ZarfState, newState: ZarfState) {
    && oldState.git.IsInternal() && newState.git.IsInternal()
    && oldState.git.pushUsername == newState.git.pushUsername
    && oldState.git.pushUsername in w.users && w.users[oldState.git.pushUsername] == oldState.git.pushPassword
  }

  /**
   * If the pull user is the push user and gets a password other than the push user's, the first update
   * locks out the second one and, unless by chance it is the new push password, the rollback: the push
   * user is left with a password that neither state holds for it.
   */
  lemma SharedUserIsLockedOut(
    env: Env, w: World, oldState: ZarfState, newState: ZarfState, forward: Plan, back: Plan)
    requires GitSetting(w, oldState, newState)
    requires newState.git.pullUsername == newState.git.pushUsername
    requires forward.connect && forward.pullUser.TakesEffect()
    requires newState.git.pullPassword != oldState.git.pushPassword
    requires newState.git.pullPassword != newState.git.pushPassword
    ensures var (w', outcome) := RotateGit(env, w, oldState, newState, forward, back);
            && outcome.Inconsistent? && w'.gitSecrets == w.gitSecrets && w'.saved == w.saved
            && w'.users == w.users[newState.git.pushUsername := newState.git.pullPassword]
  {
    GitForwardPass(env, w, oldState, newState, forward);
    GitRollbackSucceedsIff(env, w, oldState, newState, forward, back);
  }

  /**
   * From an internal to an external server: the forward pass leaves Gitea alone, but the rollback updates
   * its users and authenticates as the external server's push user. It is refused exactly unless Gitea
   * happens to have that user, on that password.
   */
  lemma RollbackFromExternalIff(
    env: Env, w: World, oldState: ZarfState, newState: ZarfState, forward: Plan, back: Plan)
    requires oldState.git.IsInternal() && !newState.git.IsInternal()
    requires !GitPass(env, w, oldState, newState, forward).1 && SmoothWrites(back)
    ensures RotateGit(env, w, oldState, newState, forward, back).1.RolledBack? <==>
              && Authorised(w.users, newState.git, oldState.git.pullUsername)
              && oldState.git.pushUsername in w.users && SecondAuthorised(newState.git, oldState.git)
  {
    GitRollbackSucceedsIff(env, w, oldState, newState, forward, back);
  }

  /** No user but those that the old state names was touched, and those were on their old passwords. */
  ghost predicate OldUsersOnly(users: map<string, string>, oldGit: GitServer, newGit: GitServer) {
    && oldGit.IsInternal() && UsersSet(users, users, oldGit)
    && (newGit.IsInternal() ==>
          {newGit.pullUsername, newGit.pushUsername} <= {oldGit.pullUsername, oldGit.pushUsername})
  }

  /**
   * A git rotation that reports a rollback has put the saved state and every in-scope secret it could read
   * back to the old credentials, and the users that an internal old server names; users of Gitea are left
   * as the forward pass left them if the old server is external.
   */
  ghost predicate GitRestored(
    env: Env, w: World, w1: World, w': World, oldState: ZarfState, newState: ZarfState, back: Plan)
  {
    && w'.saved == oldState && w'.imageSecrets == w.imageSecrets && w'.deployment == w.deployment
    && (if oldState.git.IsInternal() then UsersSet(w1.users, w'.users, oldState.git) else w'.users == w1.users)
    && (OldUsersOnly(w.users, oldState.git, newState.git) ==> w'.users == w.users)
    && forall i :: 0 <= i < |env.namespaces| && InScope(env.namespaces[i], w.gitSecrets) ==>
         var n := env.namespaces[i].name;
         && n in w'.gitSecrets && n in w1.gitSecrets
         && w'.gitSecrets[n] == if back.readable(n) then GitPullCreds(oldState.git) else w1.gitSecrets[n]
  }

  /** A successful pass replaces exactly the in-scope secrets it can read, and saves. */
  lemma GitPassSecrets(env: Env, w: World, from: ZarfState, to: ZarfState, plan: Plan)
    requires GitPass(env, w, from, to, plan).1
    ensures var (w', _) := GitPass(env, w, from, to, plan);
            && w'.saved == to && w'.imageSecrets == w.imageSecrets && w'.deployment == w.deployment
            && forall i :: 0 <= i < |env.namespaces| && InScope(env.namespaces[i], w.gitSecrets) ==>
                 var n := env.namespaces[i].name;
                 && n in w'.gitSecrets
                 && w'.gitSecrets[n] == if plan.readable(n) then GitPullCreds(to.git) else w.gitSecrets[n]
  {
    GitLoopProgress(env.namespaces, w.gitSecrets, GitPullCreds(to.git), plan);
  }

  lemma GitRolledBack(env: Env, w: World, oldState: ZarfState, newState: ZarfState, forward: Plan, back: Plan)
    requires RotateGit(env, w, oldState, newState, forward, back).1.RolledBack?
    ensures var (w', _) := RotateGit(env, w, oldState, newState, forward, back);
            var (w1, _) := GitPass(env, w, oldState, newState, forward);
            GitRestored(env, w, w1, w', oldState, newState, back)
  {
    GitForwardPass(env, w, oldState, newState, forward);
    UserPassResult(w, oldState, newState, forward);
    var (w1, _) := GitPass(env, w, oldState, newState, forward);
    var (w', _) := RotateGit(env, w, oldState, newState, forward, back);
    GitPassSucceedsIff(env, w1, newState, oldState, back);
    GitPassSecrets(env, w1, newState, oldState, back);
    ProgressKeepsScope(env.namespaces, w.gitSecrets, w1.gitSecrets, GitPullCreds(newState.git));
    if OldUsersOnly(w.users, oldState.git, newState.git) {
      UsersBack(w.users, w1.users, w'.users, oldState.git, newState.git);
    }
  }

  lemma UsersBack(users: map<string, string>, users1: map<string, string>, users2: map<string, string>,
                  oldGit: GitServer, newGit: GitServer)
    requires OldUsersOnly(users, oldGit, newGit) && UsersSet(users1, users2, oldGit) && users1.Keys == users.Keys
    requires newGit.IsInternal() ==>
               forall u :: u in users && u != newGit.pullUsername && u != newGit.pushUsername ==> users1[u] == users[u]
    requires !newGit.IsInternal() ==> users1 == users
    ensures users2 == users
  {
    assert oldGit.pullUsername in users && oldGit.pushUsername in users;
    forall u | u in users ensures users2[u] == users[u] {
      var reset := users[oldGit.pullUsername := oldGit.pullPassword][oldGit.pushUsername := oldGit.pushPassword];
      assert reset[u] == users[u];
      if u != oldGit.pullUsername && u != oldGit.pushUsername && newGit.IsInternal() {
        assert newGit.pullUsername in {oldGit.pullUsername, oldGit.pushUsername};
        assert newGit.pushUsername in {oldGit.pullUsername, oldGit.pushUsername};
      }
    }
  }

  /** What each outcome of a git rotation, between any two states, says about the world it leaves. */
  ghost predicate GitRotated(env: Env, w: World, w': World, oldState: ZarfState, newState: ZarfState,
                             forward: Plan, back: Plan, outcome: Outcome)
  {
    var possible := RollbackPossible(w, oldState, newState, forward);
    && (outcome.Updated? ==>
          && w'.saved == newState && (newState.git.IsInternal() ==> UsersSet(w.users, w'.users, newState.git))
          && ReadableHold(env, w.gitSecrets, w'.gitSecrets, GitPullCreds(newState.git), forward))
    && (outcome.RolledBack? ==>
          && possible
          && GitRestored(env, w, GitPass(env, w, oldState, newState, forward).0, w', oldState, newState, back))
    && (!outcome.Updated? && SmoothWrites(back) ==> (outcome.RolledBack? <==> possible))
    && (SmoothWrites(forward) ==> (outcome.Updated? <==> UsersAllowed(w.users, oldState.git, newState.git)))
    && (!possible && newState.git.IsInternal() && !PushUserChanged(w, oldState, newState, forward) ==>
          outcome.Inconsistent? && w'.gitSecrets == w.gitSecrets && w'.saved == w.saved)
  }

  lemma GitRotation(env: Env, w: World, oldState: ZarfState, newState: ZarfState, forward: Plan, back: Plan)
    ensures var (w', outcome) := RotateGit(env, w, oldState, newState, forward, back);
            GitRotated(env, w, w', oldState, newState, forward, back, outcome)
  {
    GitForwardPass(env, w, oldState, newState, forward);
    if !GitPass(env, w, oldState, newState, forward).1 {
      GitRollbackSucceedsIff(env, w, oldState, newState, forward, back);
      if RotateGit(env, w, oldState, newState, forward, back).1.RolledBack? {
        GitRolledBack(env, w, oldState, newState, forward, back);
      }
    }
  }

  /** If Gitea cannot be reached on the way forward, a rollback that reaches it is still refused. */
  lemma DoubleFailure()
    returns (env: Env, w: World, oldState: ZarfState, newState: ZarfState, forward: Plan, back: Plan)
    ensures GitSetting(w, oldState, newState) && w.saved == oldState && Smooth(back)
    ensures RotateGit(env, w, oldState, newState, forward, back) == (w, Inconsistent)
  {
    env := Surroundings([], (_, _) => {});
    var registry := RegistryInfo("r", External, "", "", "", "");
    oldState := ZarfState(registry, GitServer(INTERNAL_GIT_URL, "pull", "a", "push", "b"));
    newState := ZarfState(registry, GitServer(INTERNAL_GIT_URL, "pull", "c", "push", "d"));
    w := World(registry, map[], map[], map["pull" := "a", "push" := "b"], oldState);
    back := Plan(true, _ => true, _ => true, _ => Succeeds, Succeeds, true, Succeeds, Succeeds, Succeeds);
    forward := back.(connect := false);
    assert "b"[0] != "d"[0];
  }

  /** A flawless rollback from an external server is refused, and the secret stays on the external credentials. */
  lemma ExternalSecretStays()
    returns (env: Env, w: World, oldState: ZarfState, newState: ZarfState, forward: Plan, back: Plan)
    ensures oldState.git.IsInternal() && !newState.git.IsInternal()
    ensures w.saved == oldState && Smooth(back)
    ensures w.gitSecrets == map["app" := GitPullCreds(oldState.git)]
    ensures var (w', outcome) := RotateGit(env, w, oldState, newState, forward, back);
            outcome.Inconsistent? && w'.saved == oldState && w'.gitSecrets == map["app" := GitPullCreds(newState.git)]
  {
    env := Surroundings([Namespace("app", "")], (_, _) => {});
    var registry := RegistryInfo("r", External, "", "", "", "");
    oldState := ZarfState(registry, GitServer(INTERNAL_GIT_URL, "pull", "a", "push", "b"));
    newState := ZarfState(registry, GitServer("git", "reader", "c", "writer", "d"));
    w := World(registry, map[], map["app" := GitPullCreds(oldState.git)], map["pull" := "a", "push" := "b"], oldState);
    back := Plan(true, _ => true, _ => true, _ => Succeeds, Succeeds, true, Succeeds, Succeeds, Succeeds);
    forward := back.(save := FailsBefore);
    var rotated := map["app" := GitPullCreds(newState.git)];
    assert |newState.git.address| == 3 && newState.git.address != INTERNAL_GIT_URL;
    assert env.namespaces[1..] == [] && w.gitSecrets["app" := GitPullCreds(newState.git)] == rotated;
    assert GitLoop(env.namespaces, w.gitSecrets, GitPullCreds(newState.git), forward) == (rotated, true);
    var (w1, ok) := GitPass(env, w, oldState, newState, forward);
    assert !ok && w1 == w.(gitSecrets := rotated);
    assert "writer"[0] != "p"[0];
    assert newState.git.pushUsername !in w1.users;
  }

  // ---------------------------------------------------------------------------------------------
  // Which git secrets a rotation leaves new
  // ---------------------------------------------------------------------------------------------

  /** The loop gets to the i-th namespace and replaces its secret. */
  ghost predicate Replaces(nss: seq<Namespace>, secrets: Secrets, plan: Plan, i: nat)
    requires i < |nss|
  {
    && InScope(nss[i], secrets) && plan.readable(nss[i].name) && plan.applies(nss[i].name).TakesEffect()
    && forall j :: 0 <= j < i && InScope(nss[j], secrets) && plan.readable(nss[j].name) ==>
        plan.applies(nss[j].name).Succeeds?
  }

  lemma {:induction false} GitLoopExact(nss: seq<Namespace>, secrets: Secrets, creds: Secret, plan: Plan, i: nat)
    requires forall i, j :: 0 <= i < j < |nss| ==> nss[i].name != nss[j].name
    requires i < |nss| && nss[i].name in secrets
    ensures var result := GitLoop(nss, secrets, creds, plan).0;
            && nss[i].name in result
            && result[nss[i].name] == if Replaces(nss, secrets, plan, i) then creds else secrets[nss[i].name]
    decreases |nss|
  {
    var n, rest := nss[0].name, nss[1..];
    var reached := plan.readable(n) && InScope(nss[0], secrets);
    var next := if reached && plan.applies(n).TakesEffect() then secrets[n := creds] else secrets;
    assert forall j :: 0 < j < |nss| ==> rest[j - 1] == nss[j] && (InScope(nss[j], next) <==> InScope(nss[j], secrets));
    if !reached || plan.applies(n).Succeeds? {
      if i > 0 {
        GitLoopExact(rest, next, creds, plan, i - 1);
        ReplacesLater(nss, secrets, next, plan, i);
      } else {
        GitLoopLeaves(rest, next, creds, plan, n);
      }
    }
  }

  lemma ReplacesLater(nss: seq<Namespace>, secrets: Secrets, next: Secrets, plan: Plan, i: nat)
    requires 0 < i < |nss|
    requires forall j :: 0 < j < |nss| ==> (InScope(nss[j], next) <==> InScope(nss[j], secrets))
    requires InScope(nss[0], secrets) && plan.readable(nss[0].name) ==> plan.applies(nss[0].name).Succeeds?
    ensures Replaces(nss, secrets, plan, i) <==> Replaces(nss[1..], next, plan, i - 1)
  {
    var rest := nss[1..];
    assert forall j :: 0 <= j < |rest| ==> rest[j] == nss[j + 1];
    if Replaces(nss, secrets, plan, i) {
      forall j | 0 <= j < i - 1 && InScope(rest[j], next) && plan.readable(rest[j].name)
        ensures plan.applies(rest[j].name).Succeeds?
      {
        assert nss[j + 1] == rest[j];
      }
    }
    if Replaces(rest, next, plan, i - 1) {
      forall j | 0 <= j < i && InScope(nss[j], secrets) && plan.readable(nss[j].name)
        ensures plan.applies(nss[j].name).Succeeds?
      {
        if j > 0 {
          assert rest[j - 1] == nss[j];
        }
      }
    }
  }

  lemma {:induction false} GitLoopLeaves(nss: seq<Namespace>, secrets: Secrets, creds: Secret, plan: Plan, n: string)
    requires (forall j :: 0 <= j < |nss| ==> nss[j].name != n) && n in secrets
    ensures n in GitLoop(nss, secrets, creds, plan).0 && GitLoop(nss, secrets, creds, plan).0[n] == secrets[n]
    decreases |nss|
  {
    if nss != [] {
      var reached := plan.readable(nss[0].name) && InScope(nss[0], secrets);
      var next := if reached && plan.applies(nss[0].name).TakesEffect() then secrets[nss[0].name := creds] else secrets;
      GitLoopLeaves(nss[1..], next, creds, plan, n);
    }
  }

  /** The forward pass gets to the secrets. */
  ghost predicate SecretsReached(w: World, oldState: ZarfState, newState: ZarfState, forward: Plan) {
    && forward.list
    && (newState.git.IsInternal() ==> PushUserChanged(w, oldState, newState, forward) && forward.pushUser.Succeeds?)
  }

  /** What the forward pass makes of the i-th namespace's secret. */
  ghost function Forwarded(env: Env, w: World, oldState: ZarfState, newState: ZarfState, forward: Plan, i: nat): Secret
    requires i < |env.namespaces| && env.namespaces[i].name in w.gitSecrets
  {
    if SecretsReached(w, oldState, newState, forward) && Replaces(env.namespaces, w.gitSecrets, forward, i)
    then GitPullCreds(newState.git) else w.gitSecrets[env.namespaces[i].name]
  }

  lemma ForwardedSecret(env: Env, w: World, oldState: ZarfState, newState: ZarfState, forward: Plan, i: nat)
    requires i < |env.namespaces| && env.namespaces[i].name in w.gitSecrets
    ensures var (w1, _) := GitPass(env, w, oldState, newState, forward);
            && env.namespaces[i].name in w1.gitSecrets
            && w1.gitSecrets[env.namespaces[i].name] == Forwarded(env, w, oldState, newState, forward, i)
  {
    UserPassResult(w, oldState, newState, forward);
    GitLoopExact(env.namespaces, w.gitSecrets, GitPullCreds(newState.git), forward, i);
  }

  /**
   * After a reported rollback all in-scope secrets hold the old credentials exactly when each could be
   * read on the way back, or the forward pass had left it with the old credentials: it did not get to it
   * and it held them before, or old and new pull credentials are the same.
   */
  lemma GitSecretsRestoredIff(env: Env, w: World, oldState: ZarfState, newState: ZarfState, forward: Plan, back: Plan)
    requires RotateGit(env, w, oldState, newState, forward, back).1.RolledBack?
    ensures var (w', _) := RotateGit(env, w, oldState, newState, forward, back);
            AllHold(env, w.gitSecrets, w'.gitSecrets, GitPullCreds(oldState.git)) <==>
            forall i :: 0 <= i < |env.namespaces| && InScope(env.namespaces[i], w.gitSecrets) ==>
              back.readable(env.namespaces[i].name)
              || Forwarded(env, w, oldState, newState, forward, i) == GitPullCreds(oldState.git)
  {
    GitRolledBack(env, w, oldState, newState, forward, back);
    forall i | 0 <= i < |env.namespaces| && InScope(env.namespaces[i], w.gitSecrets)
      ensures var (w1, _) := GitPass(env, w, oldState, newState, forward);
              && env.namespaces[i].name in w1.gitSecrets
              && w1.gitSecrets[env.namespaces[i].name] == Forwarded(env, w, oldState, newState, forward, i)
    {
      ForwardedSecret(env, w, oldState, newState, forward, i);
    }
  }

  /**
   * A rollback can report success and still leave a secret on the new credentials: saving fails in the
   * forward pass after the only secret was rotated, and in the rollback that secret cannot be read.
   */
  lemma UnreadableSecretStaysNew()
    returns (env: Env, w: World, oldState: ZarfState, newState: ZarfState, forward: Plan, back: Plan)
    ensures GitSetting(w, oldState, newState)
    ensures var (w', outcome) := RotateGit(env, w, oldState, newState, forward, back);
            && outcome.RolledBack? && w'.saved == oldState
            && "app" in w'.gitSecrets && w'.gitSecrets["app"] == GitPullCreds(newState.git)
            && GitPullCreds(newState.git) != GitPullCreds(oldState.git)
  {
    env := Surroundings([Namespace("app", "")], (_, _) => {});
    var registry := RegistryInfo("r", External, "", "", "", "");
    oldState := ZarfState(registry, GitServer(INTERNAL_GIT_URL, "pull", "a", "push", "b"));
    newState := ZarfState(registry, GitServer(INTERNAL_GIT_URL, "pull", "c", "push", "d"));
    w := World(registry, map[], map["app" := GitPullCreds(oldState.git)], map["pull" := "a", "push" := "b"], oldState);
    forward := Plan(true, _ => true, _ => true, _ => Succeeds, Succeeds, true, Succeeds, Succeeds, FailsBefore);
    back := Plan(true, _ => false, _ => true, _ => Succeeds, Succeeds, true, Succeeds, Succeeds, Succeeds);
    var rotated := map["app" := GitPullCreds(newState.git)];
    assert env.namespaces[1..] == [];
    assert GitLoop(env.namespaces, w.gitSecrets, GitPullCreds(newState.git), forward) == (rotated, true) by {
      assert w.gitSecrets["app" := GitPullCreds(newState.git)] == rotated;
    }
    assert GitLoop(env.namespaces, rotated, GitPullCreds(oldState.git), back) == (rotated, true);
    assert GitPullCreds(newState.git).data["password"] == "c" && GitPullCreds(oldState.git).data["password"] == "a";
    assert "a"[0] != "c"[0];
    var (w1, ok) := GitPass(env, w, oldState, newState, forward);
    assert !ok && w1.gitSecrets == rotated;
    var (w', outcome) := RotateGit(env, w, oldState, newState, forward, back);
    assert outcome.RolledBack? && w'.gitSecrets == rotated;
  }

  // ---------------------------------------------------------------------------------------------
  // The same in terms of what the secrets hold
  // ---------------------------------------------------------------------------------------------

  lemma ImageLoopMeant(env: Env, secrets: Secrets, info: RegistryInfo, plan: Plan)
    ensures var result := ImageLoop(env.namespaces, secrets, RegistryPullCreds(env, info), plan);
            && PullSecretsOnly(env, secrets, result.0, info)
            && (result.1 ==> PullSecretsSet(env, secrets, result.0, info))
  {
    var creds := RegistryPullCreds(env, info);
    ImageLoopProgress(env.namespaces, secrets, creds, plan);
    var result := ImageLoop(env.namespaces, secrets, creds, plan);
    PullSecretsMeant(env, secrets, result.0, info);
    if result.1 {
      PullSecretsHeld(env, secrets, result.0, info);
    }
  }

  lemma GitLoopMeant(env: Env, secrets: Secrets, git: GitServer, plan: Plan)
    ensures var result := GitLoop(env.namespaces, secrets, GitPullCreds(git), plan);
            && GitSecretsOnly(env, secrets, result.0, git)
            && (result.1 ==> GitSecretsSet(env, secrets, result.0, git, plan))
  {
    var creds := GitPullCreds(git);
    GitLoopProgress(env.namespaces, secrets, creds, plan);
    var result := GitLoop(env.namespaces, secrets, creds, plan);
    GitSecretsMeant(env, secrets, result.0, git);
    if result.1 {
      GitSecretsHeld(env, secrets, result.0, git, plan);
    }
  }

  lemma RegistrySecretsMeant(env: Env, w: World, s: ZarfState, updateRegistry: bool, plan: Plan)
    ensures var (w', ok) := RegistryPass(env, w, s, updateRegistry, plan);
            && PullSecretsOnly(env, w.imageSecrets, w'.imageSecrets, s.registry)
            && (w'.saved != w.saved || ok ==> PullSecretsSet(env, w.imageSecrets, w'.imageSecrets, s.registry))
  {
    RegistryCommitsLast(env, w, s, updateRegistry, plan);
    var (w', ok) := RegistryPass(env, w, s, updateRegistry, plan);
    PullSecretsMeant(env, w.imageSecrets, w'.imageSecrets, s.registry);
    if w'.saved != w.saved || ok {
      PullSecretsHeld(env, w.imageSecrets, w'.imageSecrets, s.registry);
    }
  }

  lemma GitSecretsMeantBy(env: Env, w: World, from: ZarfState, to: ZarfState, plan: Plan)
    ensures var (w', ok) := GitPass(env, w, from, to, plan);
            && GitSecretsOnly(env, w.gitSecrets, w'.gitSecrets, to.git)
            && (w'.saved != w.saved || ok ==> GitSecretsSet(env, w.gitSecrets, w'.gitSecrets, to.git, plan))
  {
    GitCommitsLast(env, w, from, to, plan);
    var (w', ok) := GitPass(env, w, from, to, plan);
    GitSecretsMeant(env, w.gitSecrets, w'.gitSecrets, to.git);
    if w'.saved != w.saved || ok {
      GitSecretsHeld(env, w.gitSecrets, w'.gitSecrets, to.git, plan);
    }
  }

  /** Secrets that are not rotatable, and those of no namespace, are as before. */
  ghost predicate BystandersKept(env: Env, before: Secrets, after: Secrets) {
    && after.Keys == before.Keys
    && forall n :: n in before && after[n] != before[n] ==>
         exists ns :: ns in env.namespaces && ns.name == n && Rotatable(ns, before)
  }

  /** Two passes in a row touch nobody but the first one would. */
  lemma BystandersTwice(env: Env, before: Secrets, mid: Secrets, after: Secrets, a: Secret, b: Secret)
    requires Progress(env.namespaces, before, mid, a) && Progress(env.namespaces, mid, after, b) && a.managed
    ensures BystandersKept(env, before, after)
  {
    ProgressKeepsScope(env.namespaces, before, mid, a);
    forall n | n in before && after[n] != before[n]
      ensures exists ns :: ns in env.namespaces && ns.name == n && Rotatable(ns, before)
    {
      if mid[n] != before[n] {
        var i :| 0 <= i < |env.namespaces| && env.namespaces[i].name == n && InScope(env.namespaces[i], before);
        assert env.namespaces[i] in env.namespaces && Rotatable(env.namespaces[i], before);
      } else {
        var i :| 0 <= i < |env.namespaces| && env.namespaces[i].name == n && InScope(env.namespaces[i], mid);
        assert env.namespaces[i] in env.namespaces && Rotatable(env.namespaces[i], before);
      }
    }
  }

  lemma RotatedSecretsMeant(
    env: Env, w: World, oldState: ZarfState, newState: ZarfState, forward: Plan, back: Plan)
    ensures var (w', outcome) := RotateRegistry(env, w, oldState, newState, forward, back);
            && (outcome.Updated? ==> PullSecretsSet(env, w.imageSecrets, w'.imageSecrets, newState.registry))
            && (outcome.RolledBack? ==> PullSecretsSet(env, w.imageSecrets, w'.imageSecrets, oldState.registry))
            && BystandersKept(env, w.imageSecrets, w'.imageSecrets)
  {
    RegistryRotation(env, w, oldState, newState, forward, back);
    var (w', outcome) := RotateRegistry(env, w, oldState, newState, forward, back);
    if outcome.Updated? {
      PullSecretsHeld(env, w.imageSecrets, w'.imageSecrets, newState.registry);
    }
    if outcome.RolledBack? {
      PullSecretsHeld(env, w.imageSecrets, w'.imageSecrets, oldState.registry);
    }
    RegistryBystanders(env, w, oldState, newState, forward, back);
  }

  lemma RegistryBystanders(
    env: Env, w: World, oldState: ZarfState, newState: ZarfState, forward: Plan, back: Plan)
    ensures var (w', _) := RotateRegistry(env, w, oldState, newState, forward, back);
            BystandersKept(env, w.imageSecrets, w'.imageSecrets)
  {
    var newCreds, oldCreds := RegistryPullCreds(env, newState.registry), RegistryPullCreds(env, oldState.registry);
    RegistryCommitsLast(env, w, newState, newState.registry.IsInternal(), forward);
    var (w1, ok) := RegistryPass(env, w, newState, newState.registry.IsInternal(), forward);
    if ok {
      PullSecretsMeant(env, w.imageSecrets, w1.imageSecrets, newState.registry);
    } else {
      var redeploy := oldState.registry.IsInternal() && newState.registry.IsInternal();
      RegistryCommitsLast(env, w1, oldState, redeploy, back);
      var (w2, _) := RegistryPass(env, w1, oldState, redeploy, back);
      BystandersTwice(env, w.imageSecrets, w1.imageSecrets, w2.imageSecrets, newCreds, oldCreds);
    }
  }

  lemma RotatedGitSecretsMeant(
    env: Env, w: World, oldState: ZarfState, newState: ZarfState, forward: Plan, back: Plan)
    ensures var (w', outcome) := RotateGit(env, w, oldState, newState, forward, back);
            && (outcome.Updated? ==> GitSecretsSet(env, w.gitSecrets, w'.gitSecrets, newState.git, forward))
            && (outcome.RolledBack? ==> GitSecretsSet(env, w.gitSecrets, w'.gitSecrets, oldState.git, back))
            && BystandersKept(env, w.gitSecrets, w'.gitSecrets)
  {
    GitRotation(env, w, oldState, newState, forward, back);
    var (w', outcome) := RotateGit(env, w, oldState, newState, forward, back);
    if outcome.Updated? {
      GitSecretsHeld(env, w.gitSecrets, w'.gitSecrets, newState.git, forward);
    }
    if outcome.RolledBack? {
      RestoredSecretsHeld(env, w, GitPass(env, w, oldState, newState, forward).0, w', oldState, newState, back);
    }
    GitBystanders(env, w, oldState, newState, forward, back);
  }

  lemma RestoredSecretsHeld(
    env: Env, w: World, w1: World, w': World, oldState: ZarfState, newState: ZarfState, back: Plan)
    requires GitRestored(env, w, w1, w', oldState, newState, back)
    ensures GitSecretsSet(env, w.gitSecrets, w'.gitSecrets, oldState.git, back)
  {
    forall ns | ns in env.namespaces && Rotatable(ns, w.gitSecrets) && back.readable(ns.name)
      ensures ns.name in w'.gitSecrets && IsGitSecret(w'.gitSecrets[ns.name], oldState.git)
    {
      var i :| 0 <= i < |env.namespaces| && env.namespaces[i] == ns;
      assert InScope(env.namespaces[i], w.gitSecrets);
    }
  }

  lemma GitBystanders(env: Env, w: World, oldState: ZarfState, newState: ZarfState, forward: Plan, back: Plan)
    ensures var (w', _) := RotateGit(env, w, oldState, newState, forward, back);
            BystandersKept(env, w.gitSecrets, w'.gitSecrets)
  {
    var newCreds, oldCreds := GitPullCreds(newState.git), GitPullCreds(oldState.git);
    GitCommitsLast(env, w, oldState, newState, forward);
    var (w1, ok) := GitPass(env, w, oldState, newState, forward);
    if ok {
      GitSecretsMeant(env, w.gitSecrets, w1.gitSecrets, newState.git);
    } else {
      GitCommitsLast(env, w1, newState, oldState, back);
      var (w2, _) := GitPass(env, w1, newState, oldState, back);
      BystandersTwice(env, w.gitSecrets, w1.gitSecrets, w2.gitSecrets, newCreds, oldCreds);
    }
  }
}

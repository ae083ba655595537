/** Pruning the registry: mark what deployed packages use, sweep every other tagged digest. */
module Prune {
  import opened Outcomes

  datatype Component = Component(name: string, images: seq<string>)
  datatype Package = Package(deployed: seq<string>, components: seq<Component>)

  datatype Tag = Tag(repo: string, name: string)
  datatype Manifest = Manifest(repo: string, digest: string)
  datatype Reference = ByTag(tag: Tag) | ByDigest(manifest: Manifest)

  /** What the registry holds; a tag whose manifest is absent was left by a push that broke off. */
  datatype Contents = Contents(manifests: set<Manifest>, tags: map<Tag, string>) {
    /** The reference stands for the digest: by a tag or by itself, and the manifest is there. */
    predicate StandsFor(r: Reference, digest: string) {
      match r
      case ByTag(t) => t in tags && tags[t] == digest && Manifest(t.repo, digest) in manifests
      case ByDigest(m) => m in manifests && digest == m.digest
    }

    function Resolve(r: Reference): Option<string> {
      match r
      case ByTag(t) => if t in tags && Manifest(t.repo, tags[t]) in manifests then Some(tags[t]) else None
      case ByDigest(m) => if m in manifests then Some(m.digest) else None
    }

    lemma ResolvesIff(r: Reference)
      ensures forall digest :: Resolve(r) == Some(digest) <==> StandsFor(r, digest)
    {
    }

    /** Deleting a manifest takes the tags that point to it along. */
    function Without(gone: set<Manifest>): Contents {
      Contents(manifests - gone, map t | t in tags && Manifest(t.repo, tags[t]) !in gone :: tags[t])
    }
  }

  /** Answers from outside: where an image is kept, and which calls fail for other reasons than absence. */
  datatype Env = Env(
    place: string -> Result<Reference>,
    digestFails: Reference -> bool,
    catalogFails: bool,
    tagsFail: string -> bool,
    parses: Tag -> bool,
    deleteFails: Manifest -> bool,
    answer: Option<bool>)

  // What is wanted, needed and doomed.

  ghost predicate ComponentWants(p: Package, c: Component, image: string) {
    c in p.components && c.name in p.deployed && image in c.images
  }

  /** A deployed component of some package uses the image. */
  ghost predicate Wants(pkgs: seq<Package>, image: string) {
    exists p, c :: p in pkgs && ComponentWants(p, c, image)
  }

  ghost predicate ResolvesTo(s: Contents, env: Env, image: string, digest: string) {
    env.place(image).Ok? && s.Resolve(env.place(image).value) == Some(digest)
  }

  ghost predicate Needed(s: Contents, pkgs: seq<Package>, env: Env, digest: string) {
    exists image :: Wants(pkgs, image) && ResolvesTo(s, env, image, digest)
  }

  /** A tagged manifest whose digest no wanted image resolves to. */
  ghost predicate IsDoomed(s: Contents, pkgs: seq<Package>, env: Env, m: Manifest) {
    && m in s.manifests && !Needed(s, pkgs, env, m.digest)
    && exists t :: t in s.tags && t.repo == m.repo && s.tags[t] == m.digest
  }

  ghost function Doomed(s: Contents, pkgs: seq<Package>, env: Env): set<Manifest> {
    set m | m in s.manifests && IsDoomed(s, pkgs, env, m)
  }

  // What any sweep, complete or broken off, keeps.

  /** Every wanted image resolves afterwards as it did before. */
  lemma WantedStillResolve(s: Contents, pkgs: seq<Package>, env: Env, gone: set<Manifest>, image: string)
    requires gone <= Doomed(s, pkgs, env) && Wants(pkgs, image) && env.place(image).Ok?
    ensures s.Without(gone).Resolve(env.place(image).value) == s.Resolve(env.place(image).value)
    ensures var r := env.place(image).value; forall d :: s.Without(gone).StandsFor(r, d) <==> s.StandsFor(r, d)
  {
    var r := env.place(image).value;
    s.ResolvesIff(r);
    s.Without(gone).ResolvesIff(r);
    if s.Resolve(r).Some? {
      var d := s.Resolve(r).value;
      assert ResolvesTo(s, env, image, d);
      assert Needed(s, pkgs, env, d);
    }
  }

  /** So a sweep does not change what is needed. */
  lemma NeededStaysNeeded(s: Contents, pkgs: seq<Package>, env: Env, gone: set<Manifest>, digest: string)
    requires gone <= Doomed(s, pkgs, env)
    ensures Needed(s.Without(gone), pkgs, env, digest) <==> Needed(s, pkgs, env, digest)
  {
    forall image | Wants(pkgs, image)
      ensures ResolvesTo(s.Without(gone), env, image, digest) <==> ResolvesTo(s, env, image, digest)
    {
      if env.place(image).Ok? {
        WantedStillResolve(s, pkgs, env, gone, image);
      }
    }
  }

  /** After a complete sweep every tag that resolves points to a needed digest; the others never resolved. */
  lemma OnlyNeededTagsRemain(s: Contents, pkgs: seq<Package>, env: Env, t: Tag)
    requires var after := s.Without(Doomed(s, pkgs, env)); t in after.tags
    ensures var after := s.Without(Doomed(s, pkgs, env));
      if after.Resolve(ByTag(t)).Some? then Needed(after, pkgs, env, after.tags[t]) else s.Resolve(ByTag(t)).None?
  {
    var gone := Doomed(s, pkgs, env);
    var m := Manifest(t.repo, s.tags[t]);
    NeededStaysNeeded(s, pkgs, env, gone, m.digest);
    assert m in s.manifests ==> m in gone || Needed(s, pkgs, env, m.digest);
  }

  /** A second sweep finds nothing. */
  lemma SweepIsIdempotent(s: Contents, pkgs: seq<Package>, env: Env)
    ensures Doomed(s.Without(Doomed(s, pkgs, env)), pkgs, env) == {}
  {
    var after := s.Without(Doomed(s, pkgs, env));
    forall m | m in after.manifests ensures !IsDoomed(after, pkgs, env, m) {
      NeededStaysNeeded(s, pkgs, env, Doomed(s, pkgs, env), m.digest);
    }
  }

  /** A broken-off sweep can be taken up again: the rest of the way leads to the same contents. */
  lemma SweepResumes(s: Contents, pkgs: seq<Package>, env: Env, gone: set<Manifest>)
    requires gone <= Doomed(s, pkgs, env)
    ensures var half := s.Without(gone); half.Without(Doomed(half, pkgs, env)) == s.Without(Doomed(s, pkgs, env))
  {
    var half := s.Without(gone);
    forall m ensures m in Doomed(half, pkgs, env) <==> m in Doomed(s, pkgs, env) - gone {
      NeededStaysNeeded(s, pkgs, env, gone, m.digest);
      if m in Doomed(s, pkgs, env) - gone {
        var t :| t in s.tags && t.repo == m.repo && s.tags[t] == m.digest;
        assert t in half.tags;
      }
    }
    assert half.Without(Doomed(half, pkgs, env)).tags == s.Without(Doomed(s, pkgs, env)).tags;
  }

  // An image index needs further manifests of its repository, which the marking does not follow.

  /** All the manifests that the digest consists of are in the repository. */
  ghost predicate Whole(s: Contents, parts: string -> set<string>, m: Manifest) {
    forall d :: d in parts(m.digest) ==> Manifest(m.repo, d) in s.manifests
  }

  /** A complete sweep leaves an image whole exactly when no part of it is doomed under a tag of its own. */
  lemma StaysWholeIff(s: Contents, pkgs: seq<Package>, env: Env, parts: string -> set<string>, m: Manifest)
    requires Whole(s, parts, m)
    ensures Whole(s.Without(Doomed(s, pkgs, env)), parts, m)
       <==> forall t :: t in s.tags && t.repo == m.repo && s.tags[t] in parts(m.digest) ==>
              Needed(s, pkgs, env, s.tags[t])
  {
    var after := s.Without(Doomed(s, pkgs, env));
    if Whole(after, parts, m) {
      forall t | t in s.tags && t.repo == m.repo && s.tags[t] in parts(m.digest)
        ensures Needed(s, pkgs, env, s.tags[t])
      {
        assert Manifest(m.repo, s.tags[t]) in after.manifests;
      }
    }
  }

  /** A needed index loses the platform manifest that another package had tagged. */
  lemma NeededIndexCanLoseAPart()
    returns (s: Contents, pkgs: seq<Package>, env: Env, parts: string -> set<string>, m: Manifest)
    ensures Needed(s, pkgs, env, m.digest) && Whole(s, parts, m)
    ensures !Whole(s.Without(Doomed(s, pkgs, env)), parts, m)
  {
    m := Manifest("app", "index");
    s := Contents({m, Manifest("app", "amd64")}, map[Tag("app", "single") := "amd64"]);
    pkgs := [Package(["c"], [Component("c", ["app@index"])])];
    env := Env(_ => Ok(ByDigest(Manifest("app", "index"))), _ => false, false, _ => false, _ => true, _ => false, None);
    parts := _ => {"index", "amd64"};
    assert ComponentWants(pkgs[0], pkgs[0].components[0], pkgs[0].components[0].images[0]);
    assert Wants(pkgs, "app@index") && ResolvesTo(s, env, "app@index", "index");
    assert !Needed(s, pkgs, env, "amd64");
    var t := Tag("app", "single");
    assert t in s.tags && s.tags[t] in parts(m.digest);
    StaysWholeIff(s, pkgs, env, parts, m);
  }

  // The command.

  ghost predicate Answers(s: Contents, env: Env, ignoreMissing: bool, r: Reference) {
    !env.digestFails(r) && (s.Resolve(r).Some? || ignoreMissing)
  }

  ghost predicate Markable(s: Contents, env: Env, ignoreMissing: bool, image: string) {
    env.place(image).Ok? && Answers(s, env, ignoreMissing, env.place(image).value)
  }

  ghost predicate Listable(s: Contents, env: Env, ignoreMissing: bool, t: Tag) {
    !env.tagsFail(t.repo) && Answers(s, env, ignoreMissing, ByTag(t))
  }

  ghost predicate AllListable(s: Contents, env: Env, ignoreMissing: bool) {
    && !env.catalogFails
    && (forall m :: m in s.manifests ==> !env.tagsFail(m.repo))
    && (forall t :: t in s.tags ==> Listable(s, env, ignoreMissing, t))
  }

  /** Everything that is looked at before the first deletion can be read. */
  ghost predicate Readable(s: Contents, pkgs: seq<Package>, env: Env, ignoreMissing: bool) {
    && (forall image :: Wants(pkgs, image) ==> Markable(s, env, ignoreMissing, image))
    && AllListable(s, env, ignoreMissing)
    && (forall t :: t in s.tags && s.Resolve(ByTag(t)).Some? && !Needed(s, pkgs, env, s.tags[t]) ==> env.parses(t))
  }

  /** The marks grew by the digests that the images resolve to. */
  ghost predicate Marked(s: Contents, env: Env, before: set<string>, after: set<string>, images: iset<string>) {
    forall d :: d in after <==> d in before || exists x :: x in images && ResolvesTo(s, env, x, d)
  }

  ghost predicate AllMarkable(s: Contents, env: Env, ignoreMissing: bool, images: iset<string>) {
    forall x :: x in images ==> Markable(s, env, ignoreMissing, x)
  }

  ghost function ImagesOf(images: seq<string>): iset<string> { iset x | x in images }
  ghost function PackageImages(p: Package): iset<string> { iset c, x | ComponentWants(p, c, x) :: x }
  ghost function WantedImages(pkgs: seq<Package>): iset<string> { iset x | Wants(pkgs, x) }

  /** The tags among `tags` that resolve, and what they resolve to. */
  function Resolving(s: Contents, tags: set<Tag>): map<Tag, string> {
    map t | t in tags && t in s.tags && s.Resolve(ByTag(t)).Some? :: s.tags[t]
  }

  function TagsIn(s: Contents, repos: set<string>): set<Tag> {
    set t | t in s.tags && t.repo in repos
  }

  ghost predicate RepoListable(s: Contents, env: Env, ignoreMissing: bool, repo: string) {
    !env.tagsFail(repo) && forall t :: t in TagsIn(s, {repo}) ==> Listable(s, env, ignoreMissing, t)
  }

  function Catalog(s: Contents): set<string> {
    (set m | m in s.manifests :: m.repo) + (set t | t in s.tags :: t.repo)
  }

  lemma ListableByRepo(s: Contents, env: Env, ignoreMissing: bool)
    requires !env.catalogFails
    ensures AllListable(s, env, ignoreMissing)
       <==> forall r :: r in Catalog(s) ==> RepoListable(s, env, ignoreMissing, r)
  {
    if forall r :: r in Catalog(s) ==> RepoListable(s, env, ignoreMissing, r) {
      forall t | t in s.tags ensures Listable(s, env, ignoreMissing, t) {
        assert t.repo in Catalog(s) && RepoListable(s, env, ignoreMissing, t.repo);
        assert t in TagsIn(s, {t.repo});
      }
      forall m | m in s.manifests ensures !env.tagsFail(m.repo) {
        assert m.repo in Catalog(s) && RepoListable(s, env, ignoreMissing, m.repo);
      }
    }
  }

  lemma OneMoreRepo(s: Contents, done: set<string>, repo: string)
    ensures Resolving(s, TagsIn(s, done + {repo})) == Resolving(s, TagsIn(s, done)) + Resolving(s, TagsIn(s, {repo}))
  {
    assert TagsIn(s, done + {repo}) == TagsIn(s, done) + TagsIn(s, {repo});
  }

  class Registry {
    var contents: Contents

    constructor (contents: Contents)
      ensures this.contents == contents
    {
      this.contents := contents;
    }

    method MarkImages(images: seq<string>, env: Env, ignoreMissing: bool, before: set<string>)
      returns (ok: bool, marks: set<string>)
      ensures ok == AllMarkable(contents, env, ignoreMissing, ImagesOf(images))
      ensures ok ==> Marked(contents, env, before, marks, ImagesOf(images))
    {
      marks := before;
      for i := 0 to |images|
        invariant AllMarkable(contents, env, ignoreMissing, ImagesOf(images[..i]))
        invariant Marked(contents, env, before, marks, ImagesOf(images[..i]))
      {
        assert ImagesOf(images[..i + 1]) == ImagesOf(images[..i]) + iset{images[i]};
        assert images[i] in ImagesOf(images);
        var place := env.place(images[i]);
        if place.Err? || env.digestFails(place.value) {
          return false, marks;
        }
        var digest := contents.Resolve(place.value);
        if digest.None? {
          if ignoreMissing {
            continue;
          }
          return false, marks;
        }
        marks := marks + {digest.value};
      }
      assert images[..|images|] == images;
      return true, marks;
    }

    method MarkPackage(p: Package, env: Env, ignoreMissing: bool, before: set<string>)
      returns (ok: bool, marks: set<string>)
      ensures ok == AllMarkable(contents, env, ignoreMissing, PackageImages(p))
      ensures ok ==> Marked(contents, env, before, marks, PackageImages(p))
    {
      marks := before;
      for i := 0 to |p.components|
        invariant AllMarkable(contents, env, ignoreMissing, PackageImages(p.(components := p.components[..i])))
        invariant Marked(contents, env, before, marks, PackageImages(p.(components := p.components[..i])))
      {
        OneMoreComponent(p, i);
        if p.components[i].name in p.deployed {
          ok, marks := MarkImages(p.components[i].images, env, ignoreMissing, marks);
          if !ok {
            return;
          }
        }
      }
      assert p.components[..|p.components|] == p.components;
      ok := true;
    }

    method MarkNeeded(pkgs: seq<Package>, env: Env, ignoreMissing: bool) returns (ok: bool, marks: set<string>)
      ensures ok == AllMarkable(contents, env, ignoreMissing, WantedImages(pkgs))
      ensures ok ==> Marked(contents, env, {}, marks, WantedImages(pkgs))
    {
      marks := {};
      for i := 0 to |pkgs|
        invariant AllMarkable(contents, env, ignoreMissing, WantedImages(pkgs[..i]))
        invariant Marked(contents, env, {}, marks, WantedImages(pkgs[..i]))
      {
        OneMorePackage(pkgs, i);
        ok, marks := MarkPackage(pkgs[i], env, ignoreMissing, marks);
        if !ok {
          return;
        }
      }
      assert pkgs[..|pkgs|] == pkgs;
      ok := true;
    }

    method ListRepo(repo: string, env: Env, ignoreMissing: bool) returns (ok: bool, found: map<Tag, string>)
      ensures ok <==> RepoListable(contents, env, ignoreMissing, repo)
      ensures ok ==> found == Resolving(contents, TagsIn(contents, {repo}))
    {
      found := map[];
      if env.tagsFail(repo) {
        return false, found;
      }
      var tags := TagsIn(contents, {repo});
      var rest := tags;
      while rest != {}
        invariant rest <= tags
        invariant forall t :: t in tags - rest ==> Listable(contents, env, ignoreMissing, t)
        invariant found == Resolving(contents, tags - rest)
        decreases rest
      {
        var t :| t in rest;
        rest := rest - {t};
        if env.digestFails(ByTag(t)) {
          return false, found;
        }
        var digest := contents.Resolve(ByTag(t));
        if digest.None? {
          if ignoreMissing {
            continue;
          }
          return false, found;
        }
        found := found[t := digest.value];
      }
      return true, found;
    }

    method ListTagged(env: Env, ignoreMissing: bool) returns (ok: bool, found: map<Tag, string>)
      ensures ok <==> AllListable(contents, env, ignoreMissing)
      ensures ok ==> found == Resolving(contents, contents.tags.Keys)
    {
      found := map[];
      if env.catalogFails {
        return false, found;
      }
      var catalog := Catalog(contents);
      ListableByRepo(contents, env, ignoreMissing);
      var rest := catalog;
      while rest != {}
        invariant rest <= catalog
        invariant forall r :: r in catalog - rest ==> RepoListable(contents, env, ignoreMissing, r)
        invariant found == Resolving(contents, TagsIn(contents, catalog - rest))
        decreases rest
      {
        var repo :| repo in rest;
        var here;
        ok, here := ListRepo(repo, env, ignoreMissing);
        if !ok {
          return;
        }
        OneMoreRepo(contents, catalog - rest, repo);
        rest := rest - {repo};
        assert catalog - rest == catalog - rest - {repo} + {repo};
        found := found + here;
      }
      ok := true;
      assert TagsIn(contents, catalog - rest) == contents.tags.Keys;
    }

    /** Stops at the first failure; what was deleted by then stays deleted. */
    method Sweep(doomed: set<Manifest>, env: Env) returns (ok: bool, ghost gone: set<Manifest>)
      modifies this
      ensures gone <= doomed && contents == old(contents).Without(gone)
      ensures ok <==> forall m :: m in doomed ==> !env.deleteFails(m)
      ensures ok ==> gone == doomed
    {
      gone := {};
      var rest := doomed;
      while rest != {}
        invariant rest <= doomed && gone == doomed - rest
        invariant forall m :: m in gone ==> !env.deleteFails(m)
        invariant contents == old(contents).Without(gone)
        decreases rest
      {
        var m :| m in rest;
        if env.deleteFails(m) {
          return false, gone;
        }
        WithoutBoth(old(contents), gone, {m});
        contents := contents.Without({m});
        gone, rest := gone + {m}, rest - {m};
      }
      ok := true;
    }

    /**
     * Whatever fails, only doomed manifests are gone; they all are after a confirmed run without error,
     * and none without confirmation.
     */
    method PruneImages(pkgs: seq<Package>, env: Env, confirm: bool, ignoreMissing: bool)
      returns (ok: bool, ghost gone: set<Manifest>)
      modifies this
      ensures gone <= Doomed(old(contents), pkgs, env) && contents == old(contents).Without(gone)
      ensures ok && (confirm || env.answer == Some(true)) ==> gone == Doomed(old(contents), pkgs, env)
      ensures !confirm && env.answer != Some(true) ==> gone == {}
      ensures ok <==> (&& Readable(old(contents), pkgs, env, ignoreMissing)
                       && (Doomed(old(contents), pkgs, env) == {} || Agreed(old(contents), pkgs, env, confirm)))
    {
      gone := {};
      ghost var before := contents;
      var needed, found;
      ok, needed := MarkNeeded(pkgs, env, ignoreMissing);
      if !ok {
        assert exists x :: Wants(pkgs, x) && !Markable(contents, env, ignoreMissing, x);
        return;
      }
      ok, found := ListTagged(env, ignoreMissing);
      if !ok {
        return;
      }
      assert forall d :: d in needed <==> Needed(contents, pkgs, env, d);
      var doomed;
      ok, doomed := Condemn(found, needed, env);
      if !ok {
        return;
      }
      assert doomed == Doomed(contents, pkgs, env);
      if doomed == {} {
        return;
      }
      var go := confirm;
      if !go {
        if env.answer.None? {
          return false, gone;
        }
        go := env.answer.value;
      }
      if go {
        ok, gone := Sweep(doomed, env);
      }
    }
  }

  /** The prompt, if there is one, is answered, and if the answer is yes every deletion works. */
  ghost predicate Agreed(s: Contents, pkgs: seq<Package>, env: Env, confirm: bool) {
    var no := !confirm && env.answer == Some(false);
    (confirm || env.answer.Some?) && (no || forall m :: m in Doomed(s, pkgs, env) ==> !env.deleteFails(m))
  }

  lemma WithoutBoth(s: Contents, a: set<Manifest>, b: set<Manifest>)
    ensures s.Without(a).Without(b) == s.Without(a + b)
  {
    assert s.Without(a).Without(b).tags == s.Without(a + b).tags;
  }

  method Condemn(found: map<Tag, string>, needed: set<string>, env: Env) returns (ok: bool, doomed: set<Manifest>)
    ensures ok <==> forall t :: t in found && found[t] !in needed ==> env.parses(t)
    ensures ok ==> doomed == set t | t in found && found[t] !in needed :: Manifest(t.repo, found[t])
  {
    doomed := {};
    var rest := found.Keys;
    while rest != {}
      invariant rest <= found.Keys
      invariant forall t :: t in found && t !in rest && found[t] !in needed ==> env.parses(t)
      invariant doomed == set t | t in found && t !in rest && found[t] !in needed :: Manifest(t.repo, found[t])
      decreases rest
    {
      var t :| t in rest;
      rest := rest - {t};
      if found[t] !in needed {
        if !env.parses(t) {
          return false, doomed;
        }
        doomed := doomed + {Manifest(t.repo, found[t])};
      }
    }
    ok := true;
  }

  lemma OneMoreComponent(p: Package, i: nat)
    requires i < |p.components|
    ensures PackageImages(p.(components := p.components[..i + 1]))
         == PackageImages(p.(components := p.components[..i]))
          + if p.components[i].name in p.deployed then ImagesOf(p.components[i].images) else iset{}
    ensures PackageImages(p.(components := p.components[..i + 1])) <= PackageImages(p)
  {
    var c := p.components[i];
    var more, less := p.(components := p.components[..i + 1]), p.(components := p.components[..i]);
    assert more.components == less.components + [c];
    forall x ensures x in PackageImages(more) <==> x in PackageImages(less) || ComponentWants(more, c, x) {
      if d :| ComponentWants(more, d, x) {
        assert d == c || ComponentWants(less, d, x);
      }
      if d :| ComponentWants(less, d, x) {
        assert ComponentWants(more, d, x);
      }
    }
    forall x | x in PackageImages(more) ensures x in PackageImages(p) {
      var d :| ComponentWants(more, d, x);
      assert ComponentWants(p, d, x);
    }
  }

  lemma OneMorePackage(pkgs: seq<Package>, i: nat)
    requires i < |pkgs|
    ensures WantedImages(pkgs[..i + 1]) == WantedImages(pkgs[..i]) + PackageImages(pkgs[i])
    ensures WantedImages(pkgs[..i + 1]) <= WantedImages(pkgs)
  {
    assert pkgs[..i + 1] == pkgs[..i] + [pkgs[i]];
    forall x ensures Wants(pkgs[..i + 1], x) <==> Wants(pkgs[..i], x) || x in PackageImages(pkgs[i]) {
      if p, c :| p in pkgs[..i + 1] && ComponentWants(p, c, x) {
        assert p in pkgs[..i] || p == pkgs[i];
      }
    }
    forall x | Wants(pkgs[..i + 1], x) ensures Wants(pkgs, x) {
      var p, c :| p in pkgs[..i + 1] && ComponentWants(p, c, x);
      assert p in pkgs;
    }
  }
}

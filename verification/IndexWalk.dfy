/** The walk over an OCI image index that adds up blob sizes and collects platforms. */
module IndexWalk {
  import opened Outcomes

  type Digest = string

  /** What `IsIndex` and `IsManifest` tell apart in a media type. */
  datatype Kind = Index | Manifest | Other

  datatype Platform = Platform(architecture: string, variant: string)

  datatype Descriptor = Descriptor(digest: Digest, kind: Kind, size: int, platform: Option<Platform>)

  datatype ManifestBody = ManifestBody(config: Descriptor, layers: seq<Descriptor>)

  /** Bytes, seen through the two decodings the walk applies to them; either may fail. */
  datatype Blob = Blob(asIndex: Option<seq<Descriptor>>, asManifest: Option<ManifestBody>)

  datatype Stored = Stored(length: int, blob: Blob)

  type Store = map<Digest, Stored>

  datatype Summary = Summary(size: int, platforms: seq<string>)

  /** "arch[/variant]", empty when there is no architecture. */
  function FormatPlatform(p: Option<Platform>): string {
    if p.None? || p.value.architecture == "" then ""
    else if p.value.variant == "" then p.value.architecture
    else p.value.architecture + "/" + p.value.variant
  }

  /** Fetching checks the length the descriptor announces. */
  function Fetch(store: Store, desc: Descriptor): Option<Blob> {
    if desc.digest in store && store[desc.digest].length == desc.size
    then Some(store[desc.digest].blob)
    else None
  }

  // ---------------------------------------------------------------------------------------------
  // The graph behind the walk
  // ---------------------------------------------------------------------------------------------

  /** What a digest stands for, wherever it is referenced. */
  datatype Info = Info(kind: Kind, size: int)

  /** A content-addressed graph: stored nodes, and one kind and size per digest. */
  datatype Graph = Graph(nodes: Store, catalog: map<Digest, Info>) {

    ghost predicate Describes(desc: Descriptor, kind: Kind) {
      desc.digest in catalog && catalog[desc.digest].kind == kind && catalog[desc.digest].size == desc.size
    }

    ghost function Children(d: Digest): seq<Descriptor> {
      if d in catalog && catalog[d].kind.Index? && d in nodes && nodes[d].blob.asIndex.Some?
      then nodes[d].blob.asIndex.value else []
    }

    ghost function Blobs(d: Digest): seq<Descriptor> {
      if d in catalog && catalog[d].kind.Manifest? && d in nodes && nodes[d].blob.asManifest.Some?
      then [nodes[d].blob.asManifest.value.config] + nodes[d].blob.asManifest.value.layers else []
    }

    /** Every descriptor agrees with the catalog, and configs and layers are neither index nor manifest. */
    ghost predicate ContentAddressed() {
      forall d :: d in catalog ==> NodeAddressed(d)
    }

    ghost predicate NodeAddressed(d: Digest) {
      && (forall c :: c in Children(d) ==> Describes(c, c.kind))
      && (forall b :: b in Blobs(d) ==> Describes(b, Other))
    }

    ghost function Successors(d: Digest): set<Digest> {
      (set c | c in Children(d) :: c.digest) + (set b | b in Blobs(d) :: b.digest)
    }

    /** The node's bytes can be fetched at the announced length and decoded as what it is. */
    ghost predicate Readable(d: Digest)
      requires d in catalog
    {
      match catalog[d].kind
      case Index => d in nodes && nodes[d].length == catalog[d].size && nodes[d].blob.asIndex.Some?
      case Manifest => d in nodes && nodes[d].length == catalog[d].size && nodes[d].blob.asManifest.Some?
      case Other => true
    }

    ghost predicate Closed(s: set<Digest>) {
      s <= catalog.Keys && forall d :: d in s ==> Successors(d) <= s
    }

    ghost predicate IsPath(p: seq<Digest>) {
      && 0 < |p|
      && (forall i :: 0 <= i < |p| ==> p[i] in catalog)
      && (forall i :: 0 < i < |p| ==> p[i] in Successors(p[i - 1]))
    }

    ghost predicate Reaches(from: Digest, to: Digest) {
      exists p :: IsPath(p) && p[0] == from && p[|p| - 1] == to
    }

    ghost function Reachable(root: Digest): set<Digest> {
      set d | d in catalog && Reaches(root, d)
    }

    lemma ReachableIsClosed(root: Digest)
      requires ContentAddressed() && root in catalog
      ensures root in Reachable(root) && Closed(Reachable(root))
    {
      assert IsPath([root]);
      assert Reaches(root, root);
      forall d, e | d in Reachable(root) && e in Successors(d)
        ensures e in Reachable(root)
      {
        var p :| IsPath(p) && p[0] == root && p[|p| - 1] == d;
        assert NodeAddressed(d) && e in catalog;
        PathGrows(p, e);
      }
    }

    lemma PathGrows(p: seq<Digest>, e: Digest)
      requires IsPath(p) && e in catalog && e in Successors(p[|p| - 1])
      ensures IsPath(p + [e]) && Reaches(p[0], e)
    {
      var q := p + [e];
      forall i | 0 < i < |q| ensures q[i] in Successors(q[i - 1]) {
        assert i < |p| ==> p[i] in Successors(p[i - 1]);
      }
      assert IsPath(q) && q[0] == p[0] && q[|q| - 1] == e;
    }

    lemma {:induction false} PathStaysInside(p: seq<Digest>, s: set<Digest>)
      requires IsPath(p) && Closed(s) && p[0] in s
      ensures p[|p| - 1] in s
      decreases |p|
    {
      if |p| > 1 {
        assert p[1] in Successors(p[0]);
        assert forall i :: 0 < i < |p[1..]| ==> p[1..][i] in Successors(p[1..][i - 1]) by {
          forall i | 0 < i < |p[1..]| ensures p[1..][i] in Successors(p[1..][i - 1]) {
            assert p[i + 1] in Successors(p[i + 1 - 1]);
          }
        }
        PathStaysInside(p[1..], s);
      }
    }

    lemma ReachableIsLeast(root: Digest, s: set<Digest>)
      requires Closed(s) && root in s
      ensures Reachable(root) <= s
    {
      forall d | d in Reachable(root) ensures d in s {
        var p :| IsPath(p) && p[0] == root && p[|p| - 1] == d;
        PathStaysInside(p, s);
      }
    }
  }

  // ---------------------------------------------------------------------------------------------
  // Sums over sets of digests
  // ---------------------------------------------------------------------------------------------

  ghost function Pick(s: set<Digest>): (d: Digest)
    requires s != {}
    ensures d in s
  {
    var d :| d in s; d
  }

  /** Sum of the sizes of a set of digests, each counted once. */
  ghost function Total(catalog: map<Digest, Info>, s: set<Digest>): int
    requires s <= catalog.Keys
  {
    if s == {} then 0 else catalog[Pick(s)].size + Total(catalog, s - {Pick(s)})
  }

  lemma {:induction false} TotalAddsOne(catalog: map<Digest, Info>, s: set<Digest>, d: Digest)
    requires s <= catalog.Keys && d in catalog && d !in s
    ensures Total(catalog, s + {d}) == Total(catalog, s) + catalog[d].size
    decreases |s|
  {
    var t := s + {d};
    var p := Pick(t);
    if p == d {
      assert t - {p} == s;
    } else {
      assert t - {p} == (s - {p}) + {d} && s == (s - {p}) + {p};
      TotalAddsOne(catalog, s - {p}, d);
      TotalAddsOne(catalog, s - {p}, p);
    }
  }

  lemma {:induction false} TotalsAdd(catalog: map<Digest, Info>, s: set<Digest>, t: set<Digest>)
    requires s <= catalog.Keys && t <= catalog.Keys && s !! t
    ensures Total(catalog, s + t) == Total(catalog, s) + Total(catalog, t)
    decreases |t|
  {
    if t == {} {
      assert s + t == s;
    } else {
      var d := Pick(t);
      assert s + t == (s + (t - {d})) + {d};
      TotalsAdd(catalog, s, t - {d});
      TotalAddsOne(catalog, s + (t - {d}), d);
    }
  }

  // ---------------------------------------------------------------------------------------------
  // Platforms
  // ---------------------------------------------------------------------------------------------

  /** The platforms that index entries name, in order; an entry without an architecture names none. */
  function Formatted(entries: seq<Descriptor>): seq<string> {
    if entries == [] then [] else
      var n := |entries| - 1;
      var name := FormatPlatform(entries[n].platform);
      Formatted(entries[..n]) + if name != "" then [name] else []
  }

  /** The entries that name an architecture, in order. */
  ghost function WithArchitecture(entries: seq<Descriptor>): (r: seq<Descriptor>)
    ensures forall e :: e in r ==> e in entries && e.platform.Some? && e.platform.value.architecture != ""
    ensures forall e :: e in entries && e.platform.Some? && e.platform.value.architecture != "" ==> e in r
  {
    if entries == [] then [] else
      var n := |entries| - 1;
      var e := entries[n];
      assert entries == entries[..n] + [e];
      WithArchitecture(entries[..n]) + if e.platform.Some? && e.platform.value.architecture != "" then [e] else []
  }

  /** The architecture alone if there is no variant, and otherwise architecture, slash, variant. */
  ghost predicate Spells(name: string, e: Descriptor) {
    && e.platform.Some? && e.platform.value.architecture != ""
    && var Platform(architecture, variant) := e.platform.value;
    && architecture <= name
    && (variant == "" ==> |name| == |architecture|)
    && (variant != "" ==> name[|architecture|..] == ['/'] + variant)
  }

  /** The names belong, in order, to the entries with an architecture. */
  ghost predicate SpellOut(names: seq<string>, entries: seq<Descriptor>) {
    SpellEach(names, WithArchitecture(entries))
  }

  /** Cut at its first slash a name gives back architecture and variant. */
  lemma NameGivesBoth(name: string, e: Descriptor)
    requires Spells(name, e) && '/' !in e.platform.value.architecture
    ensures '/' in name <==> e.platform.value.variant != ""
    ensures forall i :: 0 <= i < |name| && name[i] == '/' && '/' !in name[..i] ==>
              name[..i] == e.platform.value.architecture && name[i + 1..] == e.platform.value.variant
  {
    var Platform(architecture, variant) := e.platform.value;
    assert name == architecture + name[|architecture|..];
    if variant != "" {
      assert name[|architecture|] == '/' && name[|architecture| + 1..] == variant;
      assert name[..|architecture|] == architecture;
      assert forall i :: 0 <= i < |architecture| ==> name[i] == architecture[i] != '/';
      forall i | |architecture| < i <= |name| ensures '/' in name[..i] {
        assert name[..i][|architecture|] == '/';
      }
    }
  }

  lemma {:induction false} FormattedSpells(entries: seq<Descriptor>)
    ensures SpellOut(Formatted(entries), entries)
    decreases |entries|
  {
    if entries != [] {
      var n := |entries| - 1;
      FormattedSpells(entries[..n]);
      var name := FormatPlatform(entries[n].platform);
      if name != "" {
        FormatSpells(entries[n]);
        SpellOneMore(Formatted(entries[..n]), WithArchitecture(entries[..n]), name, entries[n]);
      }
    }
  }

  lemma FormatSpells(e: Descriptor)
    requires e.platform.Some? && e.platform.value.architecture != ""
    ensures Spells(FormatPlatform(e.platform), e)
  {
  }

  ghost predicate SpellEach(names: seq<string>, named: seq<Descriptor>) {
    |names| == |named| && forall i :: 0 <= i < |named| ==> Spells(names[i], named[i])
  }

  lemma SpellOneMore(names: seq<string>, named: seq<Descriptor>, name: string, e: Descriptor)
    requires SpellEach(names, named) && Spells(name, e)
    ensures SpellEach(names + [name], named + [e])
  {
  }

  lemma {:induction false} FormattedConcat(a: seq<Descriptor>, b: seq<Descriptor>)
    ensures Formatted(a + b) == Formatted(a) + Formatted(b)
    decreases |b|
  {
    if b == [] {
      assert a + b == a;
    } else {
      assert (a + b)[..|a + b| - 1] == a + b[..|b| - 1];
      FormattedConcat(a, b[..|b| - 1]);
    }
  }

  ghost predicate IsManifest(g: Graph, d: Digest) {
    d in g.catalog && g.catalog[d].kind.Manifest?
  }

  ghost predicate Names(entries: seq<Descriptor>, d: Digest) {
    exists i :: 0 <= i < |entries| && entries[i].digest == d
  }

  /** The entries name each manifest of the set once, and nothing else. */
  ghost predicate Lists(g: Graph, s: set<Digest>, entries: seq<Descriptor>) {
    && (forall i, j :: 0 <= i < j < |entries| ==> entries[i].digest != entries[j].digest)
    && (forall d :: Names(entries, d) <==> d in s && IsManifest(g, d))
  }

  /** Every entry stands in some index of the set. */
  ghost predicate FromIndexes(g: Graph, within: set<Digest>, entries: seq<Descriptor>) {
    forall e :: e in entries ==> exists d :: d in within && e in g.Children(d)
  }

  lemma NamesConcat(a: seq<Descriptor>, b: seq<Descriptor>, d: Digest)
    ensures Names(a + b, d) <==> Names(a, d) || Names(b, d)
  {
    if i :| 0 <= i < |a| && a[i].digest == d {
      assert (a + b)[i].digest == d;
    }
    if i :| 0 <= i < |b| && b[i].digest == d {
      assert (a + b)[|a| + i].digest == d;
    }
  }

  lemma ListsConcat(g: Graph, s: set<Digest>, t: set<Digest>, a: seq<Descriptor>, b: seq<Descriptor>)
    requires Lists(g, s, a) && Lists(g, t, b) && s !! t
    ensures Lists(g, s + t, a + b)
  {
    forall d ensures Names(a + b, d) <==> d in s + t && IsManifest(g, d) {
      NamesConcat(a, b, d);
    }
    forall i, j | 0 <= i < |a| && 0 <= j < |b| ensures a[i].digest != b[j].digest {
      assert Names(a, a[i].digest) && Names(b, b[j].digest);
    }
  }

  /** `size` and `entries` account, once each, for exactly the digests that joined `before` to make `after`. */
  ghost predicate Accounts(g: Graph, before: set<Digest>, after: set<Digest>, size: int, entries: seq<Descriptor>) {
    && before <= after
    && after - before <= g.catalog.Keys
    && size == Total(g.catalog, after - before)
    && Lists(g, after - before, entries)
  }

  lemma AccountsNothing(g: Graph, seen: set<Digest>)
    ensures Accounts(g, seen, seen, 0, [])
  {
  }

  lemma AccountsOne(g: Graph, before: set<Digest>, d: Digest, size: int)
    requires d !in before && d in g.catalog && g.catalog[d].size == size && !IsManifest(g, d)
    ensures Accounts(g, before, before + {d}, size, [])
  {
    TotalAddsOne(g.catalog, {}, d);
    assert (before + {d}) - before == {} + {d};
  }

  lemma AccountsManifest(g: Graph, before: set<Digest>, m: Descriptor)
    requires m.digest !in before && g.Describes(m, Manifest)
    ensures Accounts(g, before, before + {m.digest}, m.size, [m])
  {
    TotalAddsOne(g.catalog, {}, m.digest);
    assert (before + {m.digest}) - before == {} + {m.digest};
    assert [m][0].digest == m.digest;
  }

  lemma AccountsCompose(g: Graph, a: set<Digest>, b: set<Digest>, c: set<Digest>, x: int, y: int, e: seq<Descriptor>,
      f: seq<Descriptor>)
    requires Accounts(g, a, b, x, e) && Accounts(g, b, c, y, f)
    ensures Accounts(g, a, c, x + y, e + f)
  {
    TotalsAdd(g.catalog, b - a, c - b);
    ListsConcat(g, b - a, c - b, e, f);
    assert c - a == (b - a) + (c - b);
  }

  /** The newly seen digests are finished: their bytes were readable and their successors are seen. */
  ghost predicate Finished(g: Graph, newly: set<Digest>, seen: set<Digest>) {
    forall d :: d in newly ==> d in g.catalog && g.Readable(d) && g.Successors(d) <= seen
  }

  // ---------------------------------------------------------------------------------------------
  // The walk
  // ---------------------------------------------------------------------------------------------

  class Walker {
    const store: Store
    var seen: set<Digest>

    constructor (store: Store)
      ensures this.store == store && seen == {}
    {
      this.store := store;
      seen := {};
    }

    /** The size of a config or layer the first time its digest is met, nothing after that. */
    method CountBlobOnce(blob: Descriptor, ghost g: Graph, ghost m: Digest, ghost before: set<Digest>,
        ghost sofar: int, ghost entries: seq<Descriptor>)
      returns (size: int)
      requires g.ContentAddressed() && m in g.catalog && blob in g.Blobs(m)
      requires Accounts(g, before, seen, sofar, entries)
      modifies this
      ensures seen == old(seen) + {blob.digest} && blob.digest in g.Successors(m)
      ensures Accounts(g, before, seen, sofar + size, entries)
      ensures Leaves(g, seen - old(seen))
    {
      if blob.digest in seen {
        return 0;
      }
      CountBlob(g, m, blob, before, seen, sofar, entries);
      seen := seen + {blob.digest};
      return blob.size;
    }

    /** Counts a manifest, whose digest is already in `seen`, and those of its blobs that are not. */
    method UniqueManifestSize(desc: Descriptor, blob: Blob, ghost g: Graph, ghost before: set<Digest>)
      returns (r: Result<int>)
      requires g.ContentAddressed() && g.Describes(desc, Manifest)
      requires desc.digest in g.nodes && g.nodes[desc.digest] == Stored(desc.size, blob)
      requires desc.digest !in before && seen == before + {desc.digest}
      modifies this
      ensures old(seen) <= seen <= old(seen) + g.Successors(desc.digest)
      ensures r.Err? <==> blob.asManifest.None?
      ensures r.Ok? ==> Finished(g, seen - before, seen)
      ensures r.Ok? ==> Accounts(g, before, seen, r.value, [desc])
    {
      if blob.asManifest.None? {
        return Err;
      }
      var manifest := blob.asManifest.value;
      ghost var blobs := g.Blobs(desc.digest);
      assert blobs == [manifest.config] + manifest.layers;
      var total := desc.size;
      AccountsManifest(g, before, desc);
      var size := CountBlobOnce(manifest.config, g, desc.digest, before, total, [desc]);
      total := total + size;
      for i := 0 to |manifest.layers|
        invariant old(seen) <= seen <= old(seen) + g.Successors(desc.digest)
        invariant Covered(blobs[..i + 1], seen)
        invariant Accounts(g, before, seen, total, [desc])
        invariant Leaves(g, seen - old(seen))
      {
        ghost var prior := seen;
        assert manifest.layers[i] == blobs[i + 1];
        size := CountBlobOnce(manifest.layers[i], g, desc.digest, before, total, [desc]);
        total := total + size;
        CoveredNext(blobs, i + 1, prior, seen);
      }
      assert blobs[..|blobs|] == blobs;
      ManifestFinished(g, desc.digest, before, seen);
      return Ok(total);
    }

    /** One manifest entry of an index: mark, fetch, count, and note its platform. */
    method CountManifest(child: Descriptor, ghost g: Graph) returns (r: Result<Summary>)
      requires g.ContentAddressed() && g.Describes(child, Manifest) && child.digest !in seen
      requires Agrees(g, seen)
      modifies this
      ensures old(seen) <= seen <= old(seen) + {child.digest} + g.Successors(child.digest)
      ensures r.Ok? ==> child.digest in seen && Accounts(g, old(seen), seen, r.value.size, [child])
      ensures r.Ok? ==> r.value.platforms == Formatted([child]) && SpellOut(r.value.platforms, [child])
      ensures r.Ok? ==> Finished(g, seen - old(seen), seen)
      ensures r.Err? ==> !g.Readable(child.digest)
    {
      ghost var before := seen;
      seen := seen + {child.digest};
      var b := Fetch(store, child);
      if b.None? {
        return Err;
      }
      var size := UniqueManifestSize(child, b.value, g, before);
      if size.Err? {
        return Err;
      }
      var platforms := [];
      var name := FormatPlatform(child.platform);
      if name != "" {
        platforms := platforms + [name];
      }
      assert [child][..0] == [];
      FormattedSpells([child]);
      return Ok(Summary(size.value, platforms));
    }

    /**
     * One entry of an index: skipped if seen, otherwise walked, counted as a manifest, or just counted.
     * `entries` are the manifest entries met for the first time, in the order of the walk.
     */
    method WalkChild(child: Descriptor, ghost parent: Digest, ghost g: Graph, ghost within: set<Digest>)
      returns (r: Result<Summary>, ghost entries: seq<Descriptor>)
      requires g.ContentAddressed() && g.Closed(within)
      requires parent in within && child in g.Children(parent)
      requires Agrees(g, seen)
      modifies this
      ensures old(seen) <= seen <= old(seen) + within
      ensures r.Ok? ==> child.digest in seen && Walked(g, within, old(seen), seen, r.value, entries)
      ensures r.Err? ==> exists d :: d in within && !g.Readable(d)
      decreases |store.Keys - seen|, 1
    {
      entries := [];
      assert g.NodeAddressed(parent) && child.digest in g.Successors(parent);
      if child.digest in seen {
        AccountsNothing(g, seen);
        return Ok(Summary(0, [])), entries;
      }
      match child.kind {
        case Index =>
          var b := Fetch(store, child);
          if b.None? {
            assert !g.Readable(child.digest);
            return Err, entries;
          }
          assert store.Keys + {child.digest} - seen == store.Keys - seen;
          r, entries := WalkIndex(child, b.value, g, within);
        case Manifest =>
          r := CountManifest(child, g);
          entries := [child];
        case Other =>
          AccountsOne(g, seen, child.digest, child.size);
          seen := seen + {child.digest};
          return Ok(Summary(child.size, [])), entries;
      }
    }

    method WalkIndex(desc: Descriptor, blob: Blob, ghost g: Graph, ghost within: set<Digest>)
      returns (r: Result<Summary>, ghost entries: seq<Descriptor>)
      requires g.ContentAddressed() && g.Closed(within)
      requires desc.digest in within && g.Describes(desc, Index)
      requires desc.digest in g.nodes && g.nodes[desc.digest] == Stored(desc.size, blob)
      requires Agrees(g, seen + {desc.digest})
      modifies this
      ensures old(seen) <= seen <= old(seen) + within
      ensures r.Ok? ==> desc.digest in seen && Walked(g, within, old(seen), seen, r.value, entries)
      ensures r.Err? ==> exists d :: d in within && !g.Readable(d)
      decreases |store.Keys + {desc.digest} - seen|, 0
    {
      entries := [];
      if desc.digest in seen {
        AccountsNothing(g, seen);
        return Ok(Summary(0, [])), entries;
      }
      ghost var before := seen;
      seen := seen + {desc.digest};
      if blob.asIndex.None? {
        assert !g.Readable(desc.digest);
        return Err, entries;
      }
      assert g.Children(desc.digest) == blob.asIndex.value;
      Shrinks(store.Keys, desc.digest, before, seen);
      r, entries := WalkChildren(desc, blob.asIndex.value, g, within, before);
      if r.Ok? {
        WalkEnds(g, within, desc.digest, before, seen, r.value, entries);
      }
    }

    /** The children of an index that has just been marked. */
    method WalkChildren(desc: Descriptor, children: seq<Descriptor>, ghost g: Graph, ghost within: set<Digest>,
        ghost before: set<Digest>)
      returns (r: Result<Summary>, ghost entries: seq<Descriptor>)
      requires g.ContentAddressed() && g.Closed(within)
      requires desc.digest in within && g.Describes(desc, Index) && g.Children(desc.digest) == children
      requires desc.digest !in before && seen == before + {desc.digest} && Agrees(g, seen)
      modifies this
      ensures old(seen) <= seen <= old(seen) + within
      ensures r.Ok? ==> Walking(g, within, before, old(seen), seen, r.value, entries) && Covered(children, seen)
      ensures r.Err? ==> exists d :: d in within && !g.Readable(d)
      decreases |store.Keys - seen|, 2
    {
      entries := [];
      ghost var start := seen;
      var totalSize := desc.size;
      var platforms := [];
      WalkStarts(g, within, before, desc);
      for i := 0 to |children|
        invariant start <= seen <= start + within
        invariant Walking(g, within, before, start, seen, Summary(totalSize, platforms), entries)
        invariant Covered(children[..i], seen)
      {
        ghost var prior, more := seen, [];
        var sub;
        StillSmaller(store.Keys, start, seen);
        sub, more := WalkChild(children[i], desc.digest, g, within);
        if sub.Err? {
          return Err, entries;
        }
        WalkedOn(g, within, before, start, prior, seen, Summary(totalSize, platforms), sub.value, entries, more);
        CoveredNext(children, i, prior, seen);
        totalSize := totalSize + sub.value.size;
        platforms := platforms + sub.value.platforms;
        entries := entries + more;
      }
      assert children[..|children|] == children;
      return Ok(Summary(totalSize, platforms)), entries;
    }

    /** The graph and the store hold the same nodes, except possibly on `done`. */
    ghost predicate Agrees(g: Graph, done: set<Digest>) {
      forall d :: d !in done ==>
        (d in store <==> d in g.nodes) && (d in store ==> store[d] == g.nodes[d])
    }
  }

  ghost predicate Leaves(g: Graph, s: set<Digest>) {
    forall d :: d in s ==> d in g.catalog && g.catalog[d].kind.Other?
  }

  /** A walk that is under way: what it has met so far, its own index aside, is finished. */
  ghost predicate Walking(g: Graph, within: set<Digest>, before: set<Digest>, start: set<Digest>, seen: set<Digest>,
                          summary: Summary, entries: seq<Descriptor>)
  {
    && Accounts(g, before, seen, summary.size, entries) && summary.platforms == Formatted(entries)
    && FromIndexes(g, within, entries) && Finished(g, seen - start, seen)
  }

  /** A complete walk from `before` to `seen`. */
  ghost predicate Walked(g: Graph, within: set<Digest>, before: set<Digest>, seen: set<Digest>, summary: Summary,
      entries: seq<Descriptor>)
  {
    Walking(g, within, before, before, seen, summary, entries)
  }

  lemma WalkStarts(g: Graph, within: set<Digest>, before: set<Digest>, desc: Descriptor)
    requires g.Describes(desc, Index) && desc.digest !in before
    ensures var seen := before + {desc.digest}; Walking(g, within, before, seen, seen, Summary(desc.size, []), [])
  {
    AccountsOne(g, before, desc.digest, desc.size);
  }

  lemma WalkEnds(g: Graph, within: set<Digest>, d: Digest, before: set<Digest>, seen: set<Digest>, summary: Summary,
      entries: seq<Descriptor>)
    requires d in g.catalog && g.catalog[d].kind.Index? && g.Readable(d) && d in seen && Covered(g.Children(d), seen)
    requires Walking(g, within, before, before + {d}, seen, summary, entries)
    ensures Walked(g, within, before, seen, summary, entries)
  {
    IndexFinished(g, d, before, seen);
  }

  lemma WalkedOn(g: Graph, within: set<Digest>, before: set<Digest>, start: set<Digest>,
                 prior: set<Digest>, seen: set<Digest>,
                 sofar: Summary, sub: Summary, entries: seq<Descriptor>, more: seq<Descriptor>)
    requires before <= start <= prior <= seen
    requires Walking(g, within, before, start, prior, sofar, entries) && Walked(g, within, prior, seen, sub, more)
    ensures var total := Summary(sofar.size + sub.size, sofar.platforms + sub.platforms);
            Walking(g, within, before, start, seen, total, entries + more)
  {
    AccountsCompose(g, before, prior, seen, sofar.size, sub.size, entries, more);
    FormattedConcat(entries, more);
    FinishedCompose(g, start, prior, seen);
  }

  lemma CountBlob(g: Graph, m: Digest, blob: Descriptor, before: set<Digest>, seen: set<Digest>, sofar: int,
      entries: seq<Descriptor>)
    requires g.ContentAddressed() && m in g.catalog && blob in g.Blobs(m) && blob.digest !in seen
    requires Accounts(g, before, seen, sofar, entries)
    ensures blob.digest in g.Successors(m) && g.Describes(blob, Other)
    ensures Accounts(g, before, seen + {blob.digest}, sofar + blob.size, entries)
  {
    assert g.NodeAddressed(m);
    AccountsOne(g, seen, blob.digest, blob.size);
    AccountsCompose(g, before, seen, seen + {blob.digest}, sofar, blob.size, entries, []);
    assert entries + [] == entries;
  }

  lemma ManifestFinished(g: Graph, m: Digest, before: set<Digest>, seen: set<Digest>)
    requires m in g.catalog && g.catalog[m].kind.Manifest? && g.Readable(m)
    requires Covered(g.Blobs(m), seen)
    requires Leaves(g, seen - (before + {m}))
    ensures g.Successors(m) <= seen && Finished(g, seen - before, seen)
  {
  }

  ghost predicate Covered(descs: seq<Descriptor>, seen: set<Digest>) {
    forall c :: c in descs ==> c.digest in seen
  }

  lemma CoveredNext(children: seq<Descriptor>, i: nat, prior: set<Digest>, seen: set<Digest>)
    requires i < |children| && Covered(children[..i], prior) && prior <= seen && children[i].digest in seen
    ensures Covered(children[..i + 1], seen)
  {
    assert children[..i + 1] == children[..i] + [children[i]];
  }

  lemma FinishedCompose(g: Graph, start: set<Digest>, prior: set<Digest>, seen: set<Digest>)
    requires start <= prior <= seen
    requires Finished(g, prior - start, prior) && Finished(g, seen - prior, seen)
    ensures Finished(g, seen - start, seen)
  {
  }

  lemma IndexFinished(g: Graph, d: Digest, before: set<Digest>, seen: set<Digest>)
    requires d in g.catalog && g.catalog[d].kind.Index? && g.Readable(d) && d in seen
    requires Covered(g.Children(d), seen) && Finished(g, seen - (before + {d}), seen)
    ensures Finished(g, seen - before, seen)
  {
    assert g.Blobs(d) == [];
  }

  lemma Shrinks(keys: set<Digest>, d: Digest, before: set<Digest>, seen: set<Digest>)
    requires d !in before && before + {d} <= seen
    ensures |keys - seen| < |keys + {d} - before|
  {
    var less, more := keys - seen, keys + {d} - before;
    assert less <= more && d in more - less;
    assert |more| == |less| + |more - less|;
  }

  lemma StillSmaller(keys: set<Digest>, start: set<Digest>, seen: set<Digest>)
    requires start <= seen
    ensures |keys - seen| <= |keys - start|
  {
    assert |keys - start| == |keys - seen| + |(keys - start) - (keys - seen)|;
  }

  /** The graph an inspection sees: what the store holds, with the root's bytes as they were handed over. */
  ghost function Seen(store: Store, root: Descriptor, blob: Blob, catalog: map<Digest, Info>): Graph {
    Graph(store[root.digest := Stored(root.size, blob)], catalog)
  }

  /**
   * On every content-addressed graph the inspection succeeds exactly when every reachable index and
   * manifest can be read; it then returns the sum of the sizes of all reachable digests, each counted
   * once, and in order the platforms of those of `entries` that have an architecture; these entries name
   * every reachable manifest once, each by an entry of a reachable index.
   */
  method InspectIndex(store: Store, root: Descriptor, blob: Blob, ghost catalog: map<Digest, Info>)
    returns (r: Result<Summary>, ghost entries: seq<Descriptor>)
    requires Seen(store, root, blob, catalog).ContentAddressed()
    requires Seen(store, root, blob, catalog).Describes(root, Index)
    ensures var g := Seen(store, root, blob, catalog);
            r.Ok? <==> forall d :: d in g.Reachable(root.digest) ==> g.Readable(d)
    ensures var g := Seen(store, root, blob, catalog);
            r.Ok? ==> r.value.size == Total(catalog, g.Reachable(root.digest))
    ensures var g := Seen(store, root, blob, catalog);
            r.Ok? ==>
              && SpellOut(r.value.platforms, entries)
              && Lists(g, g.Reachable(root.digest), entries) && FromIndexes(g, g.Reachable(root.digest), entries)
  {
    ghost var g := Seen(store, root, blob, catalog);
    ghost var reachable := g.Reachable(root.digest);
    g.ReachableIsClosed(root.digest);
    var walker := new Walker(store);
    r, entries := walker.WalkIndex(root, blob, g, reachable);
    if r.Ok? {
      assert walker.seen - {} == walker.seen;
      assert g.Closed(walker.seen);
      g.ReachableIsLeast(root.digest, walker.seen);
      assert walker.seen == reachable;
      FormattedSpells(entries);
    }
  }

  // ---------------------------------------------------------------------------------------------
  // Order
  // ---------------------------------------------------------------------------------------------

  /** The same bytes up to the order in which an index lists children and a manifest lists layers. */
  ghost predicate Reordered(a: Stored, b: Stored) {
    && a.length == b.length
    && a.blob.asIndex.Some? == b.blob.asIndex.Some? && a.blob.asManifest.Some? == b.blob.asManifest.Some?
    && (a.blob.asIndex.Some? ==> multiset(a.blob.asIndex.value) == multiset(b.blob.asIndex.value))
    && (a.blob.asManifest.Some? ==>
          && a.blob.asManifest.value.config == b.blob.asManifest.value.config
          && multiset(a.blob.asManifest.value.layers) == multiset(b.blob.asManifest.value.layers))
  }

  ghost predicate SameUpToOrder(g: Graph, h: Graph) {
    && g.catalog == h.catalog && g.nodes.Keys == h.nodes.Keys
    && forall d :: d in g.nodes ==> Reordered(g.nodes[d], h.nodes[d])
  }

  lemma SameMembers(a: seq<Descriptor>, b: seq<Descriptor>)
    requires multiset(a) == multiset(b)
    ensures forall c :: c in a <==> c in b
  {
    assert forall c :: c in a <==> c in multiset(a);
    assert forall c :: c in b <==> c in multiset(b);
  }

  lemma SameLinks(g: Graph, h: Graph, d: Digest)
    requires SameUpToOrder(g, h)
    ensures forall c :: c in g.Children(d) <==> c in h.Children(d)
    ensures g.Successors(d) == h.Successors(d)
  {
    if d in g.nodes {
      var a, b := g.nodes[d].blob, h.nodes[d].blob;
      assert Reordered(g.nodes[d], h.nodes[d]);
      if a.asIndex.Some? {
        SameMembers(a.asIndex.value, b.asIndex.value);
      }
      if a.asManifest.Some? {
        SameMembers(a.asManifest.value.layers, b.asManifest.value.layers);
      }
    }
  }

  lemma SamePaths(g: Graph, h: Graph, from: Digest, to: Digest)
    requires SameUpToOrder(g, h) && g.Reaches(from, to)
    ensures h.Reaches(from, to)
  {
    var p :| g.IsPath(p) && p[0] == from && p[|p| - 1] == to;
    forall i | 0 < i < |p| ensures p[i] in h.Successors(p[i - 1]) {
      SameLinks(g, h, p[i - 1]);
    }
    assert h.IsPath(p);
  }

  /**
   * The order in which indexes list children and manifests list layers changes neither whether an
   * inspection succeeds nor the size it returns.
   */
  lemma OrderIsIrrelevant(g: Graph, h: Graph, root: Digest)
    requires SameUpToOrder(g, h)
    ensures g.Reachable(root) == h.Reachable(root)
    ensures Total(g.catalog, g.Reachable(root)) == Total(h.catalog, h.Reachable(root))
    ensures forall d :: d in g.catalog ==> (g.Readable(d) <==> h.Readable(d))
  {
    forall d ensures g.Reaches(root, d) == h.Reaches(root, d) {
      if g.Reaches(root, d) {
        SamePaths(g, h, root, d);
      }
      if h.Reaches(root, d) {
        SamePaths(h, g, root, d);
      }
    }
  }

  /** All index entries in the set that name the same manifest name the same platform. */
  ghost predicate PlatformsAgree(g: Graph, s: set<Digest>) {
    forall i, j, c, e :: i in s && j in s && c in g.Children(i) && e in g.Children(j) && c.digest == e.digest
      ==> FormatPlatform(c.platform) == FormatPlatform(e.platform)
  }

  ghost predicate EntriesAgree(a: seq<Descriptor>, b: seq<Descriptor>) {
    forall i, j :: 0 <= i < |a| && 0 <= j < |b| && a[i].digest == b[j].digest
      ==> FormatPlatform(a[i].platform) == FormatPlatform(b[j].platform)
  }

  lemma {:induction false} SamePlatforms(a: seq<Descriptor>, b: seq<Descriptor>)
    requires forall i, j :: 0 <= i < j < |a| ==> a[i].digest != a[j].digest
    requires forall i, j :: 0 <= i < j < |b| ==> b[i].digest != b[j].digest
    requires forall d :: Names(a, d) <==> Names(b, d)
    requires EntriesAgree(a, b)
    ensures multiset(Formatted(a)) == multiset(Formatted(b))
    decreases |a|
  {
    if a == [] {
      assert b != [] ==> Names(b, b[0].digest);
    } else {
      var n := |a| - 1;
      assert Names(a, a[n].digest);
      var k :| 0 <= k < |b| && b[k].digest == a[n].digest;
      var rest := b[..k] + b[k + 1..];
      forall d ensures Names(a[..n], d) <==> Names(rest, d) {
        NamesWithout(a, n, d);
        NamesWithout(b, k, d);
        assert a[..n] + a[n + 1..] == a[..n];
      }
      SamePlatforms(a[..n], rest);
      SplitAt(a, n);
      SplitAt(b, k);
      assert a[n + 1..] == [] && [a[n]] + a[n + 1..] == [a[n]];
      PlatformsMatch(a, a[..n], a[n], b, b[..k], b[k], b[k + 1..]);
    }
  }

  lemma NamesWithout(s: seq<Descriptor>, k: nat, d: Digest)
    requires k < |s| && forall i, j :: 0 <= i < j < |s| ==> s[i].digest != s[j].digest
    ensures Names(s[..k] + s[k + 1..], d) <==> Names(s, d) && d != s[k].digest
  {
    var t := s[..k] + s[k + 1..];
    if i :| 0 <= i < |s| && s[i].digest == d {
      if i != k {
        assert t[if i < k then i else i - 1] == s[i];
      }
    }
    if i :| 0 <= i < |t| && t[i].digest == d {
      assert t[i] == s[if i < k then i else i + 1];
    }
  }

  lemma PlatformsMatch(a: seq<Descriptor>, a': seq<Descriptor>, x: Descriptor,
                       b: seq<Descriptor>, b1: seq<Descriptor>, y: Descriptor, b2: seq<Descriptor>)
    requires a == a' + [x] && b == b1 + ([y] + b2) && FormatPlatform(x.platform) == FormatPlatform(y.platform)
    requires multiset(Formatted(a')) == multiset(Formatted(b1 + b2))
    ensures multiset(Formatted(a)) == multiset(Formatted(b))
  {
    FormattedConcat(a', [x]);
    FormattedAround(b1, [y], b2);
    FormattedOne(x, y);
  }

  lemma SplitAt(s: seq<Descriptor>, k: nat)
    requires k < |s|
    ensures s == s[..k] + ([s[k]] + s[k + 1..])
  {
  }

  lemma FormattedOne(c: Descriptor, e: Descriptor)
    requires FormatPlatform(c.platform) == FormatPlatform(e.platform)
    ensures Formatted([c]) == Formatted([e])
  {
    assert [c][..0] == [] && [e][..0] == [];
  }

  lemma FormattedAround(a: seq<Descriptor>, b: seq<Descriptor>, c: seq<Descriptor>)
    ensures multiset(Formatted(a + (b + c))) == multiset(Formatted(a + c)) + multiset(Formatted(b))
  {
    FormattedConcat(a, c);
    FormattedConcat(a, b + c);
    FormattedConcat(b, c);
    MiddleOut(Formatted(a), Formatted(b), Formatted(c));
  }

  lemma MiddleOut(a: seq<string>, b: seq<string>, c: seq<string>)
    ensures multiset(a + (b + c)) == multiset(a + c) + multiset(b)
  {
  }

  /**
   * Where the index entries agree on platforms the platforms, too, do not depend on the order: whatever
   * entries two walks over reordered graphs have met, they name the same multiset of platforms.
   */
  lemma PlatformsAreDetermined(g: Graph, h: Graph, root: Digest, e: seq<Descriptor>, f: seq<Descriptor>)
    requires SameUpToOrder(g, h) && PlatformsAgree(g, g.Reachable(root))
    requires Lists(g, g.Reachable(root), e) && FromIndexes(g, g.Reachable(root), e)
    requires Lists(h, h.Reachable(root), f) && FromIndexes(h, h.Reachable(root), f)
    ensures multiset(Formatted(e)) == multiset(Formatted(f))
  {
    OrderIsIrrelevant(g, h, root);
    forall i, j | 0 <= i < |e| && 0 <= j < |f| && e[i].digest == f[j].digest
      ensures FormatPlatform(e[i].platform) == FormatPlatform(f[j].platform)
    {
      assert e[i] in e && f[j] in f;
      var p :| p in g.Reachable(root) && e[i] in g.Children(p);
      var q :| q in h.Reachable(root) && f[j] in h.Children(q);
      SameLinks(g, h, q);
    }
    assert forall d :: IsManifest(g, d) <==> IsManifest(h, d);
    SamePlatforms(e, f);
  }
}

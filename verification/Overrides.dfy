/** Registry overrides: parsed and sorted once, then applied to every image reference. */
module Overrides {
  import opened Outcomes
  import opened Lex

  datatype Override = Override(source: string, target: string)

  /** The text is a source, an equals sign and a target; the source has no equals sign, and neither is empty. */
  ghost predicate Maps(mapping: string, v: Override) {
    mapping == v.source + "=" + v.target && '=' !in v.source && v.source != "" && v.target != ""
  }

  function ParseMapping(mapping: string): Option<Override> {
    var i := IndexOf(mapping, "=");
    if i < 0 || i == 0 || i + 1 == |mapping| then None
    else Some(Override(mapping[..i], mapping[i + 1..]))
  }

  lemma ParsesIff(mapping: string, v: Override)
    ensures ParseMapping(mapping) == Some(v) <==> Maps(mapping, v)
  {
    var i := IndexOf(mapping, "=");
    if i >= 0 {
      forall j | 0 <= j < i ensures mapping[j] != '=' {
        assert !At(mapping, "=", j);
      }
      assert mapping == mapping[..i] + "=" + mapping[i + 1..];
    }
    if Maps(mapping, v) {
      var n := |v.source|;
      assert At(mapping, "=", n);
      assert forall k :: 0 <= k < n ==> mapping[k] == v.source[k] && mapping[k] in v.source;
      assert mapping[i] == '=';
      assert mapping[..n] == v.source && mapping[n + 1..] == v.target;
    }
  }

  /** Greatest source first; equal sources do not occur. */
  ghost predicate Descending(vs: seq<Override>) {
    forall i, j :: 0 <= i < j < |vs| ==> Less(vs[j].source, vs[i].source)
  }

  ghost predicate Parses(mapping: string) {
    exists v :: Maps(mapping, v)
  }

  ghost predicate AllParse(flags: seq<string>) {
    forall i :: 0 <= i < |flags| ==> Parses(flags[i])
  }

  ghost predicate SameSource(a: string, b: string) {
    exists v, w :: Maps(a, v) && Maps(b, w) && v.source == w.source
  }

  ghost predicate SourcesDiffer(flags: seq<string>) {
    forall i, j :: 0 <= i < j < |flags| ==> !SameSource(flags[i], flags[j])
  }

  ghost predicate ListsExactly(flags: seq<string>, vs: seq<Override>) {
    forall v :: v in vs <==> exists i :: 0 <= i < |flags| && Maps(flags[i], v)
  }

  /** What parsing promises: success exactly for well-formed flags with distinct sources, and a sorted list. */
  ghost predicate ParsedAs(flags: seq<string>, r: Result<seq<Override>>) {
    && (r.Ok? <==> AllParse(flags) && SourcesDiffer(flags))
    && (r.Ok? ==> Descending(r.value) && ListsExactly(flags, r.value))
  }

  /** The first flags are parsed, and their sources differ. */
  ghost predicate ParsedSoFar(flags: seq<string>, result: seq<Override>) {
    && |result| <= |flags|
    && (forall j :: 0 <= j < |result| ==> ParseMapping(flags[j]) == Some(result[j]))
    && (forall j, k :: 0 <= j < k < |result| ==> result[j].source != result[k].source)
  }

  lemma ParsedOneMore(flags: seq<string>, result: seq<Override>, v: Override)
    requires ParsedSoFar(flags, result) && |result| < |flags| && ParseMapping(flags[|result|]) == Some(v)
    requires forall j :: 0 <= j < |result| ==> result[j].source != v.source
    ensures ParsedSoFar(flags, result + [v])
  {
  }

  method ParseRegistryOverrides(flags: seq<string>) returns (r: Result<seq<Override>>)
    ensures ParsedAs(flags, r)
  {
    var result: seq<Override> := [];
    for i := 0 to |flags|
      invariant |result| == i && ParsedSoFar(flags, result)
    {
      var parsed := ParseMapping(flags[i]);
      if parsed.None? {
        forall v ensures !Maps(flags[i], v) {
          ParsesIff(flags[i], v);
        }
        assert !Parses(flags[i]);
        return Err;
      }
      var repeated := HasSource(result, parsed.value.source);
      if repeated {
        SourceRepeats(flags, result, i, parsed.value);
        return Err;
      }
      ParsedOneMore(flags, result, parsed.value);
      result := result + [parsed.value];
    }
    var sorted := SortDescending(result);
    ParsedInOrder(flags, result);
    return Ok(sorted);
  }

  method HasSource(vs: seq<Override>, source: string) returns (r: bool)
    ensures r <==> exists j :: 0 <= j < |vs| && vs[j].source == source
  {
    for j := 0 to |vs|
      invariant forall k :: 0 <= k < j ==> vs[k].source != source
    {
      if vs[j].source == source {
        return true;
      }
    }
    return false;
  }

  lemma SourceRepeats(flags: seq<string>, result: seq<Override>, i: nat, v: Override)
    requires i < |flags| && |result| == i && ParsedSoFar(flags, result)
    requires ParseMapping(flags[i]) == Some(v) && exists j :: 0 <= j < i && result[j].source == v.source
    ensures !SourcesDiffer(flags)
  {
    var j :| 0 <= j < i && result[j].source == v.source;
    ParsesIff(flags[j], result[j]);
    ParsesIff(flags[i], v);
    assert SameSource(flags[j], flags[i]);
  }

  lemma ParsedInOrder(flags: seq<string>, result: seq<Override>)
    requires |result| == |flags| && ParsedSoFar(flags, result)
    ensures AllParse(flags) && SourcesDiffer(flags) && ListsExactly(flags, result)
  {
    forall i, v | 0 <= i < |flags| ensures Maps(flags[i], v) <==> v == result[i] {
      ParsesIff(flags[i], v);
    }
    assert forall i :: 0 <= i < |flags| ==> Maps(flags[i], result[i]);
    forall v ensures v in result <==> exists i :: 0 <= i < |flags| && Maps(flags[i], v) {
      if v in result {
        var i :| 0 <= i < |result| && result[i] == v;
        assert Maps(flags[i], v);
      }
    }
  }

  /** Sorts distinct sources in descending order. */
  method SortDescending(vs: seq<Override>) returns (r: seq<Override>)
    requires forall j, k :: 0 <= j < k < |vs| ==> vs[j].source != vs[k].source
    ensures Descending(r) && forall v :: v in r <==> v in vs
  {
    r := [];
    for i := 0 to |vs|
      invariant Descending(r) && forall v :: v in r <==> v in vs[..i]
    {
      assert forall v :: v in r ==> v.source != vs[i].source;
      assert vs[..i + 1] == vs[..i] + [vs[i]];
      r := InsertDescending(r, vs[i]);
    }
    assert vs[..|vs|] == vs;
  }

  method InsertDescending(vs: seq<Override>, v: Override) returns (r: seq<Override>)
    requires Descending(vs) && forall x :: x in vs ==> x.source != v.source
    ensures Descending(r) && forall x :: x in r <==> x in vs || x == v
  {
    var i := 0;
    while i < |vs| && Less(v.source, vs[i].source)
      invariant 0 <= i <= |vs|
      invariant forall j :: 0 <= j < i ==> Less(v.source, vs[j].source)
    {
      i := i + 1;
    }
    r := vs[..i] + [v] + vs[i..];
    RestIsLess(vs, i, v);
    Inserted(vs, i, v);
  }

  /** Where the insertion point is found everything behind it is less. */
  lemma RestIsLess(vs: seq<Override>, i: nat, v: Override)
    requires Descending(vs) && i <= |vs| && forall x :: x in vs ==> x.source != v.source
    requires i < |vs| ==> !Less(v.source, vs[i].source)
    ensures forall j :: i <= j < |vs| ==> Less(vs[j].source, v.source)
  {
    forall j | i <= j < |vs| ensures Less(vs[j].source, v.source) {
      LessIsTotal(vs[i].source, v.source);
      assert vs[i] in vs;
      if i < j {
        LessIsTransitive(vs[j].source, vs[i].source, v.source);
      }
    }
  }

  lemma InsertedAt(vs: seq<Override>, i: nat, v: Override, k: nat)
    requires i <= |vs| && k <= |vs|
    ensures (vs[..i] + [v] + vs[i..])[k] == if k < i then vs[k] else if k == i then v else vs[k - 1]
  {
  }

  lemma InsertedMembers(vs: seq<Override>, i: nat, v: Override, x: Override)
    requires i <= |vs|
    ensures x in vs[..i] + [v] + vs[i..] <==> x in vs || x == v
  {
    assert vs == vs[..i] + vs[i..];
  }

  lemma Inserted(vs: seq<Override>, i: nat, v: Override)
    requires Descending(vs) && i <= |vs|
    requires forall j :: 0 <= j < i ==> Less(v.source, vs[j].source)
    requires forall j :: i <= j < |vs| ==> Less(vs[j].source, v.source)
    ensures var r := vs[..i] + [v] + vs[i..]; Descending(r) && forall x :: x in r <==> x in vs || x == v
  {
    var r := vs[..i] + [v] + vs[i..];
    forall x ensures x in r <==> x in vs || x == v {
      InsertedMembers(vs, i, v, x);
    }
    forall a, b | 0 <= a < b < |r| ensures Less(r[b].source, r[a].source) {
      InsertedAt(vs, i, v, a);
      InsertedAt(vs, i, v, b);
    }
  }

  /** strings.Replace with a count of one */
  function ReplaceFirst(s: string, from: string, to: string): string {
    var i := IndexOf(s, from);
    if i < 0 then s else s[..i] + to + s[i + |from|..]
  }

  /** The first override whose source begins the reference wins. */
  function Overridden(ref: string, vs: seq<Override>): string {
    if vs == [] then ref
    else if vs[0].source <= ref then ReplaceFirst(ref, vs[0].source, vs[0].target)
    else Overridden(ref, vs[1..])
  }

  /** The first source that begins the reference gives way to its target; if none does, nothing changes. */
  ghost predicate ByFirst(ref: string, vs: seq<Override>, r: string) {
    if exists v :: v in vs && v.source <= ref then exists k :: IsFirstMatch(ref, vs, k, r) else r == ref
  }

  ghost predicate IsFirstMatch(ref: string, vs: seq<Override>, k: nat, r: string) {
    && k < |vs| && (forall j :: 0 <= j < k ==> !(vs[j].source <= ref))
    && vs[k].source <= ref && r == vs[k].target + ref[|vs[k].source|..]
  }

  /** So does the longest source that begins it. */
  ghost predicate ByLongest(ref: string, vs: seq<Override>, r: string) {
    if exists v :: v in vs && v.source <= ref
    then exists v :: IsLongestMatch(ref, vs, v) && r == v.target + ref[|v.source|..]
    else r == ref
  }

  lemma LaterMatch(ref: string, vs: seq<Override>, k: nat, r: string)
    requires vs != [] && !(vs[0].source <= ref) && IsFirstMatch(ref, vs[1..], k, r)
    ensures IsFirstMatch(ref, vs, k + 1, r)
  {
    assert vs[1..][k] == vs[k + 1];
    assert forall j :: 1 <= j < k + 1 ==> vs[j] == vs[1..][j - 1];
  }

  lemma {:induction false} OverriddenByFirst(ref: string, vs: seq<Override>)
    ensures ByFirst(ref, vs, Overridden(ref, vs))
    decreases |vs|
  {
    if vs != [] {
      var r := Overridden(ref, vs);
      if vs[0].source <= ref {
        PrefixIsReplaced(ref, vs[0].source, vs[0].target);
        assert IsFirstMatch(ref, vs, 0, r);
      } else {
        OverriddenByFirst(ref, vs[1..]);
        assert forall v :: v in vs <==> v == vs[0] || v in vs[1..];
        if exists k :: IsFirstMatch(ref, vs[1..], k, r) {
          var k: nat :| IsFirstMatch(ref, vs[1..], k, r);
          LaterMatch(ref, vs, k, r);
        }
      }
    }
  }

  method ApplyOverrides(refs: seq<string>, vs: seq<Override>) returns (r: seq<(string, string)>)
    ensures |r| == |refs| && forall i :: 0 <= i < |refs| ==> r[i] == (refs[i], Overridden(refs[i], vs))
    ensures forall i :: 0 <= i < |refs| ==>
      ByFirst(refs[i], vs, r[i].1) && (Descending(vs) ==> ByLongest(refs[i], vs, r[i].1))
  {
    r := [];
    for i := 0 to |refs|
      invariant |r| == i && forall j :: 0 <= j < i ==> r[j] == (refs[j], Overridden(refs[j], vs))
    {
      var overridden := refs[i];
      for k := 0 to |vs|
        invariant overridden == refs[i] && Overridden(refs[i], vs) == Overridden(refs[i], vs[k..])
      {
        assert vs[k..][1..] == vs[k + 1..];
        if vs[k].source <= refs[i] {
          overridden := ReplaceFirst(refs[i], vs[k].source, vs[k].target);
          break;
        }
      }
      r := r + [(refs[i], overridden)];
    }
    forall i | 0 <= i < |refs|
      ensures ByFirst(refs[i], vs, r[i].1) && (Descending(vs) ==> ByLongest(refs[i], vs, r[i].1))
    {
      OverriddenByFirst(refs[i], vs);
      if Descending(vs) {
        LongestSourceWins(refs[i], vs);
      }
    }
  }

  /** `v` is the override with the longest source that begins the reference. */
  ghost predicate IsLongestMatch(ref: string, vs: seq<Override>, v: Override) {
    v in vs && v.source <= ref && forall w :: w in vs && w.source <= ref ==> |w.source| <= |v.source|
  }

  /** Of two sources that begin the same reference the longer one sorts first. */
  lemma LongerSortsFirst(ref: string, a: string, b: string)
    requires a <= ref && b <= ref && Less(a, b)
    ensures |a| < |b|
  {
    LessIsTotal(a, b);
    assert a == ref[..|a|] && b == ref[..|b|];
    if |b| < |a| {
      assert a == b + a[|b|..];
      PrefixIsLess(b, a[|b|..]);
    }
  }

  /**
   * Through a descending list every reference is rewritten by the override with the longest source
   * that begins it: the override's target followed by the untouched remainder; if none begins it, it
   * stays as it is.
   */
  lemma {:induction false} LongestSourceWins(ref: string, vs: seq<Override>)
    requires Descending(vs)
    ensures (forall v :: v in vs ==> !(v.source <= ref)) ==> Overridden(ref, vs) == ref
    ensures forall v :: IsLongestMatch(ref, vs, v) ==> Overridden(ref, vs) == v.target + ref[|v.source|..]
    ensures (exists v :: v in vs && v.source <= ref) ==> exists v :: IsLongestMatch(ref, vs, v)
    decreases |vs|
  {
    if vs != [] {
      var first := vs[0];
      assert forall v :: v in vs <==> v == first || v in vs[1..];
      if first.source <= ref {
        FirstMatch(ref, vs);
      } else {
        LongestSourceWins(ref, vs[1..]);
        forall v | IsLongestMatch(ref, vs, v) ensures IsLongestMatch(ref, vs[1..], v) {
        }
        if exists v :: v in vs && v.source <= ref {
          var v :| v in vs && v.source <= ref;
          assert v in vs[1..];
          var w :| IsLongestMatch(ref, vs[1..], w);
          assert IsLongestMatch(ref, vs, w);
        }
      }
    }
  }

  lemma FirstMatch(ref: string, vs: seq<Override>)
    requires Descending(vs) && vs != [] && vs[0].source <= ref
    ensures IsLongestMatch(ref, vs, vs[0])
    ensures Overridden(ref, vs) == vs[0].target + ref[|vs[0].source|..]
    ensures forall v :: IsLongestMatch(ref, vs, v) ==> v == vs[0]
  {
    FirstIsLongest(ref, vs);
    PrefixIsReplaced(ref, vs[0].source, vs[0].target);
  }

  lemma FirstIsLongest(ref: string, vs: seq<Override>)
    requires Descending(vs) && vs != [] && vs[0].source <= ref
    ensures forall w :: w in vs && w.source <= ref && w != vs[0] ==> |w.source| < |vs[0].source|
  {
    forall w | w in vs && w.source <= ref && w != vs[0] ensures |w.source| < |vs[0].source| {
      var j :| 0 <= j < |vs| && vs[j] == w;
      LongerSortsFirst(ref, w.source, vs[0].source);
    }
  }

  lemma PrefixIsReplaced(s: string, from: string, to: string)
    requires from <= s
    ensures ReplaceFirst(s, from, to) == to + s[|from|..]
  {
    assert At(s, from, 0);
    assert s[..0] + to == to;
  }

  lemma {:induction false} DescendingIsUnique(s: seq<Override>, t: seq<Override>)
    requires Descending(s) && Descending(t) && forall v :: v in s <==> v in t
    ensures s == t
    decreases |s|
  {
    assert |t| > 0 ==> t[0] in t;
    if s != [] {
      assert s[0] in t && t[0] in s;
      LessIsTotal(s[0].source, t[0].source);
      assert s[0] == t[0] by {
        var i :| 0 <= i < |t| && t[i] == s[0];
        var j :| 0 <= j < |s| && s[j] == t[0];
      }
      LessIsTotal(s[0].source, s[0].source);
      assert s == [s[0]] + s[1..] && t == [t[0]] + t[1..];
      assert s[0] !in s[1..] && t[0] !in t[1..];
      forall x ensures x in s[1..] <==> x in t[1..] {
        assert x in s <==> x == s[0] || x in s[1..];
        assert x in t <==> x == t[0] || x in t[1..];
      }
      DescendingIsUnique(s[1..], t[1..]);
    }
  }

  /** The order of the flags does not matter: whether they are accepted, and what they come to, is the same. */
  lemma FlagOrderIsIrrelevant(f: seq<string>, g: seq<string>, r: Result<seq<Override>>, q: Result<seq<Override>>)
    requires multiset(f) == multiset(g) && ParsedAs(f, r) && ParsedAs(g, q)
    ensures r == q
  {
    if Accepted(f) {
      SameFlags(f, g);
    }
    if Accepted(g) {
      SameFlags(g, f);
    }
    if r.Ok? {
      forall v ensures v in r.value <==> v in q.value {
        if v in r.value {
          FlagElsewhere(f, g, v);
        }
        if v in q.value {
          FlagElsewhere(g, f, v);
        }
      }
      DescendingIsUnique(r.value, q.value);
    }
  }

  lemma FlagElsewhere(f: seq<string>, g: seq<string>, v: Override)
    requires multiset(f) == multiset(g)
    requires exists i :: 0 <= i < |f| && Maps(f[i], v)
    ensures exists i :: 0 <= i < |g| && Maps(g[i], v)
  {
    var i :| 0 <= i < |f| && Maps(f[i], v);
    assert f[i] in multiset(f);
    assert f[i] in multiset(g);
    var j :| 0 <= j < |g| && g[j] == f[i];
  }

  ghost predicate Accepted(flags: seq<string>) {
    AllParse(flags) && SourcesDiffer(flags)
  }

  lemma {:induction false} TwoPlaces(s: seq<string>, x: string) returns (i: nat, j: nat)
    requires multiset(s)[x] >= 2
    ensures i < j < |s| && s[i] == s[j] == x
    decreases |s|
  {
    assert s == [s[0]] + s[1..];
    if s[0] == x {
      assert x in multiset(s[1..]);
      i, j :| i == 0 && 0 < j < |s| && s[j] == x;
    } else {
      i, j := TwoPlaces(s[1..], x);
      i, j := i + 1, j + 1;
    }
  }

  lemma TwoCopies(s: seq<string>, i: nat, j: nat)
    requires i < j < |s| && s[i] == s[j]
    ensures multiset(s)[s[i]] >= 2
  {
    assert s == s[..j] + s[j..];
    assert s[i] in s[..j] && s[j] in s[j..];
    assert s[i] in multiset(s[..j]) && s[j] in multiset(s[j..]);
  }

  lemma SameSourceEitherWay(a: string, b: string)
    ensures SameSource(a, b) <==> SameSource(b, a)
  {
  }

  lemma SameFlags(f: seq<string>, g: seq<string>)
    requires multiset(f) == multiset(g) && Accepted(f)
    ensures Accepted(g)
  {
    forall i | 0 <= i < |g| ensures exists k :: 0 <= k < |f| && f[k] == g[i] {
      assert g[i] in multiset(g);
      assert g[i] in multiset(f);
    }
    forall i, j | 0 <= i < j < |g| ensures !SameSource(g[i], g[j]) {
      if g[i] == g[j] {
        TwoCopies(g, i, j);
        var k, m := TwoPlaces(f, g[i]);
      } else {
        var k :| 0 <= k < |f| && f[k] == g[i];
        var m :| 0 <= m < |f| && f[m] == g[j];
        SameSourceEitherWay(f[k], f[m]);
      }
    }
  }
}

/** Strings: lexicographic order, sorting by it, and searching. */
module Lex {

  predicate Less(a: string, b: string) {
    if b == "" then false
    else if a == "" then true
    else if a[0] != b[0] then a[0] < b[0]
    else Less(a[1..], b[1..])
  }

  /** The order is that of the first difference; a proper prefix comes first. */
  ghost predicate Differ(a: string, b: string, k: nat) {
    k < |a| && k < |b| && a[..k] == b[..k] && a[k] < b[k]
  }

  lemma DifferLater(a: string, b: string, k: nat)
    requires a != "" && b != "" && a[0] == b[0]
    ensures Differ(a, b, k + 1) <==> Differ(a[1..], b[1..], k)
  {
    if k < |a| - 1 && k < |b| - 1 {
      assert a[..k + 1] == [a[0]] + a[1..][..k] && b[..k + 1] == [b[0]] + b[1..][..k];
    }
  }

  lemma {:induction false} LessMeans(a: string, b: string)
    requires Less(a, b)
    ensures a < b || exists k :: Differ(a, b, k)
    decreases |a|
  {
    if a != "" {
      if a[0] != b[0] {
        assert Differ(a, b, 0);
      } else {
        LessMeans(a[1..], b[1..]);
        assert a == [a[0]] + a[1..] && b == [b[0]] + b[1..];
        if k: nat :| Differ(a[1..], b[1..], k) {
          DifferLater(a, b, k);
        }
      }
    }
  }

  lemma {:induction false} DifferIsLess(a: string, b: string, k: nat)
    requires Differ(a, b, k)
    ensures Less(a, b)
    decreases k
  {
    if k > 0 {
      assert a[0] == a[..k][0] == b[..k][0] == b[0];
      DifferLater(a, b, k - 1);
      DifferIsLess(a[1..], b[1..], k - 1);
    }
  }

  lemma LessIff(a: string, b: string)
    ensures Less(a, b) <==> a < b || exists k :: Differ(a, b, k)
  {
    if Less(a, b) {
      LessMeans(a, b);
    }
    if k: nat :| Differ(a, b, k) {
      DifferIsLess(a, b, k);
    }
    if a < b {
      PrefixIsLess(a, b[|a|..]);
      assert a + b[|a|..] == b;
    }
  }

  lemma {:induction false} LessIsTransitive(a: string, b: string, c: string)
    requires Less(a, b) && Less(b, c)
    ensures Less(a, c)
    decreases |a|
  {
    if a != "" && a[0] == b[0] && b[0] == c[0] {
      LessIsTransitive(a[1..], b[1..], c[1..]);
    }
  }

  lemma {:induction false} LessIsTotal(a: string, b: string)
    ensures !(Less(a, b) && Less(b, a)) && (Less(a, b) || Less(b, a) || a == b) && !Less(a, a)
    decreases |a|
  {
    if a != "" {
      LessIsTotal(a[1..], if b != "" then b[1..] else "");
      if b != "" && a[0] == b[0] && a[1..] == b[1..] {
        assert a == [a[0]] + a[1..] == b;
      }
    }
  }

  lemma {:induction false} LessAfterPrefix(p: string, a: string, b: string)
    ensures Less(p + a, p + b) == Less(a, b)
    decreases |p|
  {
    if p == "" {
      assert p + a == a && p + b == b;
    } else {
      assert (p + a)[1..] == p[1..] + a && (p + b)[1..] == p[1..] + b;
      LessAfterPrefix(p[1..], a, b);
    }
  }

  /** A proper prefix comes before whatever extends it. */
  lemma PrefixIsLess(p: string, a: string)
    requires a != ""
    ensures Less(p, p + a)
  {
    LessAfterPrefix(p, "", a);
    assert p + "" == p;
  }

  predicate At(s: string, p: string, i: int) {
    0 <= i && i + |p| <= |s| && s[i..i + |p|] == p
  }

  lemma SliceShift(s: string, j: nat, n: nat)
    requires 0 < j && j + n <= |s|
    ensures s[1..][j - 1..j - 1 + n] == s[j..j + n]
  {
  }

  lemma LaterOccurrences(s: string, p: string)
    requires s != "" && !(p <= s)
    ensures forall j :: At(s, p, j) ==> 0 < j && At(s[1..], p, j - 1)
    ensures forall j :: At(s[1..], p, j) ==> At(s, p, j + 1)
  {
    forall j | At(s, p, j) ensures 0 < j && At(s[1..], p, j - 1) {
      if j > 0 {
        SliceShift(s, j, |p|);
      }
    }
    forall j | At(s[1..], p, j) ensures At(s, p, j + 1) {
      SliceShift(s, j + 1, |p|);
    }
  }

  /** Position of the first occurrence, or -1. */
  function IndexOf(s: string, p: string): (i: int)
    ensures i == -1 || At(s, p, i)
    ensures forall j :: At(s, p, j) ==> 0 <= i <= j
  {
    if p <= s then 0
    else if s == "" then -1
    else
      var i := IndexOf(s[1..], p);
      LaterOccurrences(s, p);
      if i < 0 then -1 else i + 1
  }

  ghost predicate Ascending(s: seq<string>) {
    forall i, j :: 0 <= i < j < |s| ==> Less(s[i], s[j])
  }

  /** There is only one way to list a set in ascending order. */
  lemma {:induction false} AscendingIsUnique(s: seq<string>, t: seq<string>)
    requires Ascending(s) && Ascending(t)
    requires forall x :: x in s <==> x in t
    ensures s == t
    decreases |s|
  {
    assert |t| > 0 ==> t[0] in t;
    if s != [] {
      assert s[0] in t && t[0] in s;
      LessIsTotal(s[0], t[0]);
      assert s[0] == t[0] by {
        var i :| 0 <= i < |t| && t[i] == s[0];
        var j :| 0 <= j < |s| && s[j] == t[0];
      }
      assert s == [s[0]] + s[1..] && t == [t[0]] + t[1..];
      forall x ensures x in s[1..] <==> x in t[1..] {
        LessIsTotal(s[0], s[0]);
        assert s[0] !in s[1..] && t[0] !in t[1..];
        assert x in s <==> x == s[0] || x in s[1..];
        assert x in t <==> x == t[0] || x in t[1..];
      }
      AscendingIsUnique(s[1..], t[1..]);
    }
  }

  ghost predicate NoDuplicates(s: seq<string>) {
    forall i, j :: 0 <= i < j < |s| ==> s[i] != s[j]
  }

  lemma {:induction false} MembersCounted(s: seq<string>)
    requires NoDuplicates(s)
    ensures |set x | x in s| == |s|
    decreases |s|
  {
    if s != [] {
      var n := |s| - 1;
      MembersCounted(s[..n]);
      assert s == s[..n] + [s[n]];
      assert (set x | x in s) == (set x | x in s[..n]) + {s[n]};
    }
  }

  lemma SameLength(s: seq<string>, t: seq<string>)
    requires NoDuplicates(s) && NoDuplicates(t) && forall x :: x in s <==> x in t
    ensures |s| == |t|
  {
    MembersCounted(s);
    MembersCounted(t);
    assert (set x | x in s) == (set x | x in t);
  }

  method Sorted(names: set<string>) returns (r: seq<string>)
    ensures Ascending(r) && forall x :: x in r <==> x in names
  {
    r := [];
    var rest := names;
    while rest != {}
      invariant rest <= names && Ascending(r)
      invariant forall x :: x in r <==> x in names - rest
      decreases rest
    {
      var n :| n in rest;
      r := Insert(r, n);
      rest := rest - {n};
    }
  }

  method Insert(s: seq<string>, n: string) returns (r: seq<string>)
    requires Ascending(s) && n !in s
    ensures Ascending(r) && forall x :: x in r <==> x in s || x == n
  {
    var i := 0;
    while i < |s| && Less(s[i], n)
      invariant 0 <= i <= |s|
      invariant forall j :: 0 <= j < i ==> Less(s[j], n)
    {
      i := i + 1;
    }
    r := s[..i] + [n] + s[i..];
    forall j | i <= j < |s| ensures Less(n, s[j]) {
      LessIsTotal(s[i], n);
      assert s[i] in s;
      if i < j {
        LessIsTransitive(n, s[i], s[j]);
      }
    }
    assert forall x :: x in s <==> x in s[..i] || x in s[i..] by {
      assert s == s[..i] + s[i..];
    }
  }
}

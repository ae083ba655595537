/** Splitting a file into numbered parts and putting it together again. */
module Split {
  import opened Outcomes
  import opened Lex

  type Bytes = seq<bv8>

  /** The file system, as far as the two operations see it. */
  type Files = map<string, Bytes>

  datatype Metadata = Metadata(count: nat, bytes: nat, sha256: string)

  /** Hashing and the JSON form of the metadata. */
  datatype Codec = Codec(sha: Bytes -> string, encode: Metadata -> Bytes, decode: Bytes -> Option<Metadata>) {
    ghost predicate Faithful() {
      forall m :: decode(encode(m)) == Some(m)
    }
  }

  const MARK := ".part000"

  // ---------------------------------------------------------------------------------------------
  // Names
  // ---------------------------------------------------------------------------------------------

  function Digit(d: nat): char
    requires d < 10
  {
    '0' + d as char
  }

  function Decimal(n: nat): (s: string)
    ensures |s| >= 1 && forall c :: c in s ==> '0' <= c <= '9'
  {
    if n < 10 then [Digit(n)] else Decimal(n / 10) + [Digit(n % 10)]
  }

  /** `%03d` */
  function Padded(n: nat): (s: string)
    ensures |s| >= 3 && forall c :: c in s ==> '0' <= c <= '9'
  {
    var s := Decimal(n);
    assert forall c :: c in "00" ==> c == '0';
    if |s| == 1 then "00" + s else if |s| == 2 then "0" + s else s
  }

  function PartName(base: string, k: nat): string {
    base + (".part" + Padded(k))
  }

  /** A glob with at most one star; a star matches anything but a slash. */
  datatype Pattern = Literal(name: string) | Star(before: string, after: string) {
    predicate Matches(name: string) {
      match this
      case Literal(n) => name == n
      case Star(before, after) =>
        && |before| + |after| <= |name|
        && before <= name && name[|name| - |after|..] == after
        && '/' !in name[|before|..|name| - |after|]
    }
  }

  /** The parts of a file. */
  function PartsOf(base: string): Pattern {
    Star(base + ".part", "")
  }

  /** The first ".part000" in the given path becomes ".part*". */
  function PatternFor(src: string): Pattern {
    var i := IndexOf(src, MARK);
    if i < 0 then Literal(src) else Star(src[..i] + ".part", src[i + |MARK|..])
  }

  /** The path itself carries no part mark ahead of the final one. */
  predicate Unmarked(base: string) {
    IndexOf(base + MARK, MARK) == |base|
  }

  function Glob(files: Files, p: Pattern): set<string> {
    set n | n in files && p.Matches(n)
  }

  lemma PartZero(base: string)
    ensures PartName(base, 0) == base + MARK
  {
    assert Decimal(0) == "0";
    assert Padded(0) == "000";
  }

  lemma PartMatches(base: string, k: nat)
    ensures PartsOf(base).Matches(PartName(base, k))
  {
    StarMatches(base + ".part", Padded(k));
    assert PartName(base, k) == (base + ".part") + Padded(k);
  }

  lemma StarMatches(before: string, rest: string)
    requires '/' !in rest
    ensures Star(before, "").Matches(before + rest)
  {
    var n := before + rest;
    assert n[|before|..|n|] == rest && n[|n|..] == "";
  }

  lemma ThreeDigits(n: nat)
    requires n <= 999
    ensures Padded(n) == [Digit(n / 100), Digit(n / 10 % 10), Digit(n % 10)]
  {
    if n < 10 {
    } else if n < 100 {
      assert Decimal(n) == [Digit(n / 10)] + [Digit(n % 10)];
    } else {
      assert Decimal(n / 10) == [Digit(n / 10 / 10)] + [Digit(n / 10 % 10)];
      assert n / 10 / 10 == n / 100;
    }
  }

  lemma LessTriple(a: string, b: string)
    requires |a| == |b| == 3
    requires a[0] < b[0] || (a[0] == b[0] && (a[1] < b[1] || (a[1] == b[1] && a[2] < b[2])))
    ensures Less(a, b)
  {
    assert Less(a[1..][1..], b[1..][1..]) <== a[2] < b[2];
    assert Less(a[1..], b[1..]) <== a[1] < b[1] || (a[1] == b[1] && a[2] < b[2]);
  }

  lemma DigitOrder(i: nat, j: nat)
    requires i < j <= 999
    ensures i / 100 < j / 100
            || (i / 100 == j / 100 && (i / 10 % 10 < j / 10 % 10 || (i / 10 % 10 == j / 10 % 10 && i % 10 < j % 10)))
  {
    DigitsOf(i);
    DigitsOf(j);
    TripleOrder(i / 100, i / 10 % 10, i % 10, j / 100, j / 10 % 10, j % 10);
  }

  lemma DigitsOf(n: nat)
    ensures n == 100 * (n / 100) + 10 * (n / 10 % 10) + n % 10
  {
    assert n == 10 * (n / 10) + n % 10;
    var m := n / 10;
    assert m == 10 * (m / 10) + m % 10;
    assert m / 10 == n / 100;
  }

  lemma TripleOrder(a: int, b: int, c: int, x: int, y: int, z: int)
    requires 0 <= b < 10 && 0 <= c < 10 && 0 <= y < 10 && 0 <= z < 10
    requires 100 * a + 10 * b + c < 100 * x + 10 * y + z
    ensures a < x || (a == x && (b < y || (b == y && c < z)))
  {
  }

  lemma SmallNamesAscend(base: string, i: nat, j: nat)
    requires i < j <= 999
    ensures Less(PartName(base, i), PartName(base, j))
  {
    ThreeDigits(i);
    ThreeDigits(j);
    DigitOrder(i, j);
    LessTriple(Padded(i), Padded(j));
    LessAfterPrefix(".part", Padded(i), Padded(j));
    LessAfterPrefix(base, ".part" + Padded(i), ".part" + Padded(j));
  }

  ghost function Listed(name: nat -> string, count: nat): (names: seq<string>)
    ensures |names| == count + 1 && forall k: nat :: k <= count ==> names[k] == name(k)
  {
    seq(count + 1, k requires 0 <= k => name(k))
  }

  /** How the parts of a file are named. */
  function Naming(src: string): nat -> string {
    (k: nat) => PartName(src, k)
  }

  /** Sorting the names puts the parts in order exactly when there are at most 999 of them. */
  lemma NameOrderIsPartOrder(base: string, count: nat)
    ensures Ascending(Listed(Naming(base), count)) <==> count <= 999
  {
    var names := Listed(Naming(base), count);
    if count <= 999 {
      forall i, j | 0 <= i < j < |names| ensures Less(names[i], names[j]) {
        SmallNamesAscend(base, i, j);
      }
    } else {
      ThousandSortsEarly(base);
      LessIsTotal(names[101], names[1000]);
    }
  }

  lemma ThousandSortsEarly(base: string)
    ensures Less(PartName(base, 1000), PartName(base, 101))
  {
    assert Decimal(10) == "10" && Decimal(100) == "100" && Decimal(1000) == "1000" && Decimal(101) == "101";
    var a, b := "1000", "101";
    assert a[1..] == "000" && b[1..] == "01" && a[1..][1..] == "00" && b[1..][1..] == "1";
    assert Less(a, b);
    LessAfterPrefix(".part", a, b);
    LessAfterPrefix(base, ".part" + a, ".part" + b);
  }

  lemma {:induction false} FirstDigit(k: nat)
    requires k >= 1
    ensures '0' < Decimal(k)[0]
  {
    if k >= 10 {
      FirstDigit(k / 10);
      assert Decimal(k)[0] == Decimal(k / 10)[0];
    }
  }

  /** However many parts there are, the header is the first in name order. */
  lemma HeaderSortsFirst(base: string, k: nat)
    requires k >= 1
    ensures Less(PartName(base, 0), PartName(base, k))
  {
    if k <= 999 {
      SmallNamesAscend(base, 0, k);
    } else {
      FirstDigit(k);
      LongDecimal(k);
      ThreeDigits(0);
      assert Less(Padded(0), Padded(k));
      LessAfterPrefix(".part", Padded(0), Padded(k));
      LessAfterPrefix(base, ".part" + Padded(0), ".part" + Padded(k));
    }
  }

  /** The numbers from 0 to `count`, arranged so that the names ascend. */
  ghost predicate Arranges(name: nat -> string, order: seq<nat>, count: nat) {
    && |order| == count + 1
    && (forall i :: 0 <= i < |order| ==> order[i] <= count)
    && (forall k: nat :: k <= count ==> k in order)
    && (forall i, j :: 0 <= i < j < |order| ==> Less(name(order[i]), name(order[j])))
  }

  /** The numbers of names that ascend. */
  lemma OrderFound(name: nat -> string, names: seq<string>, count: nat) returns (order: seq<nat>)
    requires Distinct(name) && (forall k: nat :: k >= 1 ==> Less(name(0), name(k)))
    requires Ascending(names) && forall n :: n in names <==> n in Listed(name, count)
    ensures Arranges(name, order, count) && order[0] == 0
    ensures |names| == |order| && forall i :: 0 <= i < |order| ==> names[i] == name(order[i])
  {
    var parts := Listed(name, count);
    forall n | n in names ensures Numbered(name, count, n) {
      var k :| 0 <= k < |parts| && parts[k] == n;
      assert n == name(k);
    }
    order := Numbers(name, names, count);
    forall k: nat | k <= count ensures k in order {
      assert parts[k] == name(k) && name(k) in names;
      var i :| 0 <= i < |names| && names[i] == name(k);
      assert order[i] == k;
    }
    forall i, j | 0 <= i < j < |names| ensures names[i] != names[j] {
      LessIsTotal(names[i], names[j]);
    }
    SameLength(names, parts);
    HeaderLeads(name, order);
  }

  ghost predicate Numbered(name: nat -> string, count: nat, n: string) {
    exists k: nat :: k <= count && n == name(k)
  }

  lemma {:induction false} Numbers(name: nat -> string, names: seq<string>, count: nat) returns (order: seq<nat>)
    requires forall n :: n in names ==> Numbered(name, count, n)
    ensures |order| == |names| && forall i :: 0 <= i < |names| ==> order[i] <= count && names[i] == name(order[i])
    decreases |names|
  {
    order := [];
    if names != [] {
      var n := |names| - 1;
      assert names == names[..n] + [names[n]];
      order := Numbers(name, names[..n], count);
      assert Numbered(name, count, names[n]);
      var k: nat :| k <= count && names[n] == name(k);
      order := order + [k];
    }
  }

  lemma HeaderLeads(name: nat -> string, order: seq<nat>)
    requires 0 in order && (forall k: nat :: k >= 1 ==> Less(name(0), name(k)))
    requires forall i, j :: 0 <= i < j < |order| ==> Less(name(order[i]), name(order[j]))
    ensures order[0] == 0
  {
    var i :| 0 <= i < |order| && order[i] == 0;
    var first := order[0];
    var a, b := name(0), name(first);
    assert first == 0 || Less(a, b);
    assert i == 0 || Less(b, a);
    LessIsTotal(a, b);
  }

  lemma UnmarkedPattern(base: string)
    requires Unmarked(base)
    ensures PatternFor(base + MARK) == PartsOf(base)
  {
    var src := base + MARK;
    assert src[..|base|] == base && src[|base| + |MARK|..] == "";
  }

  lemma MarkedPattern(base: string, k: nat)
    requires !Unmarked(base) && k >= 1
    ensures !PatternFor(base + MARK).Matches(PartName(base, k))
  {
    var src := base + MARK;
    assert At(src, MARK, |base|);
    var at := IndexOf(src, MARK);
    NoOverlap(base, at);
    var after := src[at + |MARK|..];
    assert after == base[at + |MARK|..] + MARK;
    if |after| <= |PartName(base, k)| {
      EndsInMark(base, k, after);
    }
  }

  /** A reassembly finds the data parts of `base` exactly when the path carries no earlier mark. */
  lemma PartsAreFoundIff(base: string)
    ensures Unmarked(base) ==> PatternFor(base + MARK) == PartsOf(base)
    ensures !Unmarked(base) ==> forall k: nat :: k >= 1 ==> !PatternFor(base + MARK).Matches(PartName(base, k))
  {
    if Unmarked(base) {
      UnmarkedPattern(base);
    } else {
      forall k: nat | k >= 1 ensures !PatternFor(base + MARK).Matches(PartName(base, k)) {
        MarkedPattern(base, k);
      }
    }
  }

  /** The mark does not overlap itself. */
  lemma NoOverlap(base: string, at: nat)
    requires at < |base| && At(base + MARK, MARK, at)
    ensures at + |MARK| <= |base|
  {
    var src := base + MARK;
    var found := src[at..at + |MARK|];
    assert forall d :: 1 <= d < |found| ==> found[d] != '.';
    assert src[|base|] == '.';
    assert forall i :: at < i < at + |MARK| ==> src[i] == found[i - at];
  }

  lemma EndsInMark(base: string, k: nat, after: string)
    requires k >= 1 && |MARK| <= |after| <= |PartName(base, k)|
    requires after[|after| - |MARK|..] == MARK
    ensures PartName(base, k)[|PartName(base, k)| - |after|..] != after
  {
    var n, digits := PartName(base, k), Padded(k);
    assert n == base + ".part" + digits;
    ZeroOnly(k);
    var tail := n[|n| - 8..];
    var end := ".part" + digits;
    assert tail == end[|end| - 8..];
    if |digits| == 3 {
      assert tail[5..] == digits && MARK[5..] == "000";
    } else {
      NoLaterDot(digits, |end| - 8);
      assert tail[0] == end[|end| - 8] && MARK[0] == '.';
    }
    assert tail != MARK;
    assert n[|n| - |after|..][|after| - 8..] == tail;
  }

  lemma NoLaterDot(digits: string, m: nat)
    requires (forall c :: c in digits ==> '0' <= c <= '9') && 1 <= m < 5 + |digits|
    ensures (".part" + digits)[m] != '.'
  {
    if m >= 5 {
      assert (".part" + digits)[m] == digits[m - 5] && digits[m - 5] in digits;
    }
  }

  lemma ZeroOnly(k: nat)
    ensures Padded(k) == "000" ==> k == 0
  {
    if k > 999 {
      assert |Decimal(k / 10)| >= 2 && |Decimal(k)| >= 3;
      LongDecimal(k);
    } else {
      ThreeDigits(k);
      assert Padded(k)[0] == Digit(k / 100) && Padded(k)[1] == Digit(k / 10 % 10) && Padded(k)[2] == Digit(k % 10);
    }
  }

  lemma LongDecimal(k: nat)
    requires k > 999
    ensures |Decimal(k)| > 3
  {
    assert |Decimal(k / 10 / 10)| >= 2;
    assert |Decimal(k / 10)| >= 3;
  }

  // ---------------------------------------------------------------------------------------------
  // Part names are distinct
  // ---------------------------------------------------------------------------------------------

  ghost function Value(s: string): int {
    if s == "" then 0 else 10 * Value(s[..|s| - 1]) + (s[|s| - 1] as int - '0' as int)
  }

  lemma {:induction false} DecimalValue(n: nat)
    ensures Value(Decimal(n)) == n
  {
    if n >= 10 {
      DecimalValue(n / 10);
      var s := Decimal(n);
      assert s[..|s| - 1] == Decimal(n / 10);
    } else {
      assert [Digit(n)][..0] == "";
    }
  }

  lemma {:induction false} LeadingZero(s: string)
    ensures Value("0" + s) == Value(s)
    decreases |s|
  {
    var t := "0" + s;
    if s == "" {
      assert t[..0] == "";
    } else {
      LeadingZero(s[..|s| - 1]);
      assert t[..|t| - 1] == "0" + s[..|s| - 1];
    }
  }

  lemma PartNamesDiffer(base: string, i: nat, j: nat)
    requires PartName(base, i) == PartName(base, j)
    ensures i == j
  {
    assert PartName(base, i)[|base|..][5..] == Padded(i);
    assert PartName(base, j)[|base|..][5..] == Padded(j);
    PaddedValue(i);
    PaddedValue(j);
  }

  lemma PaddedValue(n: nat)
    ensures Value(Padded(n)) == n
  {
    DecimalValue(n);
    LeadingZero(Decimal(n));
    LeadingZero("0" + Decimal(n));
    assert "00" + Decimal(n) == "0" + ("0" + Decimal(n));
  }

  // ---------------------------------------------------------------------------------------------
  // Chunks
  // ---------------------------------------------------------------------------------------------

  function Concat(parts: seq<Bytes>): Bytes {
    if parts == [] then [] else Concat(parts[..|parts| - 1]) + parts[|parts| - 1]
  }

  /** The content cut into pieces of `size`, the last one possibly shorter. */
  function Chunks(content: Bytes, size: int): seq<Bytes>
    decreases |content|
  {
    if size <= 0 || content == [] then []
    else if |content| <= size then [content]
    else [content[..size]] + Chunks(content[size..], size)
  }

  lemma {:induction false} ConcatFirst(part: Bytes, parts: seq<Bytes>)
    ensures Concat([part] + parts) == part + Concat(parts)
    decreases |parts|
  {
    var all := [part] + parts;
    if parts == [] {
      assert all[..0] == [];
    } else {
      assert all[..|all| - 1] == [part] + parts[..|parts| - 1];
      ConcatFirst(part, parts[..|parts| - 1]);
    }
  }

  /** Chunks lose nothing. */
  lemma {:induction false} ChunksCover(content: Bytes, size: int)
    requires size > 0
    ensures Concat(Chunks(content, size)) == content
    decreases |content|
  {
    if |content| > size {
      var rest := content[size..];
      ChunksCover(rest, size);
      ConcatFirst(content[..size], Chunks(rest, size));
      assert content == content[..size] + rest;
    } else if content != [] {
      assert [content][..0] == [];
    }
  }

  /** Their number is the length divided by the size, rounded up. */
  lemma {:induction false} ChunkCount(content: Bytes, size: int)
    requires size > 0 && content != []
    ensures (|Chunks(content, size)| - 1) * size < |content| <= |Chunks(content, size)| * size
    decreases |content|
  {
    if |content| > size {
      var k := |Chunks(content[size..], size)|;
      ChunkCount(content[size..], size);
      assert |Chunks(content, size)| == k + 1;
      assert (k + 1) * size == k * size + size && k * size == (k - 1) * size + size;
    }
  }

  lemma ChunkStep(content: Bytes, pos: nat, size: int, n: nat)
    requires pos < |content| && size > 0
    requires n == if size <= |content| - pos then size else |content| - pos
    ensures Chunks(content[pos..], size) == [content[pos..pos + n]] + Chunks(content[pos + n..], size)
  {
    var rest := content[pos..];
    assert rest[..n] == content[pos..pos + n] && rest[n..] == content[pos + n..];
    if |rest| <= size {
      assert content[pos + n..] == [] && content[pos..pos + n] == rest;
    }
  }

  lemma AddPart(files: Files, name: nat -> string, parts: seq<Bytes>, piece: Bytes)
    ensures AddParts(files, name, parts + [piece]) == AddParts(files, name, parts)[name(|parts| + 1) := piece]
    ensures Concat(parts + [piece]) == Concat(parts) + piece
  {
    var next := parts + [piece];
    assert next[..|next| - 1] == parts;
  }

  // ---------------------------------------------------------------------------------------------
  // Splitting
  // ---------------------------------------------------------------------------------------------

  /** What splitting keeps of the other files: everything but earlier parts of the same file. */
  function Kept(files: Files, src: string): Files {
    map n | n in files && n != src && !PartsOf(src).Matches(n) :: files[n]
  }

  /** The path, `.part`, and text without a slash. */
  ghost predicate LooksLikePart(src: string, n: string) {
    exists rest :: n == src + ".part" + rest && '/' !in rest
  }

  /** Every file is as it was, but for the source, what looks like a part of it, and the destination. */
  ghost predicate OthersStay(files: Files, files': Files, src: string, dest: string) {
    forall n :: n != src && n != dest && !LooksLikePart(src, n) ==>
      (n in files <==> n in files') && (n in files ==> files'[n] == files[n])
  }

  /** Of what looks like a part only the header and the first `count` data parts exist. */
  ghost predicate OnlyParts(files: Files, src: string, count: nat) {
    forall n :: n in files && LooksLikePart(src, n) ==> exists k: nat :: k <= count && n == PartName(src, k)
  }

  /** The source is gone and nothing looks like a part of it, but perhaps the destination. */
  ghost predicate NothingLeft(files: Files, src: string, dest: string) {
    forall n :: n != dest && (n == src || LooksLikePart(src, n)) ==> n !in files
  }

  lemma LooksLikeIff(src: string, n: string)
    ensures PartsOf(src).Matches(n) <==> LooksLikePart(src, n)
  {
    var before := src + ".part";
    if PartsOf(src).Matches(n) {
      assert n == before + n[|before|..];
      assert n[|before|..] == n[|before|..|n|];
    }
    if rest :| n == before + rest && '/' !in rest {
      StarMatches(before, rest);
    }
  }

  lemma KeptMeans(files: Files, src: string)
    ensures KeptOnly(files, Kept(files, src), src)
  {
    forall n ensures PartsOf(src).Matches(n) <==> LooksLikePart(src, n) {
      LooksLikeIff(src, n);
    }
  }

  ghost predicate KeptOnly(files: Files, kept: Files, src: string) {
    && (forall n :: n in kept <==> n in files && n != src && !LooksLikePart(src, n))
    && (forall n :: n in kept ==> kept[n] == files[n])
  }

  lemma OnlyNamesAdded(files: Files, kept: Files, files': Files, src: string, names: seq<string>)
    requires KeptOnly(files, kept, src) && !LooksLikePart(src, src)
    requires forall n :: n in files' <==> n in kept || n in names
    requires forall n :: n in kept ==> files'[n] == kept[n]
    requires forall n :: n in names ==> LooksLikePart(src, n)
    ensures OthersStay(files, files', src, src) && src !in files'
    ensures forall n :: n in files' && LooksLikePart(src, n) ==> n in names
  {
  }

  lemma NamesLookAlike(src: string, count: nat)
    ensures forall n :: n in Listed(Naming(src), count) ==>
      LooksLikePart(src, n) && exists k: nat :: k <= count && n == PartName(src, k)
    ensures !LooksLikePart(src, src)
  {
    var names := Listed(Naming(src), count);
    forall n | n in names ensures LooksLikePart(src, n) && exists k: nat :: k <= count && n == PartName(src, k) {
      var k :| 0 <= k < |names| && names[k] == n;
      assert n == PartName(src, k);
      PartMatches(src, k);
      LooksLikeIff(src, n);
    }
    SourceIsNoPart(src);
    LooksLikeIff(src, src);
  }

  /** What is left of the files after a split. */
  lemma SplitMeans(files: Files, src: string, chunks: seq<Bytes>, header: Bytes)
    ensures var files' := AddParts(Kept(files, src), Naming(src), chunks)[src + MARK := header];
            && OthersStay(files, files', src, src) && src !in files' && OnlyParts(files', src, |chunks|)
            && HoldsParts(files', Naming(src), chunks, header)
  {
    var kept, name := Kept(files, src), Naming(src);
    var files' := AddParts(kept, name, chunks)[src + MARK := header];
    KeptMeans(files, src);
    NamingFits(kept, src);
    PartZero(src);
    assert name(0) == src + MARK;
    SplitKeys(kept, name, chunks, header);
    NamesLookAlike(src, |chunks|);
    OnlyNamesAdded(files, kept, files', src, Listed(name, |chunks|));
  }

  /** A round trip ends with the kept files, and perhaps the destination. */
  lemma OnlyDestinationAdded(files: Files, kept: Files, files': Files, src: string, dest: string)
    requires KeptOnly(files, kept, src) && SameExcept(kept, files', dest)
    ensures OthersStay(files, files', src, dest) && NothingLeft(files', src, dest)
  {
  }

  function AddParts(files: Files, name: nat -> string, parts: seq<Bytes>): Files {
    if parts == [] then files
    else AddParts(files, name, parts[..|parts| - 1])[name(|parts|) := parts[|parts| - 1]]
  }

  ghost predicate Distinct(name: nat -> string) {
    forall i, j :: name(i) == name(j) ==> i == j
  }

  ghost predicate Unused(files: Files, name: nat -> string) {
    forall k :: name(k) !in files
  }

  lemma {:induction false} AddPartsLookup(files: Files, name: nat -> string, parts: seq<Bytes>)
    requires Distinct(name) && Unused(files, name)
    ensures forall k: nat :: name(k) in AddParts(files, name, parts) <==> 1 <= k <= |parts|
    ensures forall k: nat :: 1 <= k <= |parts| ==> AddParts(files, name, parts)[name(k)] == parts[k - 1]
    ensures forall n :: n in AddParts(files, name, parts) ==> n in files || exists k: nat :: n == name(k)
    ensures forall n :: n in files ==> n in AddParts(files, name, parts) && AddParts(files, name, parts)[n] == files[n]
    decreases |parts|
  {
    if parts != [] {
      AddPartsLookup(files, name, parts[..|parts| - 1]);
    }
  }

  ghost predicate Clear(kept: Files, src: string) {
    forall n :: n in kept ==> !PartsOf(src).Matches(n)
  }

  /** The names serve for parts of `src` beside the kept files. */
  ghost predicate Usable(kept: Files, src: string, name: nat -> string) {
    Distinct(name) && Unused(kept, name) && forall k :: name(k) != src
  }

  ghost predicate Written(files: Files, kept: Files, src: string, name: nat -> string, parts: seq<Bytes>) {
    src in files && files - {src} == AddParts(kept, name, parts)
  }

  ghost predicate Cut(content: Bytes, size: int, parts: seq<Bytes>, pos: nat) {
    pos <= |content| && Chunks(content, size) == parts + Chunks(content[pos..], size)
  }

  lemma CutOnce(content: Bytes, size: int, parts: seq<Bytes>, pos: nat, n: nat)
    requires Cut(content, size, parts, pos) && pos < |content| && size > 0
    requires n == if size <= |content| - pos then size else |content| - pos
    ensures Cut(content, size, parts + [content[pos..pos + n]], pos + n)
  {
    ChunkStep(content, pos, size, n);
    var rest := Chunks(content[pos + n..], size);
    assert parts + ([content[pos..pos + n]] + rest) == (parts + [content[pos..pos + n]]) + rest;
  }

  lemma CutUp(content: Bytes, size: int, parts: seq<Bytes>, pos: nat)
    requires Cut(content, size, parts, pos) && (pos == |content| || size <= 0)
    ensures parts == Chunks(content, size)
  {
  }

  /** Up to `pos` the content is written out in parts and hashed. */
  ghost predicate Writing(content: Bytes, size: int, kept: Files, files: Files, src: string, name: nat -> string,
      parts: seq<Bytes>, pos: nat, hashed: Bytes)
  {
    Cut(content, size, parts, pos) && hashed == Concat(parts) && Written(files, kept, src, name, parts)
  }

  lemma WritesFirst(content: Bytes, size: int, kept: Files, files: Files, src: string, name: nat -> string)
    requires Written(files, kept, src, name, [])
    ensures Writing(content, size, kept, files, src, name, [], 0, [])
  {
    assert content[0..] == content;
    assert [] + Chunks(content, size) == Chunks(content, size);
  }

  lemma WritesOn(content: Bytes, size: int, kept: Files, files: Files, src: string, name: nat -> string,
      parts: seq<Bytes>, pos: nat, hashed: Bytes, n: nat)
    requires Usable(kept, src, name) && Writing(content, size, kept, files, src, name, parts, pos, hashed)
    requires pos < |content| && size > 0
    requires n == if size <= |content| - pos then size else |content| - pos
    ensures var piece := content[pos..pos + n];
      var next := files[name(|parts| + 1) := piece];
      Writing(content, size, kept, next, src, name, parts + [piece], pos + n, hashed + piece)
  {
    CutOnce(content, size, parts, pos, n);
    PartWritten(kept, files, src, name, parts, content[pos..pos + n]);
  }

  lemma WritesNothing(kept: Files, files: Files, src: string, name: nat -> string, parts: seq<Bytes>, piece: Bytes)
    requires Usable(kept, src, name) && Written(files, kept, src, name, parts)
    ensures files[name(|parts| + 1) := piece] - {name(|parts| + 1)} == files
  {
    PartWritten(kept, files, src, name, parts, piece);
  }

  lemma WritesAll(content: Bytes, size: int, kept: Files, files: Files, src: string, name: nat -> string,
      parts: seq<Bytes>, pos: nat, hashed: Bytes)
    requires Writing(content, size, kept, files, src, name, parts, pos, hashed) && (pos == |content| || size <= 0)
    ensures var chunks := Chunks(content, size);
            parts == chunks && hashed == Concat(chunks) && Written(files, kept, src, name, chunks)
  {
    CutUp(content, size, parts, pos);
  }

  /** How much of the content the next copy takes. */
  function CopyLength(content: Bytes, size: int, pos: nat): nat
    requires pos <= |content|
  {
    if size <= 0 then 0 else if size <= |content| - pos then size else |content| - pos
  }

  /** One part: it is copied and hashed, and removed again if it came up empty. */
  method WritePart(content: Bytes, src: string, name: nat -> string, size: int, count: nat, pos: nat, files: Files,
      hashed: Bytes, ghost kept: Files, ghost parts: seq<Bytes>)
    returns (files': Files, hashed': Bytes, n: nat)
    requires Usable(kept, src, name) && count == |parts|
    requires Writing(content, size, kept, files, src, name, parts, pos, hashed)
    ensures n == CopyLength(content, size, pos)
    ensures n == 0 ==> files' == files && hashed' == hashed
    ensures n > 0 ==> Writing(content, size, kept, files', src, name, parts + [content[pos..pos + n]], pos + n, hashed')
  {
    var path := name(count + 1);
    n := CopyLength(content, size, pos);
    var piece := content[pos..pos + n];
    files' := files[path := piece];
    hashed' := hashed + piece;
    if n == 0 {
      WritesNothing(kept, files, src, name, parts, piece);
      files' := files' - {path};
    } else {
      WritesOn(content, size, kept, files, src, name, parts, pos, hashed, n);
    }
  }

  /** The copying loop: one part after another, until a copy comes up short or empty. */
  method WriteParts(files: Files, src: string, name: nat -> string, chunkSize: int, ghost kept: Files)
    returns (files': Files, count: nat, hashed: Bytes)
    requires Usable(kept, src, name) && Written(files, kept, src, name, [])
    ensures var chunks := Chunks(files[src], chunkSize);
            count == |chunks| && hashed == Concat(chunks) && Written(files', kept, src, name, chunks)
  {
    files', count, hashed := files, 0, [];
    var content := files[src];
    ghost var parts: seq<Bytes> := [];
    var pos := 0;
    WritesFirst(content, chunkSize, kept, files, src, name);
    while true
      invariant 0 <= pos <= |content| && count == |parts|
      invariant Writing(content, chunkSize, kept, files', src, name, parts, pos, hashed)
      decreases |content| - pos
    {
      var n;
      files', hashed, n := WritePart(content, src, name, chunkSize, count, pos, files', hashed, kept, parts);
      if n == 0 {
        break;
      }
      parts := parts + [content[pos..pos + n]];
      count, pos := count + 1, pos + n;
      if n < chunkSize {
        break;
      }
    }
    WritesAll(content, chunkSize, kept, files', src, name, parts, pos, hashed);
  }

  /** What writing one more part does to the files, and that removing it again undoes it. */
  lemma PartWritten(kept: Files, files: Files, src: string, name: nat -> string, parts: seq<Bytes>, piece: Bytes)
    requires Usable(kept, src, name) && Written(files, kept, src, name, parts)
    ensures Written(files[name(|parts| + 1) := piece], kept, src, name, parts + [piece])
    ensures files[name(|parts| + 1) := piece] - {name(|parts| + 1)} == files
    ensures Concat(parts + [piece]) == Concat(parts) + piece
  {
    AddPartsLookup(kept, name, parts);
    AddPart(kept, name, parts, piece);
    assert name(|parts| + 1) !in files - {src};
    PutAside(files, AddParts(kept, name, parts), src, name(|parts| + 1), piece);
  }

  lemma NamingFits(kept: Files, src: string)
    requires Clear(kept, src)
    ensures Usable(kept, src, Naming(src)) && forall k :: PartsOf(src).Matches(Naming(src)(k))
  {
    forall k ensures PartsOf(src).Matches(Naming(src)(k)) {
      PartMatches(src, k);
    }
    forall i, j | Naming(src)(i) == Naming(src)(j) ensures i == j {
      PartNamesDiffer(src, i, j);
    }
  }

  lemma PutAside(files: Files, rest: Files, src: string, path: string, piece: Bytes)
    requires src in files && path !in files && path != src && files - {src} == rest
    ensures src in files[path := piece] && files[path := piece] - {src} == rest[path := piece]
    ensures files[path := piece] - {path} == files
  {
  }

  /**
   * Splitting replaces the file by its chunks, numbered from one, and a header that records how many
   * there are, the size, and the hash of the content; parts of an earlier split are gone. A chunk
   * size that is not positive leaves a header and no data.
   */
  method SplitFile(files: Files, src: string, chunkSize: int, codec: Codec) returns (r: Result<string>, files': Files)
    ensures r.Ok? <==> src in files
    ensures r.Err? ==> files' == Kept(files, src)
    ensures r.Ok? ==>
      && r.value == src + MARK
      && var chunks := Chunks(files[src], chunkSize);
      && var header := Metadata(|chunks|, |files[src]|, codec.sha(Concat(chunks)));
      && files' == AddParts(Kept(files, src), Naming(src), chunks)[src + MARK := codec.encode(header)]
      && HoldsParts(files', Naming(src), chunks, codec.encode(header))
    ensures OthersStay(files, files', src, src) && src !in files'
    ensures OnlyParts(files', src, if r.Ok? then |Chunks(files[src], chunkSize)| else 0)
    ensures r.Err? ==> NothingLeft(files', src, src)
  {
    KeptMeans(files, src);
    var cleared := map n | n in files && !PartsOf(src).Matches(n) :: files[n];
    SourceIsNoPart(src);
    if src !in cleared {
      return Err, cleared;
    }
    var count, hashed;
    NamingFits(Kept(files, src), src);
    files', count, hashed := WriteParts(cleared, src, Naming(src), chunkSize, Kept(files, src));
    files' := files' - {src};
    files' := files'[src + MARK := codec.encode(Metadata(count, |cleared[src]|, codec.sha(hashed)))];
    ghost var chunks := Chunks(files[src], chunkSize);
    SplitMeans(files, src, chunks, codec.encode(Metadata(|chunks|, |files[src]|, codec.sha(Concat(chunks)))));
    return Ok(src + MARK), files';
  }

  lemma SourceIsNoPart(src: string)
    ensures !PartsOf(src).Matches(src)
  {
  }

  // ---------------------------------------------------------------------------------------------
  // Reassembly
  // ---------------------------------------------------------------------------------------------

  function Content(files: Files, name: string): Bytes {
    if name in files then files[name] else []
  }

  function Gather(files: Files, names: seq<string>): Bytes {
    if names == [] then [] else Gather(files, names[..|names| - 1]) + Content(files, names[|names| - 1])
  }

  lemma GatherStep(files: Files, names: seq<string>, k: nat)
    requires k < |names|
    ensures Gather(files, names[..k + 1]) == Gather(files, names[..k]) + Content(files, names[k])
  {
    assert names[..k + 1][..k] == names[..k];
  }

  /** The header is there, decodes, and counts the other parts. */
  predicate HeaderFits(files: Files, names: seq<string>, codec: Codec) {
    && names != [] && codec.decode(Content(files, names[0])).Some?
    && codec.decode(Content(files, names[0])).value.count == |names| - 1
  }

  ghost predicate SameExcept(a: Files, b: Files, name: string) {
    forall n :: n != name ==> (n in a <==> n in b) && (n in a ==> a[n] == b[n])
  }

  /** The destination is created, and so emptied, before any part is read. */
  function Emptied(files: Files, dest: string): Files { files[dest := []] }

  /** No part has to be copied to its own end; such a copy does not finish before the disk is full. */
  ghost predicate NoSelfCopy(files: Files, dest: string, data: seq<string>) {
    forall i :: 0 <= i < |data| && data[i] == dest ==> Gather(files, data[..i]) == []
  }

  /**
   * Reassembly takes the matching files in name order, checks the header in the first against their
   * number, and joins the rest; it then removes them all, the destination included if it is one of them.
   * If the header does not fit, no file but the destination has changed, and in particular no part is
   * removed.
   */
  method ReassembleFile(files: Files, src: string, dest: string, codec: Codec)
    returns (ok: bool, files': Files, ghost names: seq<string>)
    ensures Ascending(names) && forall n :: n in names <==> n in Glob(files, PatternFor(src))
    ensures !ok ==> SameExcept(files, files', dest)
    ensures var start := Emptied(files, dest);
            ok <==> HeaderFits(start, names, codec) && NoSelfCopy(start, dest, names[1..])
    ensures ok ==>
              files' == files[dest := Gather(Emptied(files, dest), names[1..])] - Glob(files, PatternFor(src))
    ensures dest !in names ==> (ok <==> HeaderFits(files, names, codec))
    ensures dest !in names && ok ==>
              files' == files[dest := Gather(files, names[1..])] - Glob(files, PatternFor(src))
  {
    var found := Glob(files, PatternFor(src));
    var sorted := Sorted(found);
    names := sorted;
    if |sorted| == 0 {
      return false, files, names;
    }
    ok, files' := Join(files, sorted, dest, codec);
    if dest !in names {
      DestinationAside(files, dest, names, codec);
    }
    if !ok {
      return;
    }
    files' := files' - found;
  }

  /** A destination that is no part makes no difference to what is read. */
  lemma DestinationAside(files: Files, dest: string, names: seq<string>, codec: Codec)
    requires dest !in names && names != []
    ensures HeaderFits(Emptied(files, dest), names, codec) <==> HeaderFits(files, names, codec)
    ensures NoSelfCopy(Emptied(files, dest), dest, names[1..])
    ensures Gather(Emptied(files, dest), names[1..]) == Gather(files, names[1..])
  {
    assert names[0] in names;
    assert forall n :: n in names[1..] ==> n in names;
    GatherElsewhere(files, dest, names[1..]);
  }

  lemma {:induction false} GatherElsewhere(files: Files, dest: string, data: seq<string>)
    requires dest !in data
    ensures Gather(Emptied(files, dest), data) == Gather(files, data)
    decreases |data|
  {
    if data != [] {
      GatherElsewhere(files, dest, data[..|data| - 1]);
    }
  }

  lemma OnlyChanged(files: Files, files': Files, dest: string)
    requires SameExcept(files, files', dest) && dest in files'
    ensures files' == files[dest := files'[dest]]
  {
  }

  /** The first `k` of the data parts are joined; `start` is how the files were then. */
  ghost predicate Joining(start: Files, files: Files, dest: string, data: seq<string>, k: nat) {
    && SameExcept(start, files, dest) && dest in files && k <= |data|
    && files[dest] == Gather(start, data[..k]) && NoSelfCopy(start, dest, data[..k])
  }

  lemma JoinStep(start: Files, files: Files, dest: string, data: seq<string>, k: nat)
    requires dest in start && start[dest] == [] && Joining(start, files, dest, data, k)
    requires k < |data| && data[k] in files && (data[k] == dest ==> files[dest] == [])
    ensures Joining(start, files[dest := files[dest] + files[data[k]]], dest, data, k + 1)
  {
    GatherStep(start, data, k);
    NoSelfCopyStep(start, dest, data, k);
  }

  lemma NoSelfCopyStep(start: Files, dest: string, data: seq<string>, k: nat)
    requires k < |data|
    ensures NoSelfCopy(start, dest, data[..k + 1]) <==>
              NoSelfCopy(start, dest, data[..k]) && (data[k] == dest ==> Gather(start, data[..k]) == [])
  {
    var more, less := data[..k + 1], data[..k];
    assert forall i :: 0 <= i <= k ==> more[..i] == data[..i];
    assert forall i :: 0 <= i < k ==> less[..i] == data[..i] && less[i] == more[i];
    assert more[k] == data[k];
  }

  /** Appends the data parts, one by one, to the emptied destination. */
  method AppendParts(start: Files, data: seq<string>, dest: string) returns (ok: bool, files: Files)
    requires (forall n :: n in data ==> n in start) && dest in start && start[dest] == []
    ensures SameExcept(start, files, dest) && dest in files
    ensures ok <==> NoSelfCopy(start, dest, data)
    ensures ok ==> files[dest] == Gather(start, data)
  {
    files := start;
    for i := 0 to |data|
      invariant Joining(start, files, dest, data, i)
    {
      assert data[i] in data && data[i] in files;
      if data[i] == dest && files[dest] != [] {
        assert Gather(start, data[..i]) != [];
        return false, files;
      }
      JoinStep(start, files, dest, data, i);
      files := files[dest := files[dest] + files[data[i]]];
    }
    assert data[..|data|] == data;
    ok := true;
  }

  /** Checks the header and appends the other parts. */
  method Join(files: Files, names: seq<string>, dest: string, codec: Codec) returns (ok: bool, files': Files)
    requires names != [] && forall n :: n in names ==> n in files
    ensures SameExcept(files, files', dest)
    ensures var start := Emptied(files, dest);
            ok <==> HeaderFits(start, names, codec) && NoSelfCopy(start, dest, names[1..])
    ensures ok ==> files' == files[dest := Gather(Emptied(files, dest), names[1..])]
  {
    files' := Emptied(files, dest);
    assert names[0] in names;
    var meta := codec.decode(files'[names[0]]);
    if meta.None? || meta.value.count != |names| - 1 {
      return false, files';
    }
    assert forall n :: n in names[1..] ==> n in names;
    ok, files' := AppendParts(Emptied(files, dest), names[1..], dest);
    OnlyChanged(files, files', dest);
  }

  /** The chunks in the order of the given numbers, the first of which is that of the header. */
  ghost function Arranged(chunks: seq<Bytes>, order: seq<nat>): Bytes
    requires |order| == |chunks| + 1
  {
    Concat(Pieces(chunks, order, |chunks|))
  }

  ghost function Piece(chunks: seq<Bytes>, k: nat): Bytes {
    if 1 <= k <= |chunks| then chunks[k - 1] else []
  }

  ghost function Pieces(chunks: seq<Bytes>, order: seq<nat>, n: nat): (r: seq<Bytes>)
    requires n < |order|
    ensures |r| == n && forall i :: 0 <= i < n ==> r[i] == Piece(chunks, order[i + 1])
  {
    seq(n, i requires 0 <= i < n => Piece(chunks, order[i + 1]))
  }

  lemma {:induction false} GatherPieces(files: Files, names: seq<string>, pieces: seq<Bytes>)
    requires |names| == |pieces| && forall i :: 0 <= i < |names| ==> Content(files, names[i]) == pieces[i]
    ensures Gather(files, names) == Concat(pieces)
    decreases |names|
  {
    if names != [] {
      GatherPieces(files, names[..|names| - 1], pieces[..|names| - 1]);
    }
  }

  /** With at most 999 parts the name order is the part order, and the chunks make up the content again. */
  lemma ArrangedInOrder(base: string, chunks: seq<Bytes>, order: seq<nat>)
    requires Arranges(Naming(base), order, |chunks|) && |chunks| <= 999
    ensures Arranged(chunks, order) == Concat(chunks)
  {
    OrderIsIdentity(base, order, |chunks|);
    PiecesInOrder(chunks, order);
  }

  lemma PiecesInOrder(chunks: seq<Bytes>, order: seq<nat>)
    requires |order| == |chunks| + 1 && forall k :: 0 <= k < |order| ==> order[k] == k
    ensures Arranged(chunks, order) == Concat(chunks)
  {
    assert Pieces(chunks, order, |chunks|) == chunks;
  }

  lemma OrderIsIdentity(base: string, order: seq<nat>, count: nat)
    requires Arranges(Naming(base), order, count) && count <= 999
    ensures forall k :: 0 <= k <= count ==> order[k] == k
  {
    var name := Naming(base);
    var names := seq(|order|, i requires 0 <= i < |order| => name(order[i]));
    NameOrderIsPartOrder(base, count);
    var parts := Listed(name, count);
    forall n ensures n in names <==> n in parts {
      if n in parts {
        var k: nat :| k <= count && parts[k] == n;
        assert k in order;
        var i :| 0 <= i < |order| && order[i] == k;
        assert names[i] == n;
      }
      if n in names {
        var i :| 0 <= i < |names| && names[i] == n;
        assert parts[order[i]] == n;
      }
    }
    AscendingIsUnique(names, parts);
    forall k | 0 <= k <= count ensures order[k] == k {
      assert names[k] == parts[k] == name(k);
      PartNamesDiffer(base, order[k], k);
    }
  }

  /** The files after a split: those kept, and one under each part name. */
  lemma SplitKeys(kept: Files, name: nat -> string, parts: seq<Bytes>, header: Bytes)
    requires Distinct(name) && Unused(kept, name)
    ensures var files := AddParts(kept, name, parts)[name(0) := header];
            && (forall n :: n in files <==> n in kept || n in Listed(name, |parts|))
            && (forall n :: n in kept ==> files[n] == kept[n])
            && files[name(0)] == header
            && (forall k: nat :: 1 <= k <= |parts| ==> name(k) in files && files[name(k)] == parts[k - 1])
  {
    AddPartsLookup(kept, name, parts);
    var names := Listed(name, |parts|);
    assert forall k: nat :: k <= |parts| ==> names[k] == name(k) && names[k] in names;
  }

  /** If exactly the names among the files satisfy a test, the test finds them and nothing else. */
  lemma FoundAgain(kept: Files, files: Files, names: seq<string>, isPart: string -> bool)
    requires forall n :: n in files <==> n in kept || n in names
    requires forall n :: n in kept ==> files[n] == kept[n]
    requires forall n :: n in kept ==> !isPart(n)
    requires forall n :: n in names ==> isPart(n)
    ensures forall n :: n in files && isPart(n) <==> n in names
    ensures files - (set n | n in files && isPart(n)) == kept
  {
  }

  /** After a split, the files a reassembly finds are exactly the numbered parts. */
  lemma SplitLeavesParts(kept: Files, src: string, files: Files, names: seq<string>)
    requires Clear(kept, src)
    requires forall n :: n in files <==> n in kept || n in names
    requires forall n :: n in kept ==> files[n] == kept[n]
    requires forall n :: n in names ==> exists k: nat :: n == Naming(src)(k)
    ensures forall n :: n in Glob(files, PartsOf(src)) <==> n in names
    ensures files - Glob(files, PartsOf(src)) == kept
  {
    var isPart := n => PartsOf(src).Matches(n);
    NamingFits(kept, src);
    forall n | n in names ensures isPart(n) {
      var k: nat :| n == Naming(src)(k);
    }
    FoundAgain(kept, files, names, isPart);
    assert Glob(files, PartsOf(src)) == set n | n in files && isPart(n);
  }

  /** What a reassembly finds after a split, and what is left without it. */
  lemma PartsFound(kept: Files, split: Files, src: string, chunks: seq<Bytes>, header: Bytes)
    requires Clear(kept, src) && Unmarked(src)
    requires split == AddParts(kept, Naming(src), chunks)[src + MARK := header]
    ensures Distinct(Naming(src)) && HoldsParts(split, Naming(src), chunks, header)
    ensures forall n :: n in Glob(split, PatternFor(src + MARK)) <==> n in Listed(Naming(src), |chunks|)
    ensures split - Glob(split, PatternFor(src + MARK)) == kept
    ensures forall n :: n in Listed(Naming(src), |chunks|) ==> PartsOf(src).Matches(n)
  {
    var name := Naming(src);
    var parts := Listed(name, |chunks|);
    NamingFits(kept, src);
    PartZero(src);
    assert name(0) == src + MARK;
    SplitKeys(kept, name, chunks, header);
    assert forall k: nat :: k <= |chunks| ==> parts[k] == name(k);
    SplitLeavesParts(kept, src, split, parts);
    PartsAreFoundIff(src);
  }

  ghost predicate HoldsParts(files: Files, name: nat -> string, chunks: seq<Bytes>, header: Bytes) {
    && name(0) in files && files[name(0)] == header
    && forall k: nat :: 1 <= k <= |chunks| ==> name(k) in files && files[name(k)] == chunks[k - 1]
  }

  lemma Regathered(split: Files, name: nat -> string, chunks: seq<Bytes>, header: Bytes, order: seq<nat>,
      names: seq<string>)
    requires HoldsParts(split, name, chunks, header) && Arranges(name, order, |chunks|) && LedByHeader(order)
    requires |names| == |order| && forall i :: 0 <= i < |order| ==> names[i] == name(order[i])
    ensures Content(split, names[0]) == header && Gather(split, names[1..]) == Arranged(chunks, order)
  {
    var pieces := Pieces(chunks, order, |chunks|);
    forall i | 0 <= i < |chunks| ensures Content(split, names[1..][i]) == pieces[i] {
      assert names[1..][i] == name(order[i + 1]);
    }
    GatherPieces(split, names[1..], pieces);
  }

  lemma Restored(kept: Files, split: Files, src: string, chunks: seq<Bytes>, header: Bytes, names: seq<string>)
    returns (order: seq<nat>)
    requires Clear(kept, src) && Unmarked(src)
    requires split == AddParts(kept, Naming(src), chunks)[src + MARK := header]
    requires Ascending(names) && forall n :: n in names <==> n in Glob(split, PatternFor(src + MARK))
    ensures |names| == |chunks| + 1 && Content(split, names[0]) == header
    ensures Arranges(Naming(src), order, |chunks|) && Gather(split, names[1..]) == Arranged(chunks, order)
    ensures split - Glob(split, PatternFor(src + MARK)) == kept
    ensures forall n :: n in names <==> IsPart(src, |chunks|, n)
  {
    PartsFound(kept, split, src, chunks, header);
    order := PartOrder(src, names, |chunks|);
    Regathered(split, Naming(src), chunks, header, order, names);
  }

  /** The part numbers of the files that a reassembly finds; the header comes first. */
  lemma PartOrder(src: string, names: seq<string>, count: nat) returns (order: seq<nat>)
    requires Distinct(Naming(src)) && Ascending(names) && forall n :: n in names <==> n in Listed(Naming(src), count)
    ensures Arranges(Naming(src), order, count) && LedByHeader(order)
    ensures |names| == |order| && forall i :: 0 <= i < |order| ==> names[i] == Naming(src)(order[i])
  {
    forall k: nat | k >= 1 ensures Less(Naming(src)(0), Naming(src)(k)) {
      HeaderSortsFirst(src, k);
    }
    order := OrderFound(Naming(src), names, count);
    ArrangesLed(src, order, count);
  }

  ghost predicate LedByHeader(order: seq<nat>) {
    order != [] && order[0] == 0 && forall i :: 0 < i < |order| ==> order[i] >= 1
  }

  lemma ArrangesLed(base: string, order: seq<nat>, count: nat)
    requires Arranges(Naming(base), order, count)
    ensures LedByHeader(order)
  {
    var name := Naming(base);
    forall k: nat | k >= 1 ensures Less(name(0), name(k)) {
      HeaderSortsFirst(base, k);
    }
    HeaderLeads(name, order);
    var header := name(0);
    LessIsTotal(header, header);
    assert forall i :: 0 < i < |order| ==> Less(header, name(order[i]));
  }

  lemma RemoveAround(files: Files, found: set<string>, dest: string, content: Bytes)
    requires dest !in found
    ensures files[dest := content] - found == (files - found)[dest := content]
  {
  }

  /** The name is that of the header or of one of `count` data parts. */
  ghost predicate IsPart(src: string, count: nat, name: string) {
    name in Listed(Naming(src), count)
  }

  /** What a reassembly that found `names` makes of the files after a split. */
  lemma CameBack(kept: Files, split: Files, src: string, chunks: seq<Bytes>, header: Metadata, dest: string,
      codec: Codec, names: seq<string>, ok: bool, files': Files)
    returns (order: seq<nat>)
    requires codec.Faithful() && Clear(kept, src) && Unmarked(src) && header.count == |chunks|
    requires split == AddParts(kept, Naming(src), chunks)[src + MARK := codec.encode(header)]
    requires Ascending(names) && forall n :: n in names <==> n in Glob(split, PatternFor(src + MARK))
    requires var found := Glob(split, PatternFor(src + MARK));
             && (ok ==> names != [] && files' == split[dest := Gather(Emptied(split, dest), names[1..])] - found)
             && (dest !in names ==> (ok <==> HeaderFits(split, names, codec)))
             && (dest !in names && ok ==> files' == split[dest := Gather(split, names[1..])] - found)
    ensures Arranges(Naming(src), order, |chunks|)
    ensures if IsPart(src, |chunks|, dest) then ok ==> files' == kept
            else ok && files' == kept[dest := Arranged(chunks, order)]
    ensures |chunks| <= 999 ==> Arranged(chunks, order) == Concat(chunks)
  {
    order := Restored(kept, split, src, chunks, codec.encode(header), names);
    var found := Glob(split, PatternFor(src + MARK));
    if dest in found {
      RemoveAll(split, found, dest, Gather(Emptied(split, dest), names[1..]));
    } else {
      RemoveAround(split, found, dest, Arranged(chunks, order));
    }
    if |chunks| <= 999 {
      ArrangedInOrder(src, chunks, order);
    }
  }

  /**
   * The round trip, for a path that carries no part mark of its own. Whatever the number of parts,
   * reassembling the split succeeds, leaves every other file as it was, less the source and any parts of
   * an earlier split, and puts the chunks in name order at the destination. With a positive chunk size
   * and at most 999 parts that is the content; with a chunk size that is not positive it is nothing. If
   * the destination is one of the parts, success means that nothing of the content is left.
   */
  method RoundTrip(files: Files, src: string, chunkSize: int, dest: string, codec: Codec)
    returns (ok: bool, files': Files, ghost order: seq<nat>)
    requires codec.Faithful() && src in files && Unmarked(src)
    ensures Arranges(Naming(src), order, |Chunks(files[src], chunkSize)|)
    ensures var chunks := Chunks(files[src], chunkSize);
            if IsPart(src, |chunks|, dest) then ok ==> files' == Kept(files, src)
            else
              && ok && dest in files' && files' == Kept(files, src)[dest := files'[dest]]
              && (chunkSize > 0 && |chunks| <= 999 ==> files'[dest] == files[src])
              && (chunkSize <= 0 ==> files'[dest] == [])
    ensures var chunks := Chunks(files[src], chunkSize);
            !IsPart(src, |chunks|, dest) ==> files'[dest] == Arranged(chunks, order)
    ensures ok ==> OthersStay(files, files', src, dest) && NothingLeft(files', src, dest)
  {
    var r, split := SplitFile(files, src, chunkSize, codec);
    ghost var names;
    ok, files', names := ReassembleFile(split, src + MARK, dest, codec);
    ghost var chunks := Chunks(files[src], chunkSize);
    ghost var header := Metadata(|chunks|, |files[src]|, codec.sha(Concat(chunks)));
    order := CameBack(Kept(files, src), split, src, chunks, header, dest, codec, names, ok, files');
    if chunkSize > 0 {
      ChunksCover(files[src], chunkSize);
    }
    if ok {
      KeptMeans(files, src);
      OnlyDestinationAdded(files, Kept(files, src), files', src, dest);
    }
  }

  lemma RemoveAll(files: Files, found: set<string>, dest: string, content: Bytes)
    requires dest in found
    ensures files[dest := content] - found == files - found
  {
  }

  // ---------------------------------------------------------------------------------------------
  // A thousand parts and more
  // ---------------------------------------------------------------------------------------------

  ghost predicate Even(parts: seq<Bytes>, size: int) {
    forall i :: 0 <= i < |parts| ==> |parts[i]| == size
  }

  /** Pieces of one size are told apart in what they make up. */
  lemma {:induction false} ConcatIsInjective(a: seq<Bytes>, b: seq<Bytes>, size: int)
    requires |a| == |b| && Even(a, size) && Even(b, size) && Concat(a) == Concat(b)
    ensures a == b
    decreases |a|
  {
    if a != [] {
      var n := |a| - 1;
      var x, y := Concat(a[..n]), Concat(b[..n]);
      assert |x| == |y|;
      assert x == (x + a[n])[..|x|] == (y + b[n])[..|x|] == y;
      assert a[n] == (x + a[n])[|x|..] == (y + b[n])[|x|..] == b[n];
      ConcatIsInjective(a[..n], b[..n], size);
      assert a == a[..n] + [a[n]] && b == b[..n] + [b[n]];
    }
  }

  /** And cutting it up gives them back. */
  lemma {:induction false} ChunksOfConcat(parts: seq<Bytes>, size: int)
    requires size > 0 && Even(parts, size)
    ensures Chunks(Concat(parts), size) == parts
    decreases |parts|
  {
    if parts != [] {
      var first, rest := parts[0], parts[1..];
      assert parts == [first] + rest;
      ConcatFirst(first, rest);
      ChunksOfConcat(rest, size);
      var all := first + Concat(rest);
      assert all[..size] == first && all[size..] == Concat(rest);
      assert rest != [] ==> |Concat(rest)| >= |rest[|rest| - 1]|;
      if |all| <= size {
        assert all == first;
      }
    }
  }

  /** `count` chunks, those from number 1000 on of ones, the others of zeros. */
  ghost function Telling(count: nat, size: nat): (parts: seq<Bytes>)
    ensures |parts| == count && Even(parts, size)
    ensures forall i :: 0 <= i < count && size > 0 ==> (parts[i][0] == 1 <==> i + 1 >= 1000)
  {
    seq(count, i requires 0 <= i < count => seq(size, _ => if i + 1 >= 1000 then 1 as bv8 else 0))
  }

  /** From 1000 parts on, for every number of parts and every chunk size, some content comes back wrong. */
  lemma ComesBackWrong(base: string, count: nat, size: nat, order: seq<nat>)
    requires count >= 1000 && size > 0 && Arranges(Naming(base), order, count)
    ensures var content := Concat(Telling(count, size));
      |Chunks(content, size)| == count && Arranged(Chunks(content, size), order) != content
  {
    ChunksOfConcat(Telling(count, size), size);
    ArrangesLed(base, order, count);
    ThousandSortsEarly(base);
    OutOfPlace(Naming(base), count, size, order);
  }

  /** So a file of that content is split and reassembled without an error, and is not what it was. */
  method ThousandPartsRoundTrip(files: Files, src: string, count: nat, size: nat, dest: string, codec: Codec)
    returns (ok: bool, files': Files)
    requires codec.Faithful() && src in files && Unmarked(src) && count >= 1000 && size > 0
    requires files[src] == Concat(Telling(count, size)) && !IsPart(src, count, dest)
    ensures ok && dest in files' && files'[dest] != files[src]
  {
    ghost var order;
    ChunksOfConcat(Telling(count, size), size);
    ok, files', order := RoundTrip(files, src, size, dest, codec);
    ComesBackWrong(src, count, size, order);
  }

  lemma OutOfPlace(name: nat -> string, count: nat, size: nat, order: seq<nat>)
    requires count >= 1000 && size > 0 && Arranges(name, order, count) && LedByHeader(order)
    requires Less(name(1000), name(101))
    ensures Arranged(Telling(count, size), order) != Concat(Telling(count, size))
  {
    var chunks := Telling(count, size);
    var p, q := Misplaced(name, count, order);
    EvenPieces(chunks, order, size);
    if Concat(Pieces(chunks, order, count)) == Concat(chunks) {
      ConcatIsInjective(Pieces(chunks, order, count), chunks, size);
      TellingPlaces(count, size, order, p);
      TellingPlaces(count, size, order, q);
    }
  }

  lemma Misplaced(name: nat -> string, count: nat, order: seq<nat>) returns (p: nat, q: nat)
    requires count >= 1000 && Arranges(name, order, count) && LedByHeader(order) && Less(name(1000), name(101))
    ensures 0 < p < q < |order| && order[p] == 1000 && order[q] == 101
  {
    var late: nat, early: nat := 1000, 101;
    assert late in order && early in order;
    p :| 0 <= p < |order| && order[p] == late;
    q :| 0 <= q < |order| && order[q] == early;
    var a, b := name(late), name(early);
    assert q < p ==> Less(b, a);
    LessIsTotal(a, b);
  }

  lemma EvenPieces(chunks: seq<Bytes>, order: seq<nat>, size: nat)
    requires |order| == |chunks| + 1 && LedByHeader(order) && Even(chunks, size)
    requires forall i :: 0 <= i < |order| ==> order[i] <= |chunks|
    ensures Even(Pieces(chunks, order, |chunks|), size)
  {
  }

  /** If the pieces are the chunks, a chunk of ones stands where a chunk of ones was. */
  lemma TellingPlaces(count: nat, size: nat, order: seq<nat>, p: nat)
    requires size > 0 && |order| == count + 1 && LedByHeader(order) && 0 < p < |order| && order[p] <= count
    requires Pieces(Telling(count, size), order, count) == Telling(count, size)
    ensures order[p] >= 1000 <==> p >= 1000
  {
    var chunks := Telling(count, size);
    assert Pieces(chunks, order, count)[p - 1] == Piece(chunks, order[p]) == chunks[order[p] - 1];
  }

  // ---------------------------------------------------------------------------------------------
  // Paths that carry the mark
  // ---------------------------------------------------------------------------------------------

  /** Of the files after a split, a reassembly of a marked path finds the header at most. */
  lemma MarkedFindsHeaderOnly(kept: Files, split: Files, src: string, chunks: seq<Bytes>, header: Bytes)
    requires Clear(kept, src) && !Unmarked(src)
    requires forall n :: n in kept ==> !PatternFor(src + MARK).Matches(n)
    requires split == AddParts(kept, Naming(src), chunks)[src + MARK := header]
    ensures HoldsParts(split, Naming(src), chunks, header)
    ensures forall n :: n in Glob(split, PatternFor(src + MARK)) ==> n == src + MARK
  {
    var name := Naming(src);
    NamingFits(kept, src);
    PartZero(src);
    assert name(0) == src + MARK;
    SplitKeys(kept, name, chunks, header);
    PartsAreFoundIff(src);
    var parts := Listed(name, |chunks|);
    forall n | n in Glob(split, PatternFor(src + MARK)) ensures n == src + MARK {
      var k :| 0 <= k < |parts| && parts[k] == n;
      assert n == PartName(src, k);
    }
  }

  /**
   * Every file with at least one chunk whose own path carries the mark is split, but then refused: its data
   * parts are not found again, unless other files match in their place. The parts are still there.
   */
  method MarkedRoundTrip(files: Files, src: string, chunkSize: int, dest: string, codec: Codec)
    returns (ok: bool, files': Files)
    requires codec.Faithful() && src in files && !Unmarked(src) && dest != src + MARK
    requires Chunks(files[src], chunkSize) != []
    requires forall n :: n in Kept(files, src) ==> !PatternFor(src + MARK).Matches(n)
    ensures !ok
    ensures var chunks := Chunks(files[src], chunkSize);
            forall k: nat :: 1 <= k <= |chunks| && PartName(src, k) != dest ==>
              PartName(src, k) in files' && files'[PartName(src, k)] == chunks[k - 1]
  {
    var r, split := SplitFile(files, src, chunkSize, codec);
    ghost var chunks := Chunks(files[src], chunkSize);
    ghost var header := codec.encode(Metadata(|chunks|, |files[src]|, codec.sha(Concat(chunks))));
    MarkedFindsHeaderOnly(Kept(files, src), split, src, chunks, header);
    ghost var names;
    ok, files', names := ReassembleFile(split, src + MARK, dest, codec);
    OneName(names, src + MARK);
    PartZero(src);
    forall k: nat | 1 <= k <= |chunks| && PartName(src, k) != dest
      ensures PartName(src, k) in files' && files'[PartName(src, k)] == chunks[k - 1]
    {
      assert Naming(src)(k) == PartName(src, k);
    }
  }

  /** For example a file named ".part000". */
  method MarkedPathIsNotReassembled(codec: Codec) returns (ok: bool, files': Files)
    requires codec.Faithful()
    ensures !ok
    ensures PartName(MARK, 1) in files' && files'[PartName(MARK, 1)] == [7]
  {
    var files: Files := map[MARK := [7]];
    assert At(MARK + MARK, MARK, 0);
    assert Chunks([7], 1) == [[7]];
    assert Kept(files, MARK) == map[];
    ok, files' := MarkedRoundTrip(files, MARK, 1, "", codec);
  }

  lemma OneName(names: seq<string>, only: string)
    requires Ascending(names) && forall n :: n in names ==> n == only
    ensures |names| <= 1 && (|names| == 1 ==> names[0] == only)
  {
    LessIsTotal(only, only);
    assert forall i :: 0 <= i < |names| ==> names[i] in names;
    var a, b := if |names| > 1 then names[0] else only, if |names| > 1 then names[1] else only;
    assert a == only && b == only;
    assert |names| > 1 ==> Less(a, b);
  }
}

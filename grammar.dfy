/**
  The file-name grammar of the variant cache: the size tag carried by a
  variant's file name (`IMAGE_VARIANT_RE` / `getImageVariant`), the decimal
  rendering of sizes used by the f-strings that build tags, and the path
  helpers the code relies on (`basename`, `splitext`, pathlib's `stem` and
  `suffix`).
*/
module Grammar {

  datatype Option<T> = None | Some(value: T)

  predicate IsDigit(c: char) { '0' <= c <= '9' }
  predicate IsLower(c: char) { 'a' <= c <= 'z' }

  /**
    What `\d` matches in a pattern compiled without re.ASCII: a character of
    the Unicode category Nd (decimal digit). Every such character outside
    ASCII lies in a block of ten consecutive code points, `0` to `9` of one
    script; NdZeros lists the first code point of each block, as the Unicode
    15.0 database of Python 3.12 has them.
  */
  predicate IsRegexDigit(c: char)
  {
    '0' <= c <= '9' || ('\U{0660}' <= c && InDigitBlock(c as int, NdZeros))
  }

  /** A list of blocks of ten code points, each given by its first one. */
  datatype Blocks = End | Block(zero: int, next: Blocks)

  const NdZeros: Blocks :=
    Block(0x0660, Block(0x06F0, Block(0x07C0, Block(0x0966, Block(0x09E6, Block(0x0A66,
    Block(0x0AE6, Block(0x0B66, Block(0x0BE6, Block(0x0C66, Block(0x0CE6, Block(0x0D66,
    Block(0x0DE6, Block(0x0E50, Block(0x0ED0, Block(0x0F20, Block(0x1040, Block(0x1090,
    Block(0x17E0, Block(0x1810, Block(0x1946, Block(0x19D0, Block(0x1A80, Block(0x1A90,
    Block(0x1B50, Block(0x1BB0, Block(0x1C40, Block(0x1C50, Block(0xA620, Block(0xA8D0,
    Block(0xA900, Block(0xA9D0, Block(0xA9F0, Block(0xAA50, Block(0xABF0, Block(0xFF10,
    Block(0x104A0, Block(0x10D30, Block(0x11066, Block(0x110F0, Block(0x11136, Block(0x111D0,
    Block(0x112F0, Block(0x11450, Block(0x114D0, Block(0x11650, Block(0x116C0, Block(0x11730,
    Block(0x118E0, Block(0x11950, Block(0x11C50, Block(0x11D50, Block(0x11DA0, Block(0x11F50,
    Block(0x16A60, Block(0x16AC0, Block(0x16B50, Block(0x1D7CE, Block(0x1D7D8, Block(0x1D7E2,
    Block(0x1D7EC, Block(0x1D7F6, Block(0x1E140, Block(0x1E2F0, Block(0x1E4F0, Block(0x1E950,
    Block(0x1FBF0, End)))))))))))))))))))))))))))))))))))))))))))))))))))))))))))))))))))

  /** `n` lies in one of the blocks of ten that `b` lists. */
  predicate InDigitBlock(n: int, b: Blocks)
  {
    b.Block? && (b.zero <= n < b.zero + 10 || InDigitBlock(n, b.next))
  }

  /** No `\d` character is one the pattern or the path helpers give a meaning to. */
  lemma RegexDigitPlain(c: char)
    requires IsRegexDigit(c)
    ensures c != 'x' && c != '-' && c != '.' && c != '/' && c != '\n' && !IsLower(c)
  {
  }

  predicate AllDigits(s: string) { forall i :: 0 <= i < |s| ==> IsDigit(s[i]) }
  predicate AllRegexDigits(s: string) { forall i :: 0 <= i < |s| ==> IsRegexDigit(s[i]) }
  predicate AllLower(s: string) { forall i :: 0 <= i < |s| ==> IsLower(s[i]) }
  predicate NoNewline(s: string) { forall i :: 0 <= i < |s| ==> s[i] != '\n' }
  predicate NoSlash(s: string) { forall i :: 0 <= i < |s| ==> s[i] != '/' }
  predicate NoDot(s: string) { forall i :: 0 <= i < |s| ==> s[i] != '.' }

  // ---------------------------------------------------------------------
  // Decimal rendering of a size, as Python's f"{n}" writes a non-negative int
  // ---------------------------------------------------------------------

  function DigitChar(d: nat): (c: char)
    requires d < 10
    ensures IsDigit(c)
  {
    (d + '0' as int) as char
  }

  function DigitValue(c: char): nat
    requires IsDigit(c)
  {
    (c as int - '0' as int) as nat
  }

  /** f"{n}": at least one digit, digits only, no leading zero. */
  function Decimal(n: nat): (s: string)
    ensures |s| > 0 && AllDigits(s)
    ensures s[0] == '0' ==> n == 0
    decreases n
  {
    if n < 10 then [DigitChar(n)] else Decimal(n / 10) + [DigitChar(n % 10)]
  }

  /** The number a string of decimal digits denotes. */
  function DecimalValue(s: string): nat
    requires AllDigits(s)
    decreases |s|
  {
    if s == [] then 0 else DecimalValue(s[..|s| - 1]) * 10 + DigitValue(s[|s| - 1])
  }

  /** Reading back the rendering of a size gives the size. */
  lemma {:induction false} DecimalRoundTrip(n: nat)
    ensures DecimalValue(Decimal(n)) == n
    decreases n
  {
    var s := Decimal(n);
    if n >= 10 {
      DecimalRoundTrip(n / 10);
      assert s[..|s| - 1] == Decimal(n / 10);
    }
  }

  /** Two sizes render alike only when they are equal. */
  lemma DecimalInjective(m: nat, n: nat)
    requires Decimal(m) == Decimal(n)
    ensures m == n
  {
    DecimalRoundTrip(m);
    DecimalRoundTrip(n);
  }

  // ---------------------------------------------------------------------
  // Size tags: "-orig" and f"-{w}x{h}"
  // ---------------------------------------------------------------------

  const OrigTag: string := "-orig"

  /** f"-{w}x{h}", the tag of a resized variant (assets_mgr/__init__.py:97). */
  function SizeTag(w: nat, h: nat): (t: string)
    ensures IsSizeGroup(t)
    ensures t != OrigTag
  {
    var a, b := Decimal(w), Decimal(h);
    SizeGroupOf(a, b);
    "-" + a + "x" + b
  }

  /** `-\d+x\d+`: a hyphen, `\d` characters, an `x`, `\d` characters. */
  predicate IsSizeGroup(g: string)
  {
    |g| >= 4 && g[0] == '-' &&
    exists k :: 1 < k < |g| - 1 && g[k] == 'x' && AllRegexDigits(g[1..k]) && AllRegexDigits(g[k + 1..])
  }

  /** The capture group of IMAGE_VARIANT_RE: `-(?:orig|\d+x\d+)`. */
  predicate IsVariantGroup(g: string)
  {
    g == OrigTag || IsSizeGroup(g)
  }

  lemma SizeGroupOf(a: string, b: string)
    requires |a| > 0 && AllDigits(a) && |b| > 0 && AllDigits(b)
    ensures IsSizeGroup("-" + a + "x" + b) && "-" + a + "x" + b != OrigTag
  {
    var g := "-" + a + "x" + b;
    var k := |a| + 1;
    assert g[1..k] == a && g[k + 1..] == b && g[k] == 'x';
    assert g[|g| - 1] == b[|b| - 1];
    assert OrigTag[4] == 'g';
  }

  // ---------------------------------------------------------------------
  // The regular expression ^.+(-(?:orig|\d+x\d+))\.[a-z]+$ as a grammar
  // ---------------------------------------------------------------------

  /**
    `name` splits as stem, group, ".", extension and an optional final newline:
    `.` never matches a newline, `.+` needs one character, `[a-z]+` needs one
    letter, and Python's `$` also matches just before a final "\n".
  */
  predicate MatchParts(name: string, stem: string, g: string, ext: string, nl: string)
  {
    |stem| > 0 && NoNewline(stem) && IsVariantGroup(g) &&
    |ext| > 0 && AllLower(ext) && (nl == "" || nl == "\n") &&
    name == stem + g + "." + ext + nl
  }

  /** IMAGE_VARIANT_RE matches `name` with `g` as its first group. */
  ghost predicate Matches(name: string, g: string)
  {
    exists stem, ext, nl {:trigger MatchParts(name, stem, g, ext, nl)} :: MatchParts(name, stem, g, ext, nl)
  }

  /** Number of lower-case letters immediately before position `end` of `s`. */
  function LowerRun(s: string, end: nat): (r: nat)
    requires end <= |s|
    ensures r <= end
    ensures forall i :: end - r <= i < end ==> IsLower(s[i])
    ensures r < end ==> !IsLower(s[end - r - 1])
    decreases end
  {
    if end == 0 || !IsLower(s[end - 1]) then 0 else LowerRun(s, end - 1) + 1
  }

  /** Number of `\d` characters immediately before position `end` of `s`. */
  function DigitRun(s: string, end: nat): (r: nat)
    requires end <= |s|
    ensures r <= end
    ensures forall i :: end - r <= i < end ==> IsRegexDigit(s[i])
    ensures r < end ==> !IsRegexDigit(s[end - r - 1])
    decreases end
  {
    if end == 0 || !IsRegexDigit(s[end - 1]) then 0 else DigitRun(s, end - 1) + 1
  }

  lemma LowerRunExact(s: string, end: nat, k: nat)
    requires k < end <= |s| && !IsLower(s[end - k - 1])
    requires forall i :: end - k <= i < end ==> IsLower(s[i])
    ensures LowerRun(s, end) == k
  {
  }

  lemma DigitRunExact(s: string, end: nat, k: nat)
    requires k < end <= |s| && !IsRegexDigit(s[end - k - 1])
    requires forall i :: end - k <= i < end ==> IsRegexDigit(s[i])
    ensures DigitRun(s, end) == k
  {
  }

  /** Length of the group `-(?:orig|\d+x\d+)` that ends at position `p` of `s`, if one does. */
  function GroupLen(s: string, p: nat): (r: Option<nat>)
    requires p <= |s|
    ensures r.Some? ==> 4 <= r.value <= p && IsVariantGroup(s[p - r.value..p])
  {
    if p >= 5 && s[p - 5..p] == OrigTag then Some(5)
    else
      var d2 := DigitRun(s, p);
      if d2 == 0 || d2 >= p || s[p - d2 - 1] != 'x' then None
      else
        var d1 := DigitRun(s, p - d2 - 1);
        if d1 == 0 || d1 + d2 + 1 >= p || s[p - d2 - d1 - 2] != '-' then None
        else
          SizeGroupFound(s, p, d1, d2);
          Some(d1 + d2 + 2)
  }

  lemma SizeGroupFound(s: string, p: nat, d1: nat, d2: nat)
    requires p <= |s| && 0 < d1 && 0 < d2 && d1 + d2 + 1 < p
    requires forall i :: p - d2 <= i < p ==> IsRegexDigit(s[i])
    requires forall i :: p - d2 - 1 - d1 <= i < p - d2 - 1 ==> IsRegexDigit(s[i])
    requires s[p - d2 - 1] == 'x' && s[p - d2 - d1 - 2] == '-'
    ensures IsSizeGroup(s[p - d2 - d1 - 2..p])
  {
    var start := p - d2 - d1 - 2;
    var g := s[start..p];
    var k := d1 + 1;
    SubSlice(s, start, p, g, 1, k);
    SubSlice(s, start, p, g, k + 1, |g|);
    DigitsSlice(s, start + 1, start + k);
    DigitsSlice(s, start + k + 1, p);
    assert g[k] == 'x' && g[0] == '-';
  }

  lemma DigitsSlice(s: string, a: nat, b: nat)
    requires a <= b <= |s| && forall i :: a <= i < b ==> IsRegexDigit(s[i])
    ensures AllRegexDigits(s[a..b])
  {
    forall i | 0 <= i < b - a ensures IsRegexDigit(s[a..b][i]) { assert s[a..b][i] == s[a + i]; }
  }

  /** Where `$` may match: before a final newline, else at the very end. */
  function MatchEnd(name: string): (n: nat)
    ensures n <= |name| && (n == |name| || (n == |name| - 1 && name[n] == '\n'))
  {
    if |name| > 0 && name[|name| - 1] == '\n' then |name| - 1 else |name|
  }

  /**
    The first group of IMAGE_VARIANT_RE on `name`, or None where the pattern
    does not match. Every group it yields begins with the hyphen.
  */
  function ParseVariant(name: string): (r: Option<string>)
    ensures r.Some? ==> |r.value| >= 4 && r.value[0] == '-'
  {
    var n := MatchEnd(name);
    var e := LowerRun(name, n);
    if e == 0 || e == n || name[n - e - 1] != '.' then None
    else GroupBefore(name, n - e - 1)
  }

  /** The group ending at position `p`, provided a non-empty stem without newlines precedes it. */
  function GroupBefore(name: string, p: nat): (r: Option<string>)
    requires p <= |name|
    ensures r.Some? ==> |r.value| >= 4 && r.value[0] == '-'
  {
    match GroupLen(name, p)
    case None => None
    case Some(k) =>
      if k < p && NoNewline(name[..p - k]) then Some(name[p - k..p]) else None
  }

  /** The pieces ParseVariant finds, put back together, give the name. */
  lemma Reassemble(name: string, a: nat, p: nat, n: nat)
    requires a <= p < n <= |name| && name[p] == '.'
    ensures name == name[..a] + name[a..p] + "." + name[p + 1..n] + name[n..]
  {
    assert name == name[..a] + name[a..p] + name[p..p + 1] + name[p + 1..n] + name[n..];
  }

  /** Whatever ParseVariant yields is a match of the pattern. */
  lemma ParseVariantSound(name: string)
    requires ParseVariant(name).Some?
    ensures Matches(name, ParseVariant(name).value)
  {
    var n := MatchEnd(name);
    var p := n - LowerRun(name, n) - 1;
    ParseVariantShape(name);
    var g := GroupBefore(name, p).value;
    GroupBeforeShape(name, p);
    MatchAt(name, p, n, g);
    assert ParseVariant(name).value == g;
    MatchesOf(name, name[..p - |g|], g, name[p + 1..n], name[n..]);
  }

  lemma MatchesOf(name: string, stem: string, g: string, ext: string, nl: string)
    requires MatchParts(name, stem, g, ext, nl)
    ensures Matches(name, g)
  {
  }

  /** Where ParseVariant found the dot, when it finds a group. */
  lemma ParseVariantShape(name: string)
    requires ParseVariant(name).Some?
    ensures var n := MatchEnd(name); var e := LowerRun(name, n);
      0 < e < n && name[n - e - 1] == '.' && ParseVariant(name) == GroupBefore(name, n - e - 1)
  {
  }

  /** What GroupBefore's answer says about the name. */
  lemma GroupBeforeShape(name: string, p: nat)
    requires p <= |name| && GroupBefore(name, p).Some?
    ensures var g := GroupBefore(name, p).value;
      |g| < p && g == name[p - |g|..p] && NoNewline(name[..p - |g|])
  {
  }

  /** A group with a stem before it and a dot and letters after it is a match. */
  lemma MatchAt(name: string, p: nat, n: nat, g: string)
    requires p + 1 < n == MatchEnd(name) && name[p] == '.'
    requires forall i :: p < i < n ==> IsLower(name[i])
    requires |g| < p && g == name[p - |g|..p] && IsVariantGroup(g) && NoNewline(name[..p - |g|])
    ensures MatchParts(name, name[..p - |g|], g, name[p + 1..n], name[n..])
  {
    var ext := name[p + 1..n];
    Reassemble(name, p - |g|, p, n);
    forall i | 0 <= i < |ext| ensures IsLower(ext[i]) { assert ext[i] == name[p + 1 + i]; }
  }

  /** Where the pieces of a match sit inside the name. */
  lemma MatchLayout(name: string, stem: string, g: string, ext: string, nl: string)
    requires |ext| > 0 && AllLower(ext) && (nl == "" || nl == "\n")
    requires name == stem + g + "." + ext + nl
    ensures MatchEnd(name) == |stem| + |g| + 1 + |ext|
    ensures name[|stem| + |g|] == '.'
    ensures forall i :: |stem| + |g| + 1 <= i < |stem| + |g| + 1 + |ext| ==> IsLower(name[i])
    ensures name[|stem|..|stem| + |g|] == g && name[..|stem|] == stem
  {
    var p := |stem| + |g|;
    if nl == "" { assert name[|name| - 1] == ext[|ext| - 1]; }
    forall i | p + 1 <= i < p + 1 + |ext| ensures IsLower(name[i]) {
      assert name[i] == ext[i - p - 1];
    }
  }

  /** Every match of the pattern is what ParseVariant yields. */
  lemma ParseVariantComplete(name: string, g: string)
    requires Matches(name, g)
    ensures ParseVariant(name) == Some(g)
  {
    var stem, ext, nl :| MatchParts(name, stem, g, ext, nl);
    var p := |stem| + |g|;
    MatchLayout(name, stem, g, ext, nl);
    LowerRunExact(name, p + 1 + |ext|, |ext|);
    GroupLenOf(name, p, g);
    GroupBeforeAt(name, p, |g|);
    ParseVariantAt(name, p, |ext|, g);
  }

  /** GroupBefore's answer once the group has been measured. */
  lemma GroupBeforeAt(name: string, p: nat, k: nat)
    requires k < p <= |name| && GroupLen(name, p) == Some(k) && NoNewline(name[..p - k])
    ensures GroupBefore(name, p) == Some(name[p - k..p])
  {
  }

  /** ParseVariant's answer once the extension has been measured. */
  lemma ParseVariantAt(name: string, p: nat, e: nat, g: string)
    requires 0 < e && MatchEnd(name) == p + 1 + e && name[p] == '.'
    requires LowerRun(name, p + 1 + e) == e && GroupBefore(name, p) == Some(g)
    ensures ParseVariant(name) == Some(g)
  {
    var n := MatchEnd(name);
    assert n - LowerRun(name, n) - 1 == p;
  }

  /** A group that ends at position `p` after at least one character is measured exactly. */
  lemma GroupLenOf(s: string, p: nat, g: string)
    requires |g| < p <= |s| && s[p - |g|..p] == g && IsVariantGroup(g)
    ensures GroupLen(s, p) == Some(|g|)
  {
    if g != OrigTag {
      var k :| 1 < k < |g| - 1 && g[k] == 'x' && AllRegexDigits(g[1..k]) && AllRegexDigits(g[k + 1..]);
      SizeGroupLen(s, p, g, k);
    }
  }

  lemma SizeGroupLen(s: string, p: nat, g: string, k: nat)
    requires |g| < p <= |s| && s[p - |g|..p] == g
    requires |g| >= 4 && g[0] == '-' && 1 < k < |g| - 1 && g[k] == 'x'
    requires AllRegexDigits(g[1..k]) && AllRegexDigits(g[k + 1..])
    ensures GroupLen(s, p) == Some(|g|)
  {
    var start := p - |g|;
    var d1, d2 := k - 1, |g| - k - 1;
    SubSlice(s, start, p, g, k + 1, |g|);
    SubSlice(s, start, p, g, 1, k);
    SubSlice(s, start, p, g, k, k + 1);
    SubSlice(s, start, p, g, 0, 1);
    SliceDigits(s, p - d2, p);
    SliceDigits(s, start + 1, start + k);
    assert s[p - 1] == s[p - d2..p][d2 - 1];
    assert s[p - d2 - 1] == s[start + k..start + k + 1][0];
    assert s[start] == s[start..start + 1][0];
    assert s[p - 5..p] != OrigTag by {
      assert OrigTag[4] == 'g';
      assert p >= 5 ==> s[p - 5..p][4] == s[p - 1];
    }
    DigitRunExact(s, p, d2);
    DigitRunExact(s, p - d2 - 1, d1);
    GroupLenAt(s, p, d1, d2);
  }

  lemma SubSlice(s: string, a: nat, b: nat, g: string, i: nat, j: nat)
    requires a <= b <= |s| && s[a..b] == g && i <= j <= |g|
    ensures s[a + i..a + j] == g[i..j]
  {
    forall t | 0 <= t < j - i ensures s[a + i..a + j][t] == g[i..j][t] {
      assert g[i + t] == s[a..b][i + t];
    }
  }

  lemma SliceDigits(s: string, a: nat, b: nat)
    requires a <= b <= |s| && AllRegexDigits(s[a..b])
    ensures forall i :: a <= i < b ==> IsRegexDigit(s[i])
  {
    forall i | a <= i < b ensures IsRegexDigit(s[i]) { assert s[i] == s[a..b][i - a]; }
  }

  /** GroupLen's answer once both digit runs have been measured. */
  lemma GroupLenAt(s: string, p: nat, d1: nat, d2: nat)
    requires 0 < d1 && 0 < d2 && d1 + d2 + 1 < p <= |s|
    requires p < 5 || s[p - 5..p] != OrigTag
    requires DigitRun(s, p) == d2 && s[p - d2 - 1] == 'x'
    requires DigitRun(s, p - d2 - 1) == d1 && s[p - d2 - d1 - 2] == '-'
    ensures GroupLen(s, p) == Some(d1 + d2 + 2)
  {
    assert !(p >= 5 && s[p - 5..p] == OrigTag);
  }

  // ---------------------------------------------------------------------
  // Paths
  // ---------------------------------------------------------------------

  /** posixpath.basename: what follows the last "/". */
  function Basename(p: string): (b: string)
    ensures NoSlash(b) && |b| <= |p| && b == p[|p| - |b|..]
    ensures |b| < |p| ==> p[|p| - |b| - 1] == '/'
    decreases |p|
  {
    if p == [] || p[|p| - 1] == '/' then [] else Basename(p[..|p| - 1]) + [p[|p| - 1]]
  }

  lemma {:induction false} BasenameOfJoin(dir: string, name: string)
    requires NoSlash(name)
    ensures Basename(dir + "/" + name) == name
    decreases |name|
  {
    var p := dir + "/" + name;
    if name != [] {
      assert p[..|p| - 1] == dir + "/" + name[..|name| - 1];
      BasenameOfJoin(dir, name[..|name| - 1]);
      assert name == name[..|name| - 1] + [name[|name| - 1]];
    }
  }

  /**
    posixpath.dirname: everything before the last "/" (the stripping of a run
    of slashes before it is not modelled; the paths built here have single ones).
  */
  function Dirname(p: string): (d: string)
    ensures |Basename(p)| < |p| ==> p == d + "/" + Basename(p)
  {
    var b := Basename(p);
    if |b| == |p| then "" else
      assert p == p[..|p| - |b| - 1] + "/" + b;
      p[..|p| - |b| - 1]
  }

  lemma DirnameOfJoin(dir: string, name: string)
    requires NoSlash(name)
    ensures Dirname(dir + "/" + name) == dir && Basename(dir + "/" + name) == name
  {
    BasenameOfJoin(dir, name);
    var p := dir + "/" + name;
    assert p[..|p| - |name| - 1] == dir;
  }

  lemma BasenameOfPlain(name: string)
    requires NoSlash(name)
    ensures Basename(name) == name
    decreases |name|
  {
    if name != [] {
      var init := name[..|name| - 1];
      assert NoSlash(init) by {
        forall i | 0 <= i < |init| ensures init[i] != '/' { assert init[i] == name[i]; }
      }
      BasenameOfPlain(init);
      assert name == name[..|name| - 1] + [name[|name| - 1]];
    }
  }

  datatype Error =
    | ZeroDivision                        // ZeroDivisionError in compute_aspect_ratio
    | NoVariantTag(name: string)          // the pattern does not match: .group on None
    | MissingOrig(dir: string)            // KeyError: "-orig" not in the tag map
    | ShapeUnpack(file: string)           // img.shape does not unpack into three values
    | Unreadable(file: string)            // read_image on a file that is not there
    | FileExists(name: string)            // mkdir(exist_ok=True) where a file stands
    | IsADirectory(name: string)          // Path.replace onto a directory
    | NotFound(pattern: string)           // glob(...)[0] on an empty list
    | BadImage                            // skimage's ValueError: resize of an array of four or more axes
    | NoSuchDir                           // iterdir on a directory that does not exist

  datatype Result<T> = Ok(value: T) | Err(error: Error)

  /** getImageVariant(image_path): the tag of the path's basename, or the failure of `.group`. */
  function GetImageVariant(path: string): (r: Result<string>)
    ensures r.Ok? ==> |r.value| >= 4 && r.value[0] == '-'
    ensures r.Err? ==> r.error == NoVariantTag(path)
  {
    var g := ParseVariant(Basename(path));
    if g.None? then Err(NoVariantTag(path)) else Ok(g.value)
  }

  /**
    getImageVariant succeeds exactly when IMAGE_VARIANT_RE matches the
    basename, and then yields the pattern's group.
  */
  lemma GetImageVariantMatches(path: string)
    ensures GetImageVariant(path).Ok? ==> Matches(Basename(path), GetImageVariant(path).value)
    ensures GetImageVariant(path).Err? ==> forall g :: !Matches(Basename(path), g)
  {
    var name := Basename(path);
    if ParseVariant(name).Some? {
      ParseVariantSound(name);
    } else {
      forall g | Matches(name, g) ensures false {
        ParseVariantComplete(name, g);
      }
    }
  }

  /**
    Tag round trip: a stem, "-", a tag (`orig` or `WxH` in decimal), "." and a
    lower-case extension yield exactly "-" + tag, whatever directory holds it.
  */
  lemma VariantRoundTrip(dir: string, stem: string, tag: string, ext: string)
    requires |stem| > 0 && NoNewline(stem) && NoSlash(stem)
    requires tag == "orig" || IsSizeGroup("-" + tag)
    requires |ext| > 0 && AllLower(ext) && NoSlash(ext)
    ensures GetImageVariant(dir + "/" + stem + "-" + tag + "." + ext) == Ok("-" + tag)
  {
    var g := "-" + tag;
    var name := stem + g + "." + ext;
    assert dir + "/" + stem + "-" + tag + "." + ext == dir + "/" + name;
    GroupPlain(g);
    NoSlashJoin(stem, g);
    NoSlashJoin(stem + g, ".");
    NoSlashJoin(stem + g + ".", ext);
    BasenameOfJoin(dir, name);
    assert MatchParts(name, stem, g, ext, "");
    ParseVariantComplete(name, g);
  }

  /**
    `\d` is not limited to ASCII: a size written in Arabic-Indic digits
    (U+0663 is three) is a size tag as well.
  */
  lemma NonAsciiSizeTag(dir: string)
    ensures GetImageVariant(dir + "/" + "a" + "-" + "\U{0663}x\U{0663}" + "." + "png") == Ok("-" + "\U{0663}x\U{0663}")
  {
    var tag := "\U{0663}x\U{0663}";
    var g := "-" + tag;
    assert IsRegexDigit('\U{0663}');
    assert g[2] == 'x' && g[1..2] == "\U{0663}" && g[3..] == "\U{0663}";
    assert AllRegexDigits(g[1..2]) && AllRegexDigits(g[3..]);
    assert IsSizeGroup(g);
    VariantRoundTrip(dir, "a", tag, "png");
  }

  lemma NoSlashJoin(a: string, b: string)
    requires NoSlash(a) && NoSlash(b)
    ensures NoSlash(a + b)
  {
    forall i | 0 <= i < |a + b| ensures (a + b)[i] != '/' {
      if i >= |a| { assert (a + b)[i] == b[i - |a|]; }
    }
  }

  /** A variant group holds neither a slash, a dot nor a newline. */
  lemma GroupPlain(g: string)
    requires IsVariantGroup(g)
    ensures NoSlash(g) && NoDot(g) && NoNewline(g)
  {
    if g != OrigTag {
      var k :| 1 < k < |g| - 1 && g[k] == 'x' && AllRegexDigits(g[1..k]) && AllRegexDigits(g[k + 1..]);
      forall i | 0 < i < |g| && i != k ensures g[i] != '/' && g[i] != '.' && g[i] != '\n' {
        if i < k { assert g[i] == g[1..k][i - 1]; } else { assert g[i] == g[k + 1..][i - k - 1]; }
        RegexDigitPlain(g[i]);
      }
    }
  }

  /** Index of the last "." in `s`. */
  function LastDot(s: string): (r: Option<nat>)
    ensures r.Some? ==> r.value < |s| && s[r.value] == '.' && NoDot(s[r.value + 1..])
    ensures r.None? ==> NoDot(s)
    decreases |s|
  {
    if s == [] then None
    else if s[|s| - 1] == '.' then Some(|s| - 1)
    else LastDot(s[..|s| - 1])
  }

  /**
    The extension posixpath.splitext gives a file name: from its last "." on,
    provided some character before that dot is not a dot; "" otherwise.
    splitext looks for that character in the path's base name only, so the
    model applies Ext to base names (`Resize.VariantName`), where the two agree.
  */
  function Ext(name: string): (e: string)
    ensures e == [] || (e[0] == '.' && NoDot(e[1..]) && |e| <= |name| && e == name[|name| - |e|..])
  {
    match LastDot(name)
    case None => ""
    case Some(i) => if exists j :: 0 <= j < i && name[j] != '.' then name[i..] else ""
  }

  lemma LastDotAppend(p: string, e: string)
    requires |e| > 0 && e[0] == '.' && NoDot(e[1..])
    ensures LastDot(p + e) == Some(|p|)
    decreases |e|
  {
    var s := p + e;
    if |e| > 1 {
      assert s[..|s| - 1] == p + e[..|e| - 1];
      assert s[|s| - 1] == e[1..][|e| - 2];
      LastDotAppend(p, e[..|e| - 1]);
    }
  }

  /** An extension appended to a name whose last character is not a dot is that name's extension. */
  lemma ExtOfAppended(p: string, e: string)
    requires |p| > 0 && p[|p| - 1] != '.'
    requires |e| > 0 && e[0] == '.' && NoDot(e[1..])
    ensures Ext(p + e) == e
  {
    LastDotAppend(p, e);
    assert (p + e)[|p| - 1] != '.';
    assert (p + e)[|p|..] == e;
  }

  /** The extension of a name that matches the variant pattern: its dot, its letters and any final newline. */
  lemma ExtOfVariantName(stem: string, g: string, ext: string, nl: string)
    requires |stem| > 0 && IsVariantGroup(g) && |ext| > 0 && AllLower(ext) && (nl == "" || nl == "\n")
    ensures Ext(stem + g + "." + ext + nl) == "." + ext + nl
  {
    var e := "." + ext + nl;
    assert NoDot(e[1..]) by {
      forall i | 0 <= i < |e| - 1 ensures e[1..][i] != '.' {
        if i < |ext| { assert e[1..][i] == ext[i]; }
      }
    }
    var p := stem + g;
    assert p[|p| - 1] == g[|g| - 1];
    if g != OrigTag {
      var k :| 1 < k < |g| - 1 && g[k] == 'x' && AllRegexDigits(g[1..k]) && AllRegexDigits(g[k + 1..]);
      assert g[|g| - 1] == g[k + 1..][|g| - k - 2];
      RegexDigitPlain(g[|g| - 1]);
    }
    assert stem + g + "." + ext + nl == p + e;
    ExtOfAppended(p, e);
  }

  /** pathlib's PurePath.suffix (Python 3.12): from the last dot, if it is neither first nor last. */
  function Suffix(name: string): (s: string)
    ensures s == [] || (|s| >= 2 && s[0] == '.' && NoDot(s[1..]) && |s| <= |name| && s == name[|name| - |s|..])
  {
    match LastDot(name)
    case None => ""
    case Some(i) => if 0 < i < |name| - 1 then name[i..] else ""
  }

  /** pathlib's PurePath.stem: the name without its suffix. */
  function Stem(name: string): (s: string)
    ensures name == s + Suffix(name)
    ensures Suffix(name) != [] ==> |s| > 0
  {
    match LastDot(name)
    case None => name
    case Some(i) => if 0 < i < |name| - 1 then name[..i] else name
  }

  /** The stem of `<p>.<ext>`, for a non-empty `p` and a non-empty extension without dots, is `p`. */
  lemma StemOfJoin(p: string, ext: string)
    requires |p| > 0 && |ext| > 0 && NoDot(ext)
    ensures Stem(p + "." + ext) == p && SuffixExt(p + "." + ext) == ext
  {
    var name := p + "." + ext;
    assert name == p + ("." + ext);
    assert ("." + ext)[1..] == ext;
    LastDotAppend(p, "." + ext);
    assert name[..|p|] == p && name[|p|..] == "." + ext;
  }

  /** pth.suffix[1:]: the extension without its dot. */
  function SuffixExt(name: string): (e: string)
    ensures NoDot(e)
    ensures e != [] ==> name == Stem(name) + "." + e
  {
    var s := Suffix(name);
    if s == [] then "" else s[1..]
  }
}

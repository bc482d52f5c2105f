/**
 * The JavaScript string built-ins the handlers call, stated over `seq<char>`:
 * `trim`, `toLowerCase` (ASCII case folding only), `endsWith`, `lastIndexOf`,
 * `split(c).pop()`, `substring(0, n)`, the decimal rendering of a number in a
 * template literal, and an ordinal comparison used in place of `localeCompare`.
 * Beside them: `ToUpper`, used only to state case-insensitivity, and the prefix
 * and occurrence scans (`StartsWith`, `StartsWithAny`, `IndexOf`) that the
 * regular expressions are written out with.
 */
module JsString {

  // ---------------------------------------------------------------- trim

  /** The characters `String.prototype.trim` removes: WhiteSpace and LineTerminator. */
  predicate IsJsWhitespace(c: char)
  {
    || c == '\t' || c == '\n' || c == '\U{000B}' || c == '\U{000C}' || c == '\r' || c == ' '
    || c == '\U{00A0}' || c == '\U{1680}' || ('\U{2000}' <= c <= '\U{200A}')
    || c == '\U{2028}' || c == '\U{2029}' || c == '\U{202F}' || c == '\U{205F}'
    || c == '\U{3000}' || c == '\U{FEFF}'
  }

  function TrimStart(s: string): (r: string)
    ensures |r| <= |s| && r == s[|s| - |r|..]
    ensures forall k :: 0 <= k < |s| - |r| ==> IsJsWhitespace(s[k])
    ensures r == [] || !IsJsWhitespace(r[0])
  {
    if s != [] && IsJsWhitespace(s[0]) then
      var r := TrimStart(s[1..]);
      assert s[1..][|s| - 1 - |r|..] == s[|s| - |r|..];
      assert forall k :: 1 <= k < |s| - |r| ==> s[k] == s[1..][k - 1];
      r
    else s
  }

  function TrimEnd(s: string): (r: string)
    ensures |r| <= |s| && r == s[..|r|]
    ensures forall k :: |r| <= k < |s| ==> IsJsWhitespace(s[k])
    ensures r == [] || !IsJsWhitespace(r[|r| - 1])
  {
    if s != [] && IsJsWhitespace(s[|s| - 1]) then TrimEnd(s[..|s| - 1]) else s
  }

  /** `s.trim()`: the slice of `s` left once whitespace is stripped from both ends. */
  function Trim(s: string): (r: string)
    ensures r == [] || (!IsJsWhitespace(r[0]) && !IsJsWhitespace(r[|r| - 1]))
    ensures exists a, b :: 0 <= a <= b <= |s| && r == s[a..b]
              && (forall k :: 0 <= k < a ==> IsJsWhitespace(s[k]))
              && (forall k :: b <= k < |s| ==> IsJsWhitespace(s[k]))
  {
    var t := TrimStart(s);
    var r := TrimEnd(t);
    TrimSlices(s, t, r);
    r
  }

  /** Stripping both ends leaves the slice between two runs of whitespace. */
  lemma TrimSlices(s: string, t: string, r: string)
    requires |t| <= |s| && t == s[|s| - |t|..]
    requires forall k :: 0 <= k < |s| - |t| ==> IsJsWhitespace(s[k])
    requires |r| <= |t| && r == t[..|r|]
    requires forall k :: |r| <= k < |t| ==> IsJsWhitespace(t[k])
    ensures exists a, b :: 0 <= a <= b <= |s| && r == s[a..b]
              && (forall k :: 0 <= k < a ==> IsJsWhitespace(s[k]))
              && (forall k :: b <= k < |s| ==> IsJsWhitespace(s[k]))
  {
    var a := |s| - |t|;
    var b := a + |r|;
    assert r == s[a..b];
    forall k | b <= k < |s|
      ensures IsJsWhitespace(s[k])
    {
      assert s[k] == t[k - a];
    }
  }

  /** A string that neither starts nor ends with whitespace is its own trim. */
  lemma TrimmedIsFixed(s: string)
    requires s == [] || (!IsJsWhitespace(s[0]) && !IsJsWhitespace(s[|s| - 1]))
    ensures Trim(s) == s
  {
  }

  // ---------------------------------------------------------------- case

  /** ASCII lower-casing of one character. */
  function LowerChar(c: char): char
  {
    if 'A' <= c <= 'Z' then (c as int + 32) as char else c
  }

  /** ASCII upper-casing of one character. */
  function UpperChar(c: char): char
  {
    if 'a' <= c <= 'z' then (c as int - 32) as char else c
  }

  /** `s.toLowerCase()`, restricted to ASCII letters. */
  function ToLower(s: string): (r: string)
    ensures |r| == |s|
    ensures forall i :: 0 <= i < |s| ==> r[i] == LowerChar(s[i])
  {
    seq(|s|, i requires 0 <= i < |s| => LowerChar(s[i]))
  }

  /** `s.toUpperCase()`, restricted to ASCII letters. */
  function ToUpper(s: string): (r: string)
    ensures |r| == |s|
    ensures forall i :: 0 <= i < |s| ==> r[i] == UpperChar(s[i])
  {
    seq(|s|, i requires 0 <= i < |s| => UpperChar(s[i]))
  }

  /** Lower-casing forgets any earlier upper-casing. */
  lemma LowerOfUpper(s: string)
    ensures ToLower(ToUpper(s)) == ToLower(s)
  {
    assert forall i :: 0 <= i < |s| ==> LowerChar(UpperChar(s[i])) == LowerChar(s[i]);
  }

  /** Lower-casing commutes with taking a suffix. */
  lemma LowerOfSuffix(s: string, k: nat)
    requires k <= |s|
    ensures ToLower(s[k..]) == ToLower(s)[k..]
  {
  }

  // ---------------------------------------------------------------- search

  predicate StartsWith(s: string, prefix: string)
  {
    |prefix| <= |s| && s[..|prefix|] == prefix
  }

  predicate EndsWith(s: string, suffix: string)
  {
    |suffix| <= |s| && s[|s| - |suffix|..] == suffix
  }

  /** `pat` occurs in `s` at index `k`. */
  predicate OccursAt(s: string, pat: string, k: int)
  {
    0 <= k && k + |pat| <= |s| && s[k..k + |pat|] == pat
  }

  /** A one-character pattern occurs exactly where that character stands. */
  lemma OccursAtChar(s: string, c: char, k: int)
    ensures OccursAt(s, [c], k) <==> 0 <= k < |s| && s[k] == c
  {
    if 0 <= k < |s| {
      assert s[k..k + 1] == [s[k]];
    }
  }

  /** `suffixes.some(ext => s.endsWith(ext))`. */
  function EndsWithAny(s: string, suffixes: seq<string>): (r: bool)
    ensures r <==> exists i :: 0 <= i < |suffixes| && EndsWith(s, suffixes[i])
  {
    if suffixes == [] then false
    else EndsWith(s, suffixes[0]) || EndsWithAny(s, suffixes[1..])
  }

  /** `prefixes.some(p => s.startsWith(p))`. */
  function StartsWithAny(s: string, prefixes: seq<string>): (r: bool)
    ensures r <==> exists i :: 0 <= i < |prefixes| && StartsWith(s, prefixes[i])
  {
    if prefixes == [] then false
    else StartsWith(s, prefixes[0]) || StartsWithAny(s, prefixes[1..])
  }

  /** `s.indexOf(pat, from)`: the first occurrence at or after `from`, or -1. */
  function IndexOf(s: string, pat: string, from: nat): (r: int)
    requires from <= |s|
    ensures r == -1 || from <= r
    ensures r == -1 ==> forall k :: from <= k ==> !OccursAt(s, pat, k)
    ensures r != -1 ==> OccursAt(s, pat, r) && forall k :: from <= k < r ==> !OccursAt(s, pat, k)
    decreases |s| - from
  {
    if from + |pat| > |s| then -1
    else if s[from..from + |pat|] == pat then from
    else IndexOf(s, pat, from + 1)
  }

  /** `s.lastIndexOf(c)`: the last index holding `c`, or -1. */
  function LastIndexOf(s: string, c: char): (r: int)
    ensures -1 <= r < |s|
    ensures r == -1 ==> forall k :: 0 <= k < |s| ==> s[k] != c
    ensures r != -1 ==> s[r] == c && forall k :: r < k < |s| ==> s[k] != c
  {
    if s == [] then -1
    else if s[|s| - 1] == c then |s| - 1
    else LastIndexOf(s[..|s| - 1], c)
  }

  /** A `c` with no `c` after it is the last one. */
  lemma LastIndexAt(s: string, c: char, k: nat)
    requires k < |s| && s[k] == c
    requires forall j :: k < j < |s| ==> s[j] != c
    ensures LastIndexOf(s, c) == k
  {
  }

  /** `s.split(c).pop()`: the text after the last `c`, or all of `s` when there is none. */
  function AfterLast(s: string, c: char): (r: string)
    ensures c !in r
    ensures c !in s ==> r == s
    ensures EndsWith(s, r)
    ensures |r| < |s| ==> s[|s| - |r| - 1] == c
  {
    s[LastIndexOf(s, c) + 1..]
  }

  /** `s.substring(0, n)`: at most the first `n` characters. */
  function Prefix(s: string, n: nat): (r: string)
    ensures |r| <= n && StartsWith(s, r)
    ensures |s| <= n ==> r == s
  {
    if |s| <= n then s else s[..n]
  }

  /** Lower-casing never makes or removes a dot. */
  lemma LowerCharDot(c: char)
    ensures LowerChar(c) == '.' <==> c == '.'
  {
  }

  /** A text ending in a dot extension has a dot where the suffix starts and none after. */
  lemma DotExtensionSuffix(t: string, k: nat, ext: string)
    requires k <= |t| && t[k..] == ext && IsDotExtension(ext)
    ensures k < |t| && t[k] == '.'
    ensures forall j :: k < j < |t| ==> t[j] != '.'
  {
    assert t[k] == t[k..][0];
    forall j | k < j < |t|
      ensures t[j] != '.'
    {
      assert t[j] == ext[1..][j - k - 1];
    }
  }

  /** Lower-casing keeps exactly the dots where they are. */
  lemma LowerKeepsDots(s: string)
    ensures forall j :: 0 <= j < |s| ==> (ToLower(s)[j] == '.' <==> s[j] == '.')
  {
    forall j | 0 <= j < |s|
      ensures ToLower(s)[j] == '.' <==> s[j] == '.'
    {
      LowerCharDot(s[j]);
    }
  }

  /** When `lower` has its dots where `s` has, and ends with a dot extension, that suffix starts at the last dot of `s`. */
  lemma LastDotOfSameDots(s: string, lower: string, ext: string)
    requires |lower| == |s|
    requires forall j :: 0 <= j < |s| ==> (lower[j] == '.' <==> s[j] == '.')
    requires IsDotExtension(ext) && EndsWith(lower, ext)
    ensures LastIndexOf(s, '.') == |s| - |ext|
  {
    var k := |s| - |ext|;
    DotExtensionSuffix(lower, k, ext);
    LastIndexAt(s, '.', k);
  }

  /** When the lower-cased `s` ends with a dot extension, its last dot starts that suffix. */
  lemma LastDotOfExtension(s: string, ext: string)
    requires IsDotExtension(ext) && EndsWith(ToLower(s), ext)
    ensures LastIndexOf(s, '.') == |s| - |ext|
  {
    LowerKeepsDots(s);
    LastDotOfSameDots(s, ToLower(s), ext);
  }

  /** A lower-cased name ending in a dot extension has that extension from its last dot on. */
  lemma ExtensionFromLastDot(s: string, ext: string)
    requires IsDotExtension(ext) && EndsWith(ToLower(s), ext)
    ensures LastIndexOf(s, '.') != -1 && ToLower(s[LastIndexOf(s, '.')..]) == ext
  {
    LastDotOfExtension(s, ext);
    LowerOfSuffix(s, |s| - |ext|);
  }

  /** A name whose text from the last dot lower-cases to `ext` ends in `ext` once lower-cased. */
  lemma LastDotGivesExtension(s: string, ext: string)
    requires LastIndexOf(s, '.') != -1 && ToLower(s[LastIndexOf(s, '.')..]) == ext
    ensures EndsWith(ToLower(s), ext)
  {
    LowerOfSuffix(s, LastIndexOf(s, '.'));
  }

  /**
   * When `ext` is a dot followed by dot-free text, `s` ends with `ext` after
   * lower-casing exactly when its last dot starts a suffix that lower-cases to `ext`.
   */
  lemma EndsWithDotExtension(s: string, ext: string)
    requires IsDotExtension(ext)
    ensures EndsWith(ToLower(s), ext) <==>
              (LastIndexOf(s, '.') != -1 && ToLower(s[LastIndexOf(s, '.')..]) == ext)
  {
    if EndsWith(ToLower(s), ext) {
      ExtensionFromLastDot(s, ext);
    }
    if LastIndexOf(s, '.') != -1 && ToLower(s[LastIndexOf(s, '.')..]) == ext {
      LastDotGivesExtension(s, ext);
    }
  }

  /** `ext` is a dot followed by dot-free text, as every extension in the allow-lists is. */
  predicate IsDotExtension(ext: string)
  {
    |ext| >= 1 && ext[0] == '.' && '.' !in ext[1..]
  }

  /**
   * Against a list of dot extensions, `exts.some(ext => s.toLowerCase().endsWith(ext))`
   * holds exactly when the text from the last dot of `s` on, lower-cased, is listed.
   */
  lemma {:induction false} EndsWithAnyDotExtension(s: string, exts: seq<string>)
    requires forall i :: 0 <= i < |exts| ==> IsDotExtension(exts[i])
    ensures EndsWithAny(ToLower(s), exts) <==>
              (LastIndexOf(s, '.') != -1 && ToLower(s[LastIndexOf(s, '.')..]) in exts)
  {
    if exts != [] {
      EndsWithDotExtension(s, exts[0]);
      EndsWithAnyDotExtension(s, exts[1..]);
      assert exts == [exts[0]] + exts[1..];
    }
  }

  // ---------------------------------------------------------------- numbers

  function DigitChar(d: nat): char
    requires d < 10
  {
    ('0' as int + d) as char
  }

  predicate IsDigitChar(c: char)
  {
    '0' <= c <= '9'
  }

  /** The value of a string of decimal digits. */
  function DecimalValue(s: string): nat
    requires forall i :: 0 <= i < |s| ==> IsDigitChar(s[i])
  {
    if s == [] then 0
    else
      var last := s[|s| - 1];
      assert IsDigitChar(last);
      DecimalValue(s[..|s| - 1]) * 10 + (last as int - '0' as int)
  }

  /** `${n}` for a non-negative integer: its shortest decimal rendering. */
  function NatToString(n: nat): (r: string)
    ensures |r| >= 1
    ensures forall i :: 0 <= i < |r| ==> IsDigitChar(r[i])
    ensures r[0] == '0' ==> n == 0
  {
    if n < 10 then [DigitChar(n)] else NatToString(n / 10) + [DigitChar(n % 10)]
  }

  /** Reading the rendering back gives the number. */
  lemma {:induction false} NatToStringRoundTrip(n: nat)
    ensures DecimalValue(NatToString(n)) == n
  {
    if n >= 10 {
      NatToStringRoundTrip(n / 10);
      var r := NatToString(n);
      assert r[..|r| - 1] == NatToString(n / 10);
    }
  }

  // ---------------------------------------------------------------- order

  /**
   * Ordinal three-way comparison by character code, used as the model of
   * `a.localeCompare(b)`: negative, zero or positive.
   */
  function Compare(a: string, b: string): (r: int)
    ensures -1 <= r <= 1
  {
    if a == [] && b == [] then 0
    else if a == [] then -1
    else if b == [] then 1
    else if a[0] < b[0] then -1
    else if a[0] > b[0] then 1
    else Compare(a[1..], b[1..])
  }

  lemma {:induction false} CompareZeroIffEqual(a: string, b: string)
    ensures Compare(a, b) == 0 <==> a == b
  {
    if a != [] && b != [] && a[0] == b[0] {
      CompareZeroIffEqual(a[1..], b[1..]);
      assert a == [a[0]] + a[1..] && b == [b[0]] + b[1..];
    }
  }

  lemma {:induction false} CompareAntisymmetric(a: string, b: string)
    ensures Compare(a, b) == -Compare(b, a)
  {
    if a != [] && b != [] && a[0] == b[0] {
      CompareAntisymmetric(a[1..], b[1..]);
    }
  }

  lemma {:induction false} CompareTransitive(a: string, b: string, c: string)
    requires Compare(a, b) <= 0 && Compare(b, c) <= 0
    ensures Compare(a, c) <= 0
  {
    if a != [] && b != [] && c != [] && a[0] == b[0] && b[0] == c[0] {
      CompareTransitive(a[1..], b[1..], c[1..]);
    }
  }
}

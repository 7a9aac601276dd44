/**
 * String primitives shared by the PHP endpoints, the Python scripts and the
 * browser code: ASCII case folding, substring search, `explode`/`split`,
 * the three flavours of trimming (PHP `trim`, SQL `TRIM`, Python `strip`),
 * decimal rendering of integers, replacement and lexicographic order.
 */
module Strings {
  import opened Wrappers

  predicate IsDigit(c: char) { '0' <= c <= '9' }
  predicate IsAsciiLower(c: char) { 'a' <= c <= 'z' }
  predicate IsAsciiUpper(c: char) { 'A' <= c <= 'Z' }
  predicate IsAsciiAlnum(c: char) { IsDigit(c) || IsAsciiLower(c) || IsAsciiUpper(c) }
  /** The class `[a-z0-9]` of the export filename rule. */
  predicate IsLowerAlnum(c: char) { IsDigit(c) || IsAsciiLower(c) }

  /** ASCII lower-casing (PHP `strtolower`, JavaScript and Python `lower` on ASCII). */
  function LowerChar(c: char): char {
    if IsAsciiUpper(c) then (c as int + 32) as char else c
  }

  function Lower(s: string): string {
    seq(|s|, i requires 0 <= i < |s| => LowerChar(s[i]))
  }

  predicate IsPrefix(p: string, s: string) {
    |p| <= |s| && s[..|p|] == p
  }

  /** First position at which `t` occurs in `s`. */
  function IndexOf(s: string, t: string): (r: Option<nat>)
    ensures r.Some? ==> r.value + |t| <= |s| && s[r.value..r.value + |t|] == t
    ensures r.Some? ==> forall j :: 0 <= j < r.value ==> !IsPrefix(t, s[j..])
    ensures r.None? ==> forall j :: 0 <= j <= |s| ==> !IsPrefix(t, s[j..])
  {
    IndexFrom(s, t, 0)
  }

  /** First position at or after `k` at which `t` occurs in `s`. */
  function IndexFrom(s: string, t: string, k: nat): (r: Option<nat>)
    requires k <= |s|
    ensures r.Some? ==> k <= r.value && r.value + |t| <= |s| && s[r.value..r.value + |t|] == t
    ensures r.Some? ==> forall j :: k <= j < r.value ==> !IsPrefix(t, s[j..])
    ensures r.None? ==> forall j :: k <= j <= |s| ==> !IsPrefix(t, s[j..])
    decreases |s| - k
  {
    if IsPrefix(t, s[k..]) then
      assert s[k..][..|t|] == s[k..k + |t|];
      Some(k)
    else if k == |s| then None
    else IndexFrom(s, t, k + 1)
  }

  /** Substring test (PHP `strpos !== false`, JavaScript `includes`, Python `in`). */
  predicate Contains(s: string, t: string) {
    IndexOf(s, t).Some?
  }

  /** PHP `explode(sep, s)` and Python `s.split(sep)`: cut at every occurrence, left to right. */
  function Explode(s: string, sep: string): (parts: seq<string>)
    requires |sep| > 0
    ensures |parts| >= 1
    decreases |s|
  {
    match IndexOf(s, sep)
    case None => [s]
    case Some(i) => [s[..i]] + Explode(s[i + |sep|..], sep)
  }

  /** `n` copies of `s`: Python `[s] * n`. */
  function Repeat(s: string, n: nat): (r: seq<string>)
    ensures |r| == n && forall i :: 0 <= i < n ==> r[i] == s
    decreases n
  {
    if n == 0 then [] else Repeat(s, n - 1) + [s]
  }

  /** PHP `implode(sep, parts)`, Python `sep.join(parts)`. */
  function Join(parts: seq<string>, sep: string): string {
    if |parts| == 0 then ""
    else if |parts| == 1 then parts[0]
    else parts[0] + sep + Join(parts[1..], sep)
  }

  /** Python `s.split(sep, 1)`: cut at the first occurrence only, or `None` when there is none. */
  function SplitOnce(s: string, sep: string): (r: Option<(string, string)>)
    ensures r.None? <==> !Contains(s, sep)
    ensures r.Some? ==> s == r.value.0 + sep + r.value.1
  {
    match IndexOf(s, sep)
    case None => None
    case Some(i) =>
      assert s == s[..i] + s[i..i + |sep|] + s[i + |sep|..];
      Some((s[..i], s[i + |sep|..]))
  }

  /** Cutting `a + sep + b` once gives `a` and `b` when `a` does not hold the separator's first character. */
  lemma SplitOnceAt(a: string, sep: string, b: string)
    requires |sep| > 0 && sep[0] !in a
    ensures SplitOnce(a + sep + b, sep) == Some((a, b))
  {
    FirstSeparatorAfter(a, sep, b);
    var s := a + sep + b;
    assert s[..|a|] == a && s[|a| + |sep|..] == b;
  }

  /** Gluing what `Explode` cut gives back the original string. */
  lemma {:induction false} JoinExplode(s: string, sep: string)
    requires |sep| > 0
    ensures Join(Explode(s, sep), sep) == s
    decreases |s|
  {
    var k := IndexOf(s, sep);
    if k.Some? {
      var i := k.value;
      var rest := s[i + |sep|..];
      var tail := Explode(rest, sep);
      JoinExplode(rest, sep);
      assert Explode(s, sep) == [s[..i]] + tail;
      assert Join([s[..i]] + tail, sep) == s[..i] + sep + Join(tail, sep);
      assert s == s[..i] + s[i..i + |sep|] + rest;
    }
  }

  /** The first occurrence is where the occurrence is, when none precedes it. */
  lemma IndexOfAt(s: string, t: string, k: nat)
    requires k <= |s| && IsPrefix(t, s[k..])
    requires forall j :: 0 <= j < k ==> !IsPrefix(t, s[j..])
    ensures IndexOf(s, t) == Some(k)
  {
    var r := IndexOf(s, t);
    if r.Some? {
      var v := r.value;
      assert s[v..][..|t|] == s[v..v + |t|];
      assert IsPrefix(t, s[v..]);
    }
  }

  /** A string without any occurrence of `sep` is one piece. */
  lemma ExplodeNoSeparator(s: string, sep: string)
    requires |sep| > 0 && !Contains(s, sep)
    ensures Explode(s, sep) == [s]
  {
  }

  /** A string in which the separator's first character never appears has no occurrence of it. */
  lemma NoFirstCharNoOccurrence(s: string, sep: string)
    requires |sep| > 0 && sep[0] !in s
    ensures !Contains(s, sep)
  {
  }

  lemma FirstSeparatorAfter(a: string, sep: string, b: string)
    requires |sep| > 0 && sep[0] !in a
    ensures IndexOf(a + sep + b, sep) == Some(|a|)
  {
    var s := a + sep + b;
    assert s[|a|..][..|sep|] == sep;
    forall j | 0 <= j < |a| ensures !IsPrefix(sep, s[j..]) {
      assert s[j..][0] == a[j];
    }
    IndexOfAt(s, sep, |a|);
  }

  /** Cutting `a + sep + b` gives `a` first when `a` does not hold the separator's first character. */
  lemma ExplodeStep(a: string, sep: string, b: string)
    requires |sep| > 0 && sep[0] !in a
    ensures Explode(a + sep + b, sep) == [a] + Explode(b, sep)
  {
    var s := a + sep + b;
    FirstSeparatorAfter(a, sep, b);
    assert s[..|a|] == a;
    assert s[|a| + |sep|..] == b;
  }

  /** Cutting a joined list gives the list back when no item holds the separator's first character. */
  lemma {:induction false} ExplodeJoin(items: seq<string>, sep: string)
    requires |sep| > 0 && |items| > 0
    requires forall i :: 0 <= i < |items| ==> sep[0] !in items[i]
    ensures Explode(Join(items, sep), sep) == items
    decreases |items|
  {
    if |items| == 1 {
      NoFirstCharNoOccurrence(items[0], sep);
      ExplodeNoSeparator(items[0], sep);
    } else {
      var x := items[0];
      var rest := Join(items[1..], sep);
      ExplodeJoin(items[1..], sep);
      assert Join(items, sep) == x + sep + rest;
      ExplodeStep(x, sep, rest);
      assert items == [x] + items[1..];
    }
  }

  /** `a + sep + b` cuts into exactly `[a, b]` when neither side holds the separator's first character. */
  lemma ExplodeTwo(a: string, sep: string, b: string)
    requires |sep| > 0
    requires sep[0] !in a && sep[0] !in b
    ensures Explode(a + sep + b, sep) == [a, b]
  {
    assert Join([a, b], sep) == a + sep + b;
    ExplodeJoin([a, b], sep);
  }

  lemma ExplodeThree(a: string, sep: string, b: string, c: string)
    requires |sep| > 0
    requires sep[0] !in a && sep[0] !in b && sep[0] !in c
    ensures Explode(a + sep + b + sep + c, sep) == [a, b, c]
  {
    assert [a, b, c][1..] == [b, c];
    assert Join([b, c], sep) == b + sep + c;
    assert Join([a, b, c], sep) == a + sep + (b + sep + c);
    assert a + sep + (b + sep + c) == a + sep + b + sep + c;
    ExplodeJoin([a, b, c], sep);
  }

  /** Number of times `c` occurs in `s`. */
  function Occurrences(s: string, c: char): (n: nat)
    ensures n <= |s|
    ensures n == 0 <==> c !in s
  {
    if |s| == 0 then 0 else (if s[0] == c then 1 else 0) + Occurrences(s[1..], c)
  }

  lemma {:induction false} OccurrencesAppend(a: string, b: string, c: char)
    ensures Occurrences(a + b, c) == Occurrences(a, c) + Occurrences(b, c)
    decreases |a|
  {
    if |a| > 0 {
      assert (a + b)[1..] == a[1..] + b;
      OccurrencesAppend(a[1..], b, c);
    } else {
      assert a + b == b;
    }
  }
  /** Text around `mid` that does not hold `c` adds no `c`. */
  lemma OccurrencesInside(pre: string, mid: string, post: string, c: char)
    requires c !in pre && c !in post
    ensures Occurrences(pre + mid + post, c) == Occurrences(mid, c)
  {
    OccurrencesAppend(pre, mid, c);
    OccurrencesAppend(pre + mid, post, c);
  }


  // ---------------------------------------------------------------- trimming

  function TrimLeft(s: string, strip: char -> bool): (r: string)
    ensures |r| <= |s| && r == s[|s| - |r|..]
    ensures r == [] || !strip(r[0])
    ensures forall i :: 0 <= i < |s| - |r| ==> strip(s[i])
    decreases |s|
  {
    if |s| > 0 && strip(s[0]) then TrimLeft(s[1..], strip) else s
  }

  function TrimRight(s: string, strip: char -> bool): (r: string)
    ensures |r| <= |s| && r == s[..|r|]
    ensures r == [] || !strip(r[|r| - 1])
    ensures forall i :: |r| <= i < |s| ==> strip(s[i])
    decreases |s|
  {
    if |s| > 0 && strip(s[|s| - 1]) then TrimRight(s[..|s| - 1], strip) else s
  }

  function Trim(s: string, strip: char -> bool): string {
    TrimRight(TrimLeft(s, strip), strip)
  }

  /** Characters PHP `trim` removes. */
  predicate PhpSpace(c: char) {
    c == ' ' || c == '\t' || c == '\n' || c == '\r' || c == '\0' || c == '\U{000B}'
  }

  /** Characters MySQL `TRIM` removes: spaces only. */
  predicate SqlSpace(c: char) { c == ' ' }

  /** Characters Python `str.strip()` removes (`str.isspace`). */
  predicate PySpace(c: char) {
    c == ' ' || ('\t' <= c <= '\r') || ('\U{001C}' <= c <= '\U{001F}')
    || c == '\U{0085}' || c == '\U{00A0}' || c == '\U{1680}'
    || ('\U{2000}' <= c <= '\U{200A}') || c == '\U{2028}' || c == '\U{2029}'
    || c == '\U{202F}' || c == '\U{205F}' || c == '\U{3000}'
  }

  function PhpTrim(s: string): string { Trim(s, PhpSpace) }
  function SqlTrim(s: string): string { Trim(s, SqlSpace) }
  function PyStrip(s: string): string { Trim(s, PySpace) }

  /** Trimming removes stripped characters at both ends and nothing else. */
  /** `s[a..b]` is what is left after stripping characters off both ends of `s`. */
  predicate StrippedFrom(s: string, strip: char -> bool, a: int, b: int) {
    0 <= a <= b <= |s|
    && (forall i :: 0 <= i < a ==> strip(s[i]))
    && (forall i :: b <= i < |s| ==> strip(s[i]))
  }

  /** Trimming keeps a slice of the text and removes only stripped characters around it. */
  lemma TrimShape(s: string, strip: char -> bool)
    ensures exists a, b :: StrippedFrom(s, strip, a, b) && Trim(s, strip) == s[a..b]
  {
    var l := TrimLeft(s, strip);
    var a := |s| - |l|;
    var r := TrimRight(l, strip);
    var b := a + |r|;
    assert r == s[a..b] by {
      assert l == s[a..];
      assert r == l[..|r|];
    }
    assert forall i :: b <= i < |s| ==> strip(s[i]) by {
      forall i | b <= i < |s| ensures strip(s[i]) {
        assert s[i] == l[i - a];
      }
    }
    assert StrippedFrom(s, strip, a, b);
  }

  /** Neither end of a trimmed text is a stripped character. */
  lemma TrimEnds(s: string, strip: char -> bool)
    ensures var r := Trim(s, strip); r == [] || (!strip(r[0]) && !strip(r[|r| - 1]))
  {
    var l := TrimLeft(s, strip);
    var r := TrimRight(l, strip);
    if r != [] {
      assert r[0] == l[0];
    }
  }

  /** Trimming twice is trimming once. */
  lemma TrimIdempotent(s: string, strip: char -> bool)
    ensures Trim(Trim(s, strip), strip) == Trim(s, strip)
  {
    var r := Trim(s, strip);
    TrimEnds(s, strip);
    if r != [] {
      assert TrimLeft(r, strip) == r;
      assert TrimRight(r, strip) == r;
    }
  }

  // ------------------------------------------------------------------ numbers

  function DigitChar(d: nat): char
    requires d < 10
  {
    ('0' as int + d) as char
  }

  /** Decimal rendering, as PHP string interpolation and Python `str` print integers. */
  function NatToString(n: nat): (r: string)
    ensures |r| >= 1 && (forall i :: 0 <= i < |r| ==> IsDigit(r[i]))
    ensures n >= 10 <==> |r| >= 2
    decreases n
  {
    if n < 10 then [DigitChar(n)] else NatToString(n / 10) + [DigitChar(n % 10)]
  }

  function IntToString(n: int): string {
    if n < 0 then "-" + NatToString(-n) else NatToString(n)
  }

  /** Different numbers print differently. */
  lemma {:induction false} NatToStringInjective(a: nat, b: nat)
    requires NatToString(a) == NatToString(b)
    ensures a == b
    decreases a
  {
    var sa, sb := NatToString(a), NatToString(b);
    if a >= 10 && b >= 10 {
      assert sa[|sa| - 1] == sb[|sb| - 1];
      assert a % 10 == b % 10;
      assert sa[..|sa| - 1] == NatToString(a / 10);
      assert sb[..|sb| - 1] == NatToString(b / 10);
      NatToStringInjective(a / 10, b / 10);
    } else if a < 10 && b < 10 {
      assert sa[0] == sb[0];
    }
  }

  // --------------------------------------------------------------- replacing

  /** PHP `str_replace`, Python `str.replace`, SQL `REPLACE`: leftmost, non-overlapping. */
  function ReplaceAll(s: string, pat: string, rep: string): string
    requires |pat| > 0
    decreases |s|
  {
    if |s| == 0 then []
    else if IsPrefix(pat, s) then rep + ReplaceAll(s[|pat|..], pat, rep)
    else [s[0]] + ReplaceAll(s[1..], pat, rep)
  }

  /** Keeps the characters satisfying `keep`, in order. */
  function FilterChars(s: string, keep: char -> bool): (r: string)
    ensures forall i :: 0 <= i < |r| ==> keep(r[i])
    ensures |r| <= |s|
    decreases |s|
  {
    if |s| == 0 then []
    else if keep(s[0]) then [s[0]] + FilterChars(s[1..], keep)
    else FilterChars(s[1..], keep)
  }

  /** A string all of whose characters are kept is unchanged. */
  lemma {:induction false} FilterCharsAllKept(s: string, keep: char -> bool)
    requires forall i :: 0 <= i < |s| ==> keep(s[i])
    ensures FilterChars(s, keep) == s
    decreases |s|
  {
    if |s| > 0 {
      assert forall i :: 0 <= i < |s| - 1 ==> s[1..][i] == s[i + 1];
      FilterCharsAllKept(s[1..], keep);
      assert s == [s[0]] + s[1..];
    }
  }

  lemma {:induction false} FilterCharsIdempotent(s: string, keep: char -> bool)
    ensures FilterChars(FilterChars(s, keep), keep) == FilterChars(s, keep)
    decreases |s|
  {
    if |s| > 0 {
      FilterCharsIdempotent(s[1..], keep);
      if keep(s[0]) {
        assert ([s[0]] + FilterChars(s[1..], keep))[1..] == FilterChars(s[1..], keep);
      }
    }
  }

  // ------------------------------------------------------ lexicographic order

  /** Strict lexicographic order on code points (`ORDER BY` on a binary collation). */
  predicate StrLt(a: string, b: string)
    decreases |a|
  {
    if |a| == 0 then |b| > 0
    else if |b| == 0 then false
    else if a[0] < b[0] then true
    else if a[0] == b[0] then StrLt(a[1..], b[1..])
    else false
  }

  lemma {:induction false} StrLtIrreflexive(a: string)
    ensures !StrLt(a, a)
    decreases |a|
  {
    if |a| > 0 { StrLtIrreflexive(a[1..]); }
  }

  lemma {:induction false} StrLtTransitive(a: string, b: string, c: string)
    requires StrLt(a, b) && StrLt(b, c)
    ensures StrLt(a, c)
    decreases |a|
  {
    if |a| > 0 && |b| > 0 && |c| > 0 && a[0] == b[0] && b[0] == c[0] {
      StrLtTransitive(a[1..], b[1..], c[1..]);
    }
  }

  lemma {:induction false} StrLtTotal(a: string, b: string)
    requires a != b
    ensures StrLt(a, b) || StrLt(b, a)
    decreases |a|
  {
    if |a| > 0 && |b| > 0 && a[0] == b[0] {
      assert a == [a[0]] + a[1..] && b == [b[0]] + b[1..];
      StrLtTotal(a[1..], b[1..]);
    }
  }

  // ------------------------------------------------------------ byte length

  /** The number of bytes UTF-8 spends on one code point. */
  function Utf8Width(c: char): nat {
    if c as int < 0x80 then 1
    else if c as int < 0x800 then 2
    else if c as int < 0x10000 then 3
    else 4
  }

  /** `LENGTH` of a text stored as UTF-8: its size in bytes, between one and four per character. */
  function Utf8Length(s: string): (n: nat)
    ensures |s| <= n <= 4 * |s|
    decreases |s|
  {
    if |s| == 0 then 0 else Utf8Length(s[..|s| - 1]) + Utf8Width(s[|s| - 1])
  }

  /** A text of ASCII characters has as many bytes as characters. */
  lemma {:induction false} AsciiUtf8Length(s: string)
    requires forall i :: 0 <= i < |s| ==> s[i] as int < 0x80
    ensures Utf8Length(s) == |s|
    decreases |s|
  {
    if |s| > 0 {
      AsciiUtf8Length(s[..|s| - 1]);
    }
  }
}

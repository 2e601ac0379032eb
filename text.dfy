/**
 * String operations that the browser client (JavaScript) and the server
 * (Python) both rely on: trimming, ASCII lower-casing, prefix and suffix
 * tests, the last index of a character, joining, decimal rendering and
 * Python's `os.path.splitext`.  Strings are sequences of Unicode scalar values.
 */
module Text {
  import opened Wrappers

  /** Characters removed by JavaScript's `String.prototype.trim`. */
  predicate IsJsSpace(c: char) {
    c == ' ' || c == '\t' || c == '\n' || c == '\r' || c == '\U{0B}' || c == '\U{0C}'
    || c == '\U{A0}' || c == '\U{1680}' || ('\U{2000}' <= c <= '\U{200A}')
    || c == '\U{2028}' || c == '\U{2029}' || c == '\U{202F}' || c == '\U{205F}'
    || c == '\U{3000}' || c == '\U{FEFF}'
  }

  /** Characters removed by Python's `str.strip()` (those for which `str.isspace` holds). */
  predicate IsPySpace(c: char) {
    c == ' ' || c == '\t' || c == '\n' || c == '\r' || c == '\U{0B}' || c == '\U{0C}'
    || ('\U{1C}' <= c <= '\U{1F}') || c == '\U{85}'
    || c == '\U{A0}' || c == '\U{1680}' || ('\U{2000}' <= c <= '\U{200A}')
    || c == '\U{2028}' || c == '\U{2029}' || c == '\U{202F}' || c == '\U{205F}'
    || c == '\U{3000}'
  }

  /** `s` without its leading characters that satisfy `ws`. */
  function TrimStart(s: string, ws: char -> bool): (r: string)
    ensures |r| <= |s| && r == s[|s| - |r|..]
    ensures r == [] || !ws(r[0])
    ensures forall k :: 0 <= k < |s| - |r| ==> ws(s[k])
  {
    if s == [] || !ws(s[0]) then s else TrimStart(s[1..], ws)
  }

  /** `s` without its trailing characters that satisfy `ws`. */
  function TrimEnd(s: string, ws: char -> bool): (r: string)
    ensures |r| <= |s| && r == s[..|r|]
    ensures r == [] || !ws(r[|r| - 1])
    ensures forall k :: |r| <= k < |s| ==> ws(s[k])
  {
    if s == [] || !ws(s[|s| - 1]) then s else TrimEnd(s[..|s| - 1], ws)
  }

  /** `s` without leading and trailing characters that satisfy `ws`. */
  function Trim(s: string, ws: char -> bool): string {
    TrimEnd(TrimStart(s, ws), ws)
  }

  /** Trim yields a slice of its input; everything cut off either end was blank. */
  lemma TrimIsCoreSlice(s: string, ws: char -> bool)
    ensures exists i, j ::
              && 0 <= i <= j <= |s| && Trim(s, ws) == s[i..j]
              && (forall k :: 0 <= k < i ==> ws(s[k]))
              && (forall k :: j <= k < |s| ==> ws(s[k]))
  {
    var a := TrimStart(s, ws);
    var r := TrimEnd(a, ws);
    var i := |s| - |a|;
    var j := i + |r|;
    assert r == s[i..j] by {
      assert a == s[i..] && r == a[..|r|];
    }
    assert forall k :: 0 <= k < i ==> ws(s[k]);
    forall k | j <= k < |s| ensures ws(s[k]) {
      assert s[k] == a[k - i];
    }
    assert Trim(s, ws) == s[i..j];
  }

  /** Neither end of a trimmed string is blank. */
  lemma TrimEndsNotBlank(s: string, ws: char -> bool)
    ensures Trim(s, ws) == [] || (!ws(Trim(s, ws)[0]) && !ws(Trim(s, ws)[|Trim(s, ws)| - 1]))
  {
    var a := TrimStart(s, ws);
    var r := TrimEnd(a, ws);
    assert r != [] ==> r[0] == a[0];
  }

  /** JavaScript `s.trim()`. */
  function JsTrim(s: string): string { Trim(s, IsJsSpace) }

  /** Python `s.strip()`. */
  function PyStrip(s: string): string { Trim(s, IsPySpace) }

  /** Number of UTF-16 code units of `s`: JavaScript's `s.length`. */
  function Utf16Length(s: string): (n: nat)
    ensures |s| <= n <= 2 * |s|
    ensures (forall k :: 0 <= k < |s| ==> s[k] <= '\U{FFFF}') ==> n == |s|
    ensures (forall k :: 0 <= k < |s| ==> s[k] > '\U{FFFF}') ==> n == 2 * |s|
  {
    if s == [] then 0
    else Utf16Length(s[..|s| - 1]) + (if s[|s| - 1] <= '\U{FFFF}' then 1 else 2)
  }

  /** ASCII upper-case letters map to lower case; everything else is unchanged. */
  function LowerChar(c: char): char {
    if 'A' <= c <= 'Z' then (c as int + 32) as char else c
  }

  /** `s.toLowerCase()` / `s.lower()`, restricted to ASCII letters. */
  function ToLower(s: string): (r: string)
    ensures |r| == |s|
    ensures forall k :: 0 <= k < |s| ==> r[k] == LowerChar(s[k])
  {
    seq(|s|, k requires 0 <= k < |s| => LowerChar(s[k]))
  }

  lemma LowerCharIsDot(c: char)
    ensures LowerChar(c) == '.' <==> c == '.'
  {}

  lemma ToLowerIdempotent(s: string)
    ensures ToLower(ToLower(s)) == ToLower(s)
  {}

  predicate StartsWith(s: string, prefix: string) {
    |prefix| <= |s| && s[..|prefix|] == prefix
  }

  predicate EndsWith(s: string, suffix: string) {
    |suffix| <= |s| && s[|s| - |suffix|..] == suffix
  }

  /** JavaScript `s.includes(t)`. */
  predicate Contains(s: string, t: string)
    decreases |s|
  {
    StartsWith(s, t) || (s != [] && Contains(s[1..], t))
  }

  /** Python `s.rfind(c)`: the last index of `c` in `s`, or -1 when `c` does not occur. */
  function LastIndex(s: string, c: char): (r: int)
    ensures -1 <= r < |s|
    ensures r >= 0 ==> s[r] == c
    ensures forall k :: r < k < |s| ==> s[k] != c
  {
    if s == [] then -1
    else if s[|s| - 1] == c then |s| - 1
    else LastIndex(s[..|s| - 1], c)
  }

  /** Python `s.find(c)` for a character that occurs: its first index. */
  function FirstIndex(s: string, c: char): (r: nat)
    requires c in s
    ensures r < |s| && s[r] == c
    ensures c !in s[..r]
  {
    if s[0] == c then 0
    else
      assert s == [s[0]] + s[1..];
      1 + FirstIndex(s[1..], c)
  }

  /** Python `s.rsplit('.', 1)[1]`: the text after the last '.', defined when `s` has one. */
  function AfterLastDot(s: string): (r: string)
    requires '.' in s
    ensures |r| < |s| && r == s[|s| - |r|..]
    ensures s[|s| - |r| - 1] == '.' && '.' !in r
  {
    s[LastIndex(s, '.') + 1..]
  }

  /** JavaScript `xs.join(sep)`. */
  function Join(xs: seq<string>, sep: string): string {
    if xs == [] then ""
    else if |xs| == 1 then xs[0]
    else Join(xs[..|xs| - 1], sep) + sep + xs[|xs| - 1]
  }

  /** Joining one more element appends the separator and that element. */
  lemma JoinSnoc(xs: seq<string>, x: string, sep: string)
    requires xs != []
    ensures Join(xs + [x], sep) == Join(xs, sep) + sep + x
  {
    assert (xs + [x])[..|xs|] == xs;
  }

  /** The joined text starts with the first element and ends with the last one. */
  lemma {:induction false} JoinEnds(xs: seq<string>, sep: string)
    requires xs != []
    ensures StartsWith(Join(xs, sep), xs[0])
    ensures EndsWith(Join(xs, sep), xs[|xs| - 1])
  {
    if |xs| > 1 {
      JoinEnds(xs[..|xs| - 1], sep);
      var j := Join(xs[..|xs| - 1], sep);
      assert Join(xs, sep) == j + sep + xs[|xs| - 1];
      assert (j + sep + xs[|xs| - 1])[..|xs[0]|] == j[..|xs[0]|];
    }
  }

  function DigitChar(d: nat): (c: char)
    requires d < 10
    ensures '0' <= c <= '9'
  {
    ('0' as int + d) as char
  }

  /** Decimal text of `n`, as JavaScript `${n}` or Python `str(n)` renders a non-negative integer. */
  function NatToString(n: nat): (r: string)
    ensures r != [] && IsDigits(r)
  {
    if n < 10 then [DigitChar(n)] else NatToString(n / 10) + [DigitChar(n % 10)]
  }

  predicate IsDigits(s: string) {
    forall k :: 0 <= k < |s| ==> '0' <= s[k] <= '9'
  }

  /** The value of a string of decimal digits. */
  function DecimalValue(s: string): int
    requires IsDigits(s)
  {
    if s == [] then 0 else DecimalValue(s[..|s| - 1]) * 10 + (s[|s| - 1] as int - '0' as int)
  }

  /** NatToString loses nothing: reading the digits back yields the number. */
  lemma {:induction false} NatToStringRoundTrip(n: nat)
    ensures DecimalValue(NatToString(n)) == n
  {
    if n >= 10 {
      NatToStringRoundTrip(n / 10);
      var s := NatToString(n);
      assert s[..|s| - 1] == NatToString(n / 10);
    }
  }

  /** Python `os.path.splitext(p)` on POSIX: `(root, ext)`; a leading run of dots is not an extension. */
  function SplitExt(p: string): (r: (string, string))
    ensures r.0 + r.1 == p
    ensures r.1 == [] || (r.1[0] == '.' && '.' !in r.1[1..] && '/' !in r.1)
  {
    var sep := LastIndex(p, '/');
    var dot := LastIndex(p, '.');
    if dot > sep && exists k | sep + 1 <= k < dot :: p[k] != '.' then
      assert p == p[..dot] + p[dot..];
      (p[..dot], p[dot..])
    else
      (p, "")
  }

  /** A stem that has a character other than '.' and no '/' gets exactly the extension back. */
  lemma {:induction false} SplitExtOfStemAndExt(stem: string, ext: string)
    requires '/' !in stem && '.' !in ext && '/' !in ext
    requires exists k :: 0 <= k < |stem| && stem[k] != '.'
    ensures SplitExt(stem + "." + ext) == (stem, "." + ext)
  {
    var p := stem + "." + ext;
    var sep := LastIndex(p, '/');
    var dot := LastIndex(p, '.');
    assert p[|stem|] == '.';
    assert forall k :: |stem| < k < |p| ==> p[k] == ext[k - |stem| - 1];
    assert forall k :: 0 <= k < |stem| ==> p[k] == stem[k];
    assert dot == |stem|;
    assert sep == -1;
    var k :| 0 <= k < |stem| && stem[k] != '.';
    assert p[k] == stem[k];
    assert p[..dot] == stem;
    assert p[dot..] == "." + ext;
  }
}

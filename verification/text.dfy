/** The handful of Python string operations the diagram-text format relies
    on: `strip`, `startswith`, `in`, `split` and `join`, stated over
    `seq<char>`. */
module Text {
  import opened Wrappers

  /** Python's `str.isspace` for one character. */
  predicate IsSpace(c: char) {
    || c == ' ' || c == '\t' || c == '\n' || c == '\r' || c == '\U{0B}' || c == '\U{0C}'
    || ('\U{1C}' <= c <= '\U{1F}') || c == '\U{85}' || c == '\U{A0}' || c == '\U{1680}'
    || ('\U{2000}' <= c <= '\U{200A}') || c == '\U{2028}' || c == '\U{2029}'
    || c == '\U{202F}' || c == '\U{205F}' || c == '\U{3000}'
  }

  predicate AllSpace(s: string) {
    forall i :: 0 <= i < |s| ==> IsSpace(s[i])
  }

  /** Neither end of `s` is whitespace: what `strip` leaves behind. */
  predicate Trimmed(s: string) {
    |s| == 0 || (!IsSpace(s[0]) && !IsSpace(s[|s| - 1]))
  }

  function TrimStart(s: string): (r: string)
    ensures |r| <= |s| && r == s[|s| - |r|..]
    ensures AllSpace(s[..|s| - |r|])
    ensures |r| > 0 ==> !IsSpace(r[0])
  {
    if |s| > 0 && IsSpace(s[0]) then TrimStart(s[1..]) else s
  }

  function TrimEnd(s: string): (r: string)
    ensures |r| <= |s| && r == s[..|r|]
    ensures AllSpace(s[|r|..])
    ensures |r| > 0 ==> !IsSpace(r[|r| - 1])
  {
    if |s| > 0 && IsSpace(s[|s| - 1]) then TrimEnd(s[..|s| - 1]) else s
  }

  /** Python's `str.strip()`: the infix left after removing whitespace from
      both ends. */
  function Strip(s: string): (r: string)
    ensures Trimmed(r)
  {
    TrimEnd(TrimStart(s))
  }

  /** What `strip` leaves is an infix with only whitespace around it. */
  lemma StripInfix(s: string)
    ensures exists i :: StrippedAt(s, Strip(s), i)
  {
    StripWitness(s, TrimStart(s), Strip(s));
  }

  /** `r` is the infix of `s` at `i`, with only whitespace around it. */
  predicate StrippedAt(s: string, r: string, i: int) {
    0 <= i <= |s| - |r| && r == s[i..i + |r|] && AllSpace(s[..i]) && AllSpace(s[i + |r|..])
  }

  lemma StripWitness(s: string, a: string, r: string)
    requires |a| <= |s| && a == s[|s| - |a|..] && AllSpace(s[..|s| - |a|])
    requires |a| > 0 ==> !IsSpace(a[0])
    requires |r| <= |a| && r == a[..|r|] && AllSpace(a[|r|..])
    requires |r| > 0 ==> !IsSpace(r[|r| - 1])
    ensures Trimmed(r)
    ensures StrippedAt(s, r, |s| - |a|)
  {
    var i := |s| - |a|;
    assert a == s[i..];
    assert r == a[..|r|];
    assert s[i..i + |r|] == r by {
      assert s[i..i + |r|] == s[i..][..|r|];
    }
    assert s[i + |r|..] == a[|r|..] by {
      assert s[i..][|r|..] == s[i + |r|..];
    }
    assert Trimmed(r) by {
      if |r| > 0 {
        assert r[0] == a[0];
      }
    }
    assert 0 <= i <= |s| - |r| && r == s[i..i + |r|] && AllSpace(s[..i]) && AllSpace(s[i + |r|..]);
  }

  lemma {:induction false} TrimStartPadded(ws: string, core: string)
    requires AllSpace(ws)
    requires |core| > 0 && !IsSpace(core[0])
    ensures TrimStart(ws + core) == core
    decreases |ws|
  {
    if |ws| > 0 {
      assert (ws + core)[1..] == ws[1..] + core;
      TrimStartPadded(ws[1..], core);
    } else {
      assert ws + core == core;
    }
  }

  lemma {:induction false} TrimEndPadded(core: string, ws: string)
    requires AllSpace(ws)
    requires |core| > 0 && !IsSpace(core[|core| - 1])
    ensures TrimEnd(core + ws) == core
    decreases |ws|
  {
    if |ws| > 0 {
      assert (core + ws)[..|core + ws| - 1] == core + ws[..|ws| - 1];
      TrimEndPadded(core, ws[..|ws| - 1]);
    } else {
      assert core + ws == core;
    }
  }

  /** `strip` returns exactly the trimmed text between two runs of
      whitespace, so it is the inverse of padding. */
  lemma StripPadded(ws1: string, core: string, ws2: string)
    requires AllSpace(ws1) && AllSpace(ws2)
    requires |core| > 0 && Trimmed(core)
    ensures Strip(ws1 + core + ws2) == core
  {
    assert ws1 + core + ws2 == ws1 + (core + ws2);
    assert (core + ws2)[0] == core[0];
    TrimStartPadded(ws1, core + ws2);
    TrimEndPadded(core, ws2);
  }

  /** Whitespace strips to nothing. */
  lemma StripBlank(s: string)
    requires AllSpace(s)
    ensures Strip(s) == ""
  {
    TrimStartBlank(s);
  }

  lemma {:induction false} TrimStartBlank(s: string)
    requires AllSpace(s)
    ensures TrimStart(s) == ""
    decreases |s|
  {
    if |s| > 0 {
      assert IsSpace(s[0]);
      assert AllSpace(s[1..]) by {
        forall i | 0 <= i < |s[1..]| ensures IsSpace(s[1..][i]) {
          assert s[1..][i] == s[i + 1];
        }
      }
      TrimStartBlank(s[1..]);
    }
  }

  lemma StripTrimmed(s: string)
    requires Trimmed(s)
    ensures Strip(s) == s
  {
    if |s| > 0 {
      assert [] + s + [] == s;
      StripPadded([], s, []);
    }
  }

  /** Python's `s.startswith(p)`. */
  predicate StartsWith(s: string, p: string) {
    |p| <= |s| && s[..|p|] == p
  }

  /** `sep` occurs in `s` at index `i`. */
  predicate IsAt(s: string, sep: string, i: int) {
    0 <= i && i + |sep| <= |s| && s[i..i + |sep|] == sep
  }

  /** The first index at or after `from` where `sep` occurs, as `str.find`. */
  function FindFrom(s: string, sep: string, from: nat): (r: Option<nat>)
    requires |sep| > 0
    ensures r.Some? ==> from <= r.value && IsAt(s, sep, r.value)
                        && forall k :: from <= k < r.value ==> !IsAt(s, sep, k)
    ensures r.None? ==> forall k :: from <= k ==> !IsAt(s, sep, k)
    decreases |s| - from
  {
    if from + |sep| > |s| then None
    else if s[from..from + |sep|] == sep then Some(from)
    else FindFrom(s, sep, from + 1)
  }

  function Find(s: string, sep: string): (r: Option<nat>)
    requires |sep| > 0
  {
    FindFrom(s, sep, 0)
  }

  /** Python's `sep in s`. */
  predicate Contains(s: string, sep: string)
    requires |sep| > 0
  {
    Find(s, sep).Some?
  }

  lemma ContainsAt(s: string, sep: string, i: int)
    requires |sep| > 0 && IsAt(s, sep, i)
    ensures Contains(s, sep)
  {
  }

  /** Python's `sep.join(parts)`. */
  function Join(parts: seq<string>, sep: string): string {
    if |parts| == 0 then ""
    else if |parts| == 1 then parts[0]
    else parts[0] + sep + Join(parts[1..], sep)
  }

  /** Python's `s.split(sep)`: the pieces between successive leftmost
      occurrences of `sep`. Joining them back with `sep` gives `s`, no
      piece contains `sep`, and there is more than one piece exactly when
      `sep` occurs in `s`. */
  function Split(s: string, sep: string): (r: seq<string>)
    requires |sep| > 0
    ensures |r| >= 1
    ensures Join(r, sep) == s
    ensures forall i :: 0 <= i < |r| ==> !Contains(r[i], sep)
    ensures |r| == 1 <==> !Contains(s, sep)
    decreases |s|
  {
    match Find(s, sep)
    case None => [s]
    case Some(j) =>
      var rest := Split(s[j + |sep|..], sep);
      PrefixBeforeFirst(s, sep, j);
      [s[..j]] + rest
  }

  lemma PrefixBeforeFirst(s: string, sep: string, j: nat)
    requires |sep| > 0 && Find(s, sep) == Some(j)
    ensures !Contains(s[..j], sep)
    ensures s == s[..j] + sep + s[j + |sep|..]
  {
    match Find(s[..j], sep)
    case None =>
    case Some(k) =>
      assert s[..j][k..k + |sep|] == s[k..k + |sep|];
      assert IsAt(s, sep, k);
      assert false;
  }

  /** Splitting at a position known to hold the first occurrence. */
  lemma SplitAtFirst(x: string, sep: string, y: string)
    requires |sep| > 0
    requires forall k :: 0 <= k < |x| ==> !IsAt(x + sep + y, sep, k)
    ensures Split(x + sep + y, sep) == [x] + Split(y, sep)
  {
    var s := x + sep + y;
    assert IsAt(s, sep, |x|);
    assert Find(s, sep) == Some(|x|);
    assert s[..|x|] == x;
    assert s[|x| + |sep|..] == y;
  }

  lemma SplitNone(s: string, sep: string)
    requires |sep| > 0 && forall k :: !IsAt(s, sep, k)
    ensures Split(s, sep) == [s]
  {
  }

  /** A single-character separator splits a joined list back into its
      parts when no part contains that character. */
  lemma {:induction false} SplitJoinChar(parts: seq<string>, c: char)
    requires |parts| > 0
    requires forall i :: 0 <= i < |parts| ==> c !in parts[i]
    ensures Split(Join(parts, [c]), [c]) == parts
    decreases |parts|
  {
    if |parts| == 1 {
      MissingEndChar(parts[0], [c]);
      SplitAbsent(parts[0], [c]);
    } else {
      var rest := Join(parts[1..], [c]);
      forall k | 0 <= k < |parts[0]| ensures !IsAt(parts[0] + [c] + rest, [c], k) {
        assert (parts[0] + [c] + rest)[k] == parts[0][k];
      }
      SplitAtFirst(parts[0], [c], rest);
      SplitJoinChar(parts[1..], c);
      assert [parts[0]] + parts[1..] == parts;
    }
  }

  /** `sep` cannot occur where one of its end characters never does. */
  lemma MissingEndChar(x: string, sep: string)
    requires |sep| > 0 && (sep[0] !in x || sep[|sep| - 1] !in x)
    ensures !Contains(x, sep)
  {
    forall k | 0 <= k && k + |sep| <= |x| ensures !IsAt(x, sep, k) {
      assert x[k..k + |sep|][0] == x[k];
      assert x[k..k + |sep|][|sep| - 1] == x[k + |sep| - 1];
    }
  }

  /** Where `sep` can occur in `x + [c] + y` when `c` is not part of it. */
  lemma NoSepStraddles(x: string, c: char, y: string, sep: string, k: int)
    requires |sep| > 0 && c !in sep && 0 <= k && k + |sep| <= |x| + 1 + |y|
    ensures IsAt(x + [c] + y, sep, k) ==> (k + |sep| <= |x| && IsAt(x, sep, k)) || (k > |x| && IsAt(y, sep, k - |x| - 1))
  {
    var s := x + [c] + y;
    if k + |sep| <= |x| {
      assert s[k..k + |sep|] == x[k..k + |sep|];
    } else if k > |x| {
      assert s[k..k + |sep|] == y[k - |x| - 1..k - |x| - 1 + |sep|];
    } else {
      assert s[k..k + |sep|][|x| - k] == c;
    }
  }

  /** Text without `sep` on either side of a character that is not part of
      `sep` does not contain `sep`. */
  lemma NoSepAround(x: string, c: char, y: string, sep: string)
    requires |sep| > 0 && c !in sep && !Contains(x, sep) && !Contains(y, sep)
    ensures !Contains(x + [c] + y, sep)
  {
    forall k | 0 <= k && k + |sep| <= |x + [c] + y| ensures !IsAt(x + [c] + y, sep, k) {
      NoSepStraddles(x, c, y, sep, k);
    }
  }

  /** Splitting where the first occurrence of `sep` follows a character that
      is not part of it. */
  lemma SplitAfter(x: string, c: char, sep: string, y: string)
    requires |sep| > 0 && c !in sep && !Contains(x, sep)
    ensures Split(x + [c] + sep + y, sep) == [x + [c]] + Split(y, sep)
  {
    var s := x + [c] + sep + y;
    assert s == x + [c] + (sep + y);
    forall k | 0 <= k < |x + [c]| ensures !IsAt(s, sep, k) {
      if k + |sep| <= |s| {
        NoSepStraddles(x, c, sep + y, sep, k);
      }
    }
    SplitAtFirst(x + [c], sep, y);
  }

  lemma SplitAbsent(s: string, sep: string)
    requires |sep| > 0 && !Contains(s, sep)
    ensures Split(s, sep) == [s]
  {
  }

  /** Leading whitespace does not change what `strip` returns. */
  lemma {:induction false} StripLeading(ws: string, s: string)
    requires AllSpace(ws)
    ensures Strip(ws + s) == Strip(s)
    decreases |ws|
  {
    if |ws| > 0 {
      assert (ws + s)[1..] == ws[1..] + s;
      StripLeading(ws[1..], s);
    } else {
      assert ws + s == s;
    }
  }

  lemma AllSpaceJoin(s: string, i: int)
    requires 0 <= i <= |s| && AllSpace(s[..i]) && AllSpace(s[i..])
    ensures AllSpace(s)
  {
    forall j | 0 <= j < |s| ensures IsSpace(s[j]) {
      if j < i {
        assert s[..i][j] == s[j];
      } else {
        assert s[i..][j - i] == s[j];
      }
    }
  }

  /** Text that is not all whitespace keeps something after `strip`. */
  lemma StripNonBlank(s: string)
    requires !AllSpace(s)
    ensures |Strip(s)| > 0
  {
    var r := Strip(s);
    StripInfix(s);
    var i :| StrippedAt(s, r, i);
    if |r| == 0 {
      AllSpaceJoin(s, i);
    }
  }

  /** Splitting where `sep` stands between two spaces and occurs nowhere
      else. */
  lemma SplitSpaced(x: string, sep: string, y: string)
    requires |sep| > 0 && ' ' !in sep && !Contains(x, sep) && !Contains(y, sep)
    ensures Split(x + " " + sep + " " + y, sep) == [x + " ", " " + y]
  {
    assert x + " " + sep + " " + y == x + [' '] + sep + (" " + y);
    SplitAfter(x, ' ', sep, " " + y);
    assert " " + y == [] + [' '] + y;
    NoSepAround([], ' ', y, sep);
    SplitAbsent(" " + y, sep);
  }

  lemma Regroup3(a: string, b: string, c: string)
    ensures a + b + c == a + (b + c)
  {
  }

  /** Two regroupings of a five-piece concatenation. */
  lemma Regroup(a: string, b: string, c: string, d: string, e: string)
    ensures a + b + c + d + e == a + b + (c + d + e)
    ensures a + b + c + d + e == (a + b) + c + (d + e)
  {
  }

  lemma RegroupTail(p: string, b: string, q: string, r: string, u: string, c: string)
    ensures p + (b + q + r + u + c) == (p + b) + q + r + (u + c)
  {
  }

  /** Two spaced occurrences of `sep` split a text into at least three
      pieces. */
  lemma SplitTwice(x: string, sep: string, y: string, z: string)
    requires |sep| > 0 && ' ' !in sep && !Contains(x, sep) && !Contains(y, sep)
    ensures |Split(x + " " + sep + " " + (y + " " + sep + " " + z), sep)| >= 3
  {
    var rest := y + " " + sep + " " + z;
    assert x + " " + sep + " " + rest == x + [' '] + sep + (" " + rest);
    SplitAfter(x, ' ', sep, " " + rest);
    RegroupTail(" ", y, " ", sep, " ", z);
    assert " " + y == [] + [' '] + y;
    NoSepAround([], ' ', y, sep);
    SplitAfter(" " + y, ' ', sep, " " + z);
  }

  /** Splitting on a character that occurs once. */
  lemma SplitOnce(x: string, c: char, y: string)
    requires c !in x && c !in y
    ensures Split(x + [c] + y, [c]) == [x, y]
  {
    assert Join([x, y], [c]) == x + [c] + y;
    SplitJoinChar([x, y], c);
  }

  /** Splitting on a character that does not occur. */
  lemma SplitWithout(x: string, c: char)
    requires c !in x
    ensures Split(x, [c]) == [x]
  {
    MissingEndChar(x, [c]);
    SplitAbsent(x, [c]);
  }

  lemma ContainsMiddle(x: string, sep: string, y: string)
    requires |sep| > 0
    ensures Contains(x + sep + y, sep)
  {
    assert (x + sep + y)[|x|..|x| + |sep|] == sep;
    ContainsAt(x + sep + y, sep, |x|);
  }

  /** A trimmed text behind a prefix that starts with no space. */
  lemma TrimmedAfter(p: string, n: string)
    requires |p| > 0 && !IsSpace(p[0]) && |n| > 0 && Trimmed(n)
    ensures Trimmed(p + n)
  {
    assert (p + n)[0] == p[0] && (p + n)[|p + n| - 1] == n[|n| - 1];
  }

  lemma StartsWithPrefix(p: string, y: string)
    ensures StartsWith(p + y, p)
  {
    assert (p + y)[..|p|] == p;
  }

  lemma StartsWithAppend(p: string, y: string, q: string)
    requires StartsWith(p, q)
    ensures StartsWith(p + y, q)
  {
    assert (p + y)[..|q|] == p[..|q|];
  }

  /** A text that differs from `q` at some index does not start with `q`. */
  lemma NotStartsWithAt(s: string, q: string, i: int)
    requires 0 <= i < |s| && i < |q| && s[i] != q[i]
    ensures !StartsWith(s, q)
  {
    if |q| <= |s| {
      assert s[..|q|][i] == s[i];
    }
  }

  /** A word followed by a space starts with a space-free prefix only if
      the word does. */
  lemma NotStartsWithSpaced(x: string, y: string, p: string)
    requires ' ' !in p && !StartsWith(x, p)
    ensures !StartsWith(x + " " + y, p)
  {
    var s := x + " " + y;
    if |x| >= |p| {
      assert s[..|p|] == x[..|p|];
    } else if |p| <= |s| {
      assert s[..|p|][|x|] == ' ';
    }
  }

  function DigitChar(d: nat): char
    requires d < 10
  {
    "0123456789"[d]
  }

  function NatToString(n: nat): (r: string)
    ensures |r| > 0
  {
    if n < 10 then [DigitChar(n)] else NatToString(n / 10) + [DigitChar(n % 10)]
  }

  /** Python's `str(n)` for an integer. */
  function IntToString(n: int): string {
    if n < 0 then "-" + NatToString(-n) else NatToString(n)
  }

  /** A character Python's `repr` writes as it is: among the first 256
      code points, everything but the controls, the no-break space and
      the soft hyphen. Code points above U+00FF count as printable here. */
  predicate Printable(c: char) {
    var n := c as int;
    !(n < 0x20 || 0x7F <= n <= 0xA0 || n == 0xAD)
  }

  function HexDigit(n: nat): char
    requires n < 16
  {
    "0123456789abcdef"[n]
  }

  function HexValue(c: char): nat {
    if '0' <= c <= '9' then c as int - '0' as int
    else if 'a' <= c <= 'f' then c as int - 'a' as int + 10
    else 16
  }

  /** The quote `repr` puts around `s`: double quotes when `s` holds a
      single quote and no double quote, single quotes otherwise. */
  function Quote(s: string): char {
    if '\'' in s && '"' !in s then '"' else '\''
  }

  /** How `repr` writes one character inside quotes `q`. */
  function EscapeChar(c: char, q: char): string {
    if c == '\\' then "\\\\"
    else if c == q then ['\\', q]
    else if c == '\n' then "\\n"
    else if c == '\r' then "\\r"
    else if c == '\t' then "\\t"
    else if !Printable(c) then ['\\', 'x', HexDigit(c as int / 16), HexDigit(c as int % 16)]
    else [c]
  }

  function EscapeAll(s: string, q: char): string {
    if |s| == 0 then "" else EscapeChar(s[0], q) + EscapeAll(s[1..], q)
  }

  /** Reads the inside of a Python string literal closed by `q`: a bare
      backslash, closing quote or line break is malformed; `\\`, `\'`,
      `\"`, `\n`, `\r`, `\t` and `\xhh` are escapes. */
  function Unescape(t: string, q: char): Option<string>
    decreases |t|
  {
    if |t| == 0 then Some("")
    else if t[0] == q || t[0] == '\n' then None
    else if t[0] != '\\' then
      match Unescape(t[1..], q)
      case Some(rest) => Some([t[0]] + rest)
      case None => None
    else if |t| >= 2 && t[1] in "\\'\"nrt" then
      var c := match t[1] case 'n' => '\n' case 'r' => '\r' case 't' => '\t' case _ => t[1];
      match Unescape(t[2..], q)
      case Some(rest) => Some([c] + rest)
      case None => None
    else if |t| >= 4 && t[1] == 'x' && HexValue(t[2]) < 16 && HexValue(t[3]) < 16 then
      match Unescape(t[4..], q)
      case Some(rest) => Some([(HexValue(t[2]) * 16 + HexValue(t[3])) as char] + rest)
      case None => None
    else None
  }

  /** Reads a quoted Python string literal. */
  function Unrepr(t: string): Option<string> {
    if |t| >= 2 && (t[0] == '\'' || t[0] == '"') && t[|t| - 1] == t[0] then Unescape(t[1..|t| - 1], t[0])
    else None
  }

  lemma HexRoundTrip(n: nat)
    requires n < 16
    ensures HexValue(HexDigit(n)) == n
  {
  }

  /** A character written as a hexadecimal escape reads back as itself. */
  lemma HexEscapeReadsBack(c: char, q: char, rest: string, x: string)
    requires q == '\'' || q == '"'
    requires c != '\\' && c != q && !Printable(c)
    requires Unescape(rest, q) == Some(x)
    ensures Unescape(['\\', 'x', HexDigit(c as int / 16), HexDigit(c as int % 16)] + rest, q) == Some([c] + x)
  {
    var t := ['\\', 'x', HexDigit(c as int / 16), HexDigit(c as int % 16)] + rest;
    HexRoundTrip(c as int / 16);
    HexRoundTrip(c as int % 16);
    assert t[4..] == rest;
    assert (HexValue(t[2]) * 16 + HexValue(t[3])) as char == c;
  }

  /** One written character reads back as itself. */
  lemma EscapeCharReadsBack(c: char, q: char, rest: string, x: string)
    requires q == '\'' || q == '"'
    requires Unescape(rest, q) == Some(x)
    ensures Unescape(EscapeChar(c, q) + rest, q) == Some([c] + x)
  {
    var t := EscapeChar(c, q) + rest;
    if c == '\\' || c == q || c == '\n' || c == '\r' || c == '\t' {
      assert t[2..] == rest;
    } else if !Printable(c) {
      HexEscapeReadsBack(c, q, rest, x);
    } else {
      assert t[1..] == rest;
    }
  }

  /** The escaped text reads back as the text. */
  lemma {:induction false} EscapeAllReadsBack(s: string, q: char)
    requires q == '\'' || q == '"'
    ensures Unescape(EscapeAll(s, q), q) == Some(s)
    decreases |s|
  {
    if |s| > 0 {
      EscapeAllReadsBack(s[1..], q);
      EscapeCharReadsBack(s[0], q, EscapeAll(s[1..], q), s[1..]);
      assert [s[0]] + s[1..] == s;
    }
  }

  /** Python's `repr` of a string, as a `KeyError` prints its key: the
      text between the quotes `Quote(s)`, escaped; read back as a Python
      literal it gives `s` again. */
  function Repr(s: string): (r: string)
    ensures |r| >= 2 && r[0] == Quote(s) && r[|r| - 1] == Quote(s)
    ensures Unrepr(r) == Some(s)
  {
    var q := Quote(s);
    var r := [q] + EscapeAll(s, q) + [q];
    EscapeAllReadsBack(s, q);
    assert r[1..|r| - 1] == EscapeAll(s, q);
    r
  }

  /** Printable text without a backslash or a single quote is written
      between single quotes unchanged. */
  lemma ReprPlain(s: string)
    requires forall i :: 0 <= i < |s| ==> Printable(s[i]) && s[i] != '\\' && s[i] != '\''
    ensures Repr(s) == "'" + s + "'"
  {
    assert Quote(s) == '\'';
    EscapeAllBare(s, '\'');
  }

  /** Printable text without a backslash or the quote is written bare. */
  lemma {:induction false} EscapeAllBare(s: string, q: char)
    requires forall i :: 0 <= i < |s| ==> Printable(s[i]) && s[i] != '\\' && s[i] != q
    ensures EscapeAll(s, q) == s
    decreases |s|
  {
    if |s| > 0 {
      assert s[0] != '\n' && s[0] != '\r' && s[0] != '\t';
      EscapeAllBare(s[1..], q);
      assert [s[0]] + s[1..] == s;
    }
  }

  /** A single quote with no double quote switches to double quotes and
      is written bare. */
  lemma ReprApostrophe()
    ensures Repr("it's") == "\"it's\""
  {
    var s := "it's";
    assert s[2] == '\'';
    assert Quote(s) == '"';
    EscapeAllBare(s, '"');
  }
}

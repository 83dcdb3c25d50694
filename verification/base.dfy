/**
 * Shared vocabulary: an Option type and the handful of PHP string built-ins
 * the plugin leans on (truthiness of strings, trim, explode, ltrim, ucfirst,
 * substr). Strings are sequences of characters; a character stands for one
 * byte of the PHP string.
 */
module Base {

  datatype Option<+T> = None | Some(value: T) {
    function GetOr(default: T): T {
      match this
      case Some(v) => v
      case None => default
    }
  }

  /** PHP's `empty()` on a string: true for "" and for "0". */
  predicate PhpEmpty(s: string) {
    s == "" || s == "0"
  }

  predicate StartsWith(s: string, prefix: string) {
    |prefix| <= |s| && s[..|prefix|] == prefix
  }

  predicate EndsWith(s: string, suffix: string) {
    |suffix| <= |s| && s[|s| - |suffix|..] == suffix
  }

  function Repeat(c: char, n: nat): (r: string)
    ensures |r| == n
    ensures forall i :: 0 <= i < n ==> r[i] == c
  {
    seq(n, _ => c)
  }

  // ---------------------------------------------------------------------------
  // trim()
  // ---------------------------------------------------------------------------

  /** The characters PHP's `trim()` strips by default: space, tab, LF, CR, NUL, VT. */
  predicate IsTrimChar(c: char) {
    c == ' ' || c == '\t' || c == '\n' || c == '\r' || c == '\0' || c == '\U{0B}'
  }

  function TrimLeft(s: string): (r: string)
    ensures |r| <= |s| && r == s[|s| - |r|..]
    ensures forall i :: 0 <= i < |s| - |r| ==> IsTrimChar(s[i])
    ensures |r| > 0 ==> !IsTrimChar(r[0])
  {
    if |s| > 0 && IsTrimChar(s[0]) then TrimLeft(s[1..]) else s
  }

  function TrimRight(s: string): (r: string)
    ensures |r| <= |s| && r == s[..|r|]
    ensures forall i :: |r| <= i < |s| ==> IsTrimChar(s[i])
    ensures |r| > 0 ==> !IsTrimChar(r[|r| - 1])
  {
    if |s| > 0 && IsTrimChar(s[|s| - 1]) then TrimRight(s[..|s| - 1]) else s
  }

  /** PHP `trim($s)`: the longest infix that neither starts nor ends with a trim character. */
  function Trim(s: string): (r: string)
    ensures |r| <= |s|
    ensures |r| > 0 ==> !IsTrimChar(r[0]) && !IsTrimChar(r[|r| - 1])
  {
    TrimRight(TrimLeft(s))
  }

  predicate AllTrimChars(s: string) {
    forall i :: 0 <= i < |s| ==> IsTrimChar(s[i])
  }

  lemma {:induction false} TrimLeftPadded(pad: string, s: string)
    requires AllTrimChars(pad)
    requires |s| == 0 || !IsTrimChar(s[0])
    ensures TrimLeft(pad + s) == s
    decreases |pad|
  {
    if |pad| == 0 {
      assert pad + s == s;
    } else {
      assert (pad + s)[1..] == pad[1..] + s;
      TrimLeftPadded(pad[1..], s);
    }
  }

  lemma {:induction false} TrimRightPadded(s: string, pad: string)
    requires AllTrimChars(pad)
    requires |s| == 0 || !IsTrimChar(s[|s| - 1])
    ensures TrimRight(s + pad) == s
    decreases |pad|
  {
    if |pad| == 0 {
      assert s + pad == s;
    } else {
      var shorter := pad[..|pad| - 1];
      assert (s + pad)[..|s + pad| - 1] == s + shorter;
      TrimRightPadded(s, shorter);
    }
  }

  /** Surrounding a trimmed string with whitespace and trimming gives it back. */
  lemma TrimRemovesPadding(left: string, s: string, right: string)
    requires AllTrimChars(left) && AllTrimChars(right)
    requires |s| > 0 ==> !IsTrimChar(s[0]) && !IsTrimChar(s[|s| - 1])
    ensures Trim(left + s + right) == s
  {
    assert left + s + right == left + (s + right);
    if |s| > 0 {
      assert (s + right)[0] == s[0];
    } else if |right| > 0 {
      assert s + right == right;
      assert TrimLeft(right) == [] by {
        TrimLeftPadded(right, []);
        assert right + [] == right;
      }
    }
    if |s| > 0 || |right| == 0 {
      TrimLeftPadded(left, s + right);
      TrimRightPadded(s, right);
    } else {
      TrimLeftPadded(left + right, []);
      assert left + right + [] == left + (s + right);
    }
  }

  lemma TrimIdempotent(s: string)
    ensures Trim(Trim(s)) == Trim(s)
  {
    var t := Trim(s);
    TrimRemovesPadding([], t, []);
    assert [] + t + [] == t;
  }

  // ---------------------------------------------------------------------------
  // explode() / implode()
  // ---------------------------------------------------------------------------

  /** PHP `explode($sep, $s)` for a one-character separator: never empty, pieces free of `sep`. */
  function Explode(s: string, sep: char): (parts: seq<string>)
    ensures |parts| >= 1
    ensures forall k :: 0 <= k < |parts| ==> sep !in parts[k]
    decreases |s|
  {
    if |s| == 0 then [""]
    else
      var rest := Explode(s[1..], sep);
      if s[0] == sep then [""] + rest
      else [[s[0]] + rest[0]] + rest[1..]
  }

  /** PHP `implode($sep, $parts)`. */
  function Join(parts: seq<string>, sep: char): string
    requires |parts| >= 1
    decreases |parts|
  {
    if |parts| == 1 then parts[0] else parts[0] + [sep] + Join(parts[1..], sep)
  }

  predicate NoneContains(parts: seq<string>, sep: char) {
    forall k :: 0 <= k < |parts| ==> sep !in parts[k]
  }

  /** Joining the pieces of an explode gives back the original string. */
  lemma {:induction false} JoinExplode(s: string, sep: char)
    ensures Join(Explode(s, sep), sep) == s
    decreases |s|
  {
    if |s| > 0 {
      var rest := Explode(s[1..], sep);
      JoinExplode(s[1..], sep);
      if s[0] == sep {
        assert Explode(s, sep)[1..] == rest;
      } else {
        var parts := Explode(s, sep);
        assert parts[1..] == rest[1..];
        if |rest| == 1 {
          assert Join(parts, sep) == [s[0]] + rest[0];
        } else {
          assert Join(rest, sep) == rest[0] + [sep] + Join(rest[1..], sep);
          assert Join(parts, sep) == [s[0]] + rest[0] + [sep] + Join(rest[1..], sep);
        }
        assert [s[0]] + s[1..] == s;
      }
    }
  }

  lemma {:induction false} ExplodeNoSep(s: string, sep: char)
    requires sep !in s
    ensures Explode(s, sep) == [s]
    decreases |s|
  {
    if |s| > 0 {
      ExplodeNoSep(s[1..], sep);
      assert [s[0]] + s[1..] == s;
    }
  }

  lemma {:induction false} ExplodePrefix(a: string, rest: string, sep: char)
    requires sep !in a
    ensures Explode(a + [sep] + rest, sep) == [a] + Explode(rest, sep)
    decreases |a|
  {
    if |a| == 0 {
      assert a + [sep] + rest == [sep] + rest;
      assert ([sep] + rest)[1..] == rest;
    } else {
      var w := a + [sep] + rest;
      assert w[0] == a[0];
      assert w[1..] == a[1..] + [sep] + rest;
      ExplodePrefix(a[1..], rest, sep);
      assert [a[0]] + a[1..] == a;
    }
  }

  /** Exploding a join of separator-free pieces gives back the pieces. */
  lemma {:induction false} ExplodeJoin(parts: seq<string>, sep: char)
    requires |parts| >= 1 && NoneContains(parts, sep)
    ensures Explode(Join(parts, sep), sep) == parts
    decreases |parts|
  {
    if |parts| == 1 {
      ExplodeNoSep(parts[0], sep);
    } else {
      ExplodeJoin(parts[1..], sep);
      ExplodePrefix(parts[0], Join(parts[1..], sep), sep);
      assert [parts[0]] + parts[1..] == parts;
    }
  }

  // ---------------------------------------------------------------------------
  // ltrim($s, $c), ucfirst(), substr($s, 0, $n)
  // ---------------------------------------------------------------------------

  /** PHP `ltrim($s, $c)` for one character: drops every leading `c`. */
  function LTrimChar(s: string, c: char): (r: string)
    ensures |r| <= |s| && r == s[|s| - |r|..]
    ensures forall i :: 0 <= i < |s| - |r| ==> s[i] == c
    ensures |r| > 0 ==> r[0] != c
  {
    if |s| > 0 && s[0] == c then LTrimChar(s[1..], c) else s
  }

  lemma {:induction false} LTrimCharPadded(c: char, n: nat, s: string)
    requires |s| == 0 || s[0] != c
    ensures LTrimChar(Repeat(c, n) + s, c) == s
    decreases n
  {
    if n > 0 {
      assert (Repeat(c, n) + s)[1..] == Repeat(c, n - 1) + s;
      LTrimCharPadded(c, n - 1, s);
    } else {
      assert Repeat(c, 0) + s == s;
    }
  }

  predicate IsAsciiLower(c: char) {
    'a' <= c <= 'z'
  }

  /** PHP `ucfirst()`: upper-cases an ASCII lower-case first letter, leaves the rest alone. */
  function UcFirst(s: string): (r: string)
    ensures |r| == |s|
    ensures |s| > 0 ==> r[1..] == s[1..]
    ensures |s| > 0 && !IsAsciiLower(s[0]) ==> r == s
    ensures |s| > 0 && IsAsciiLower(s[0]) ==> 'A' <= r[0] <= 'Z' && r[0] as int + 32 == s[0] as int
  {
    if |s| > 0 && IsAsciiLower(s[0]) then [(s[0] as int - 32) as char] + s[1..] else s
  }

  /** PHP `substr($s, 0, $n)` for a non-negative length. */
  function Prefix(s: string, n: nat): (r: string)
    ensures |r| == if |s| <= n then |s| else n
    ensures StartsWith(s, r)
  {
    if |s| <= n then s else s[..n]
  }

  // ---------------------------------------------------------------------------
  // dirname(), basename()
  // ---------------------------------------------------------------------------

  /** The position of the last '/' in `p`. */
  function LastSlash(p: string): (r: Option<nat>)
    ensures r.Some? ==> r.value < |p| && p[r.value] == '/' && forall k :: r.value < k < |p| ==> p[k] != '/'
    ensures r.None? ==> '/' !in p
  {
    if |p| == 0 then None
    else if p[|p| - 1] == '/' then Some(|p| - 1)
    else
      var r := LastSlash(p[..|p| - 1]);
      assert forall k :: 0 <= k < |p| - 1 ==> p[..|p| - 1][k] == p[k];
      r
  }

  /** PHP `dirname()` for a path without a trailing slash. */
  function Dirname(p: string): string {
    match LastSlash(p)
    case None => "."
    case Some(i) => if i == 0 then "/" else p[..i]
  }

  /** PHP `basename()` for a path without a trailing slash. */
  function Basename(p: string): string {
    match LastSlash(p)
    case None => p
    case Some(i) => p[i + 1..]
  }

  /** Splitting a path at its last slash and joining it again are inverse. */
  lemma PathSplit(dir: string, name: string)
    requires dir != "" && '/' !in name
    ensures Dirname(dir + "/" + name) == dir
    ensures Basename(dir + "/" + name) == name
  {
    var p := dir + "/" + name;
    assert p[|dir|] == '/';
    assert forall k :: |dir| < k < |p| ==> p[k] == name[k - |dir| - 1];
    var r := LastSlash(p);
    assert r == Some(|dir|);
    assert p[..|dir|] == dir;
    assert p[|dir| + 1..] == name;
  }
}

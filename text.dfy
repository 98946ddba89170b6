/**
 * The string primitives the source takes from JavaScript and Node.js:
 * `trim`, `toLowerCase`, `lastIndexOf`, `substring`, `startsWith`, `parseInt`,
 * number-to-string conversion, and `path.extname` / `path.basename` /
 * `path.join` for POSIX paths.
 */
module Text {
  import opened Base

  /** The whitespace characters that `trim()` and the regex class `\s` remove. */
  predicate IsWs(c: char) {
    c == ' ' || c == '\t' || c == '\n' || c == '\r' || c == '\U{000B}' || c == '\U{000C}'
    || c == '\U{00A0}' || c == '\U{2028}' || c == '\U{2029}' || c == '\U{FEFF}'
  }

  predicate AllWs(s: string) {
    forall i | 0 <= i < |s| :: IsWs(s[i])
  }

  /** JavaScript truthiness of an optional string: present and not empty. */
  predicate Truthy(v: Option<string>) {
    v.Some? && v.value != ""
  }

  // ---------------------------------------------------------------- trim

  function TrimStart(s: string): (r: string)
    ensures |r| <= |s| && r == s[|s| - |r|..]
  {
    if |s| > 0 && IsWs(s[0]) then TrimStart(s[1..]) else s
  }

  function TrimEnd(s: string): (r: string)
    ensures |r| <= |s| && r == s[..|r|]
  {
    if |s| > 0 && IsWs(s[|s| - 1]) then TrimEnd(s[..|s| - 1]) else s
  }

  /** `String.prototype.trim`. */
  function Trim(s: string): string {
    TrimEnd(TrimStart(s))
  }

  /** `s.trim() === ''`. */
  predicate IsBlank(s: string) {
    Trim(s) == ""
  }

  lemma {:induction false} TrimStartEmptyIffAllWs(s: string)
    ensures TrimStart(s) == "" <==> AllWs(s)
    ensures TrimStart(s) != "" ==> !IsWs(TrimStart(s)[0])
  {
    if |s| > 0 && IsWs(s[0]) {
      TrimStartEmptyIffAllWs(s[1..]);
      if AllWs(s[1..]) {
        assert AllWs(s) by {
          forall i | 0 <= i < |s| ensures IsWs(s[i]) {
            if i > 0 { assert s[i] == s[1..][i - 1]; }
          }
        }
      } else {
        var j :| 0 <= j < |s[1..]| && !IsWs(s[1..][j]);
        assert !IsWs(s[j + 1]);
      }
    } else if |s| > 0 {
      assert !IsWs(s[0]);
    }
  }

  lemma {:induction false} TrimEndKeepsNonWsHead(s: string)
    requires |s| > 0 && !IsWs(s[0])
    ensures TrimEnd(s) != ""
  {
    if IsWs(s[|s| - 1]) {
      assert |s| > 1;
      TrimEndKeepsNonWsHead(s[..|s| - 1]);
    }
  }

  /** A string is blank exactly when every one of its characters is whitespace. */
  lemma BlankIffAllWs(s: string)
    ensures IsBlank(s) <==> AllWs(s)
  {
    TrimStartEmptyIffAllWs(s);
    if TrimStart(s) != "" {
      TrimEndKeepsNonWsHead(TrimStart(s));
    }
  }

  // ---------------------------------------------------------------- case, search, slicing

  function LowerChar(c: char): char {
    if 'A' <= c <= 'Z' then (c as int + 32) as char else c
  }

  /** `toLowerCase`, restricted to the ASCII letters. */
  function ToLower(s: string): (r: string)
    ensures |r| == |s|
    ensures forall i | 0 <= i < |s| :: r[i] == LowerChar(s[i])
  {
    seq(|s|, i requires 0 <= i < |s| => LowerChar(s[i]))
  }

  /** `s.lastIndexOf(c)`: the last position holding `c`, or -1. */
  function LastIndexOf(s: string, c: char): (r: int)
    ensures -1 <= r < |s|
    ensures r >= 0 ==> s[r] == c
    ensures forall j | r < j < |s| :: s[j] != c
  {
    if |s| == 0 then -1
    else if s[|s| - 1] == c then |s| - 1
    else LastIndexOf(s[..|s| - 1], c)
  }

  lemma {:induction false} LastIndexOfAppend(a: string, b: string, c: char)
    ensures LastIndexOf(b, c) >= 0 ==> LastIndexOf(a + b, c) == |a| + LastIndexOf(b, c)
    ensures LastIndexOf(b, c) < 0 ==> LastIndexOf(a + b, c) == LastIndexOf(a, c)
  {
    if |b| == 0 {
      assert a + b == a;
    } else if b[|b| - 1] != c {
      assert (a + b)[..|a + b| - 1] == a + b[..|b| - 1];
      LastIndexOfAppend(a, b[..|b| - 1], c);
    }
  }

  /** `c` at `i` and nowhere after it: `i` is the last position of `c`. */
  lemma LastIndexOfAt(s: string, i: nat, c: char)
    requires i < |s| && s[i] == c && forall j | i < j < |s| :: s[j] != c
    ensures LastIndexOf(s, c) == i
  {
  }

  lemma LastIndexOfAbsent(s: string, c: char)
    requires forall j | 0 <= j < |s| :: s[j] != c
    ensures LastIndexOf(s, c) == -1
  {
  }

  /** The last `c` of a string whose suffix from `i` holds one lies in that suffix. */
  lemma LastIndexOfSuffix(s: string, i: nat, c: char)
    requires i <= |s| && LastIndexOf(s[i..], c) >= 0
    ensures LastIndexOf(s, c) == i + LastIndexOf(s[i..], c)
  {
    assert s == s[..i] + s[i..];
    LastIndexOfAppend(s[..i], s[i..], c);
  }

  lemma SliceOfSlice<T>(s: seq<T>, i: nat, j: nat)
    requires i + j <= |s|
    ensures s[i..][j..] == s[i + j..]
  {
  }

  /** `s.substring(start)`: a negative start counts as 0, one past the end as the end. */
  function SubstringFrom(s: string, start: int): (r: string)
    ensures start <= 0 ==> r == s
    ensures 0 <= start <= |s| ==> r == s[start..]
  {
    var k := if start < 0 then 0 else if start > |s| then |s| else start;
    s[k..]
  }

  predicate StartsWith(s: string, prefix: string) {
    |prefix| <= |s| && s[..|prefix|] == prefix
  }

  // ---------------------------------------------------------------- paths

  /** `path.basename` of a path without a trailing '/': what follows the last '/'. */
  function BaseName(p: string): (r: string)
    ensures forall j | 0 <= j < |r| :: r[j] != '/'
  {
    p[LastIndexOf(p, '/') + 1..]
  }

  /**
   * `path.extname` of a path without a trailing '/': the base name's suffix from
   * its last '.', or "" when it has none, when that '.' is its first character,
   * or when the base name is "..".
   */
  function ExtName(p: string): (r: string)
    ensures r != "" ==> r[0] == '.'
    ensures forall j | 0 <= j < |r| :: r[j] != '/' && (j > 0 ==> r[j] != '.')
  {
    BaseExt(BaseName(p))
  }

  /** The extension part of a base name `b`. */
  function BaseExt(b: string): (r: string)
    ensures r != "" ==> r[0] == '.'
    ensures forall j | 0 <= j < |r| :: (j > 0 ==> r[j] != '.')
  {
    var d := LastIndexOf(b, '.');
    if d <= 0 || b == ".." then "" else b[d..]
  }

  /** `path.extname` looks only at the base name. */
  lemma ExtNameOfBaseName(p: string)
    ensures ExtName(p) == ExtName(BaseName(p))
  {
    var b := BaseName(p);
    LastIndexOfAbsent(b, '/');
    assert b[0..] == b;
  }

  lemma BaseExtIsLastDotSuffix(b: string)
    requires BaseExt(b) != ""
    ensures 0 < LastIndexOf(b, '.') && BaseExt(b) == b[LastIndexOf(b, '.')..]
  {
  }

  lemma ExtNameInBaseName(p: string)
    requires ExtName(p) != ""
    ensures 0 < LastIndexOf(BaseName(p), '.') && ExtName(p) == BaseName(p)[LastIndexOf(BaseName(p), '.')..]
  {
    BaseExtIsLastDotSuffix(BaseName(p));
  }

  /** When `path.extname` finds an extension, it is the path's suffix from its last '.'. */
  lemma ExtNameIsLastDotSuffix(p: string)
    requires ExtName(p) != ""
    ensures 0 <= LastIndexOf(p, '.') && ExtName(p) == p[LastIndexOf(p, '.')..]
  {
    ExtNameInBaseName(p);
    LastDotInSuffix(p, LastIndexOf(p, '/') + 1, LastIndexOf(BaseName(p), '.'), ExtName(p));
  }

  /** A suffix of `p` from a '.' of its tail `p[i..]` that is that tail's last is `p`'s suffix from its last '.'. */
  lemma LastDotInSuffix(p: string, i: nat, d: int, x: string)
    requires i <= |p| && d == LastIndexOf(p[i..], '.') && 0 <= d && x == p[i..][d..]
    ensures 0 <= LastIndexOf(p, '.') && x == p[LastIndexOf(p, '.')..]
  {
    LastIndexOfSuffix(p, i, '.');
    SliceOfSlice(p, i, d);
  }

  /** `path.join(dir, name)` for a directory without a trailing '/'. */
  function JoinPath(dir: string, name: string): string {
    dir + "/" + name
  }

  lemma BaseNameOfJoin(dir: string, name: string)
    requires forall j | 0 <= j < |name| :: name[j] != '/'
    ensures BaseName(JoinPath(dir, name)) == name
  {
    assert JoinPath(dir, name) == (dir + "/") + name;
    LastIndexOfAppend(dir, "/", '/');
    LastIndexOfAppend(dir + "/", name, '/');
  }

  // ---------------------------------------------------------------- numbers

  function DigitChar(d: nat): char
    requires d < 10
  {
    "0123456789"[d]
  }

  predicate IsDecimal(c: char) {
    '0' <= c <= '9'
  }

  /** Decimal rendering of a natural number, as `${n}` gives it. */
  function NatToString(n: nat): (r: string)
    ensures |r| > 0
    ensures forall i | 0 <= i < |r| :: IsDecimal(r[i])
  {
    if n < 10 then [DigitChar(n)] else NatToString(n / 10) + [DigitChar(n % 10)]
  }

  /** Decimal rendering of an integer, with a leading '-' when negative. */
  function IntToString(i: int): (r: string)
    ensures |r| > 0
    ensures forall j | 0 <= j < |r| :: IsDecimal(r[j]) || r[j] == '-'
  {
    if i < 0 then "-" + NatToString(-i) else NatToString(i)
  }

  /** The value of `c` as a digit in the given radix (10 or 16), if it is one. */
  function DigitValue(c: char, radix: nat): Option<nat> {
    if '0' <= c <= '9' then Some(c as int - '0' as int)
    else if radix == 16 && 'a' <= c <= 'f' then Some(c as int - 'a' as int + 10)
    else if radix == 16 && 'A' <= c <= 'F' then Some(c as int - 'A' as int + 10)
    else None
  }

  /** How many characters at the front of `s` are digits in the radix. */
  function LeadingDigits(s: string, radix: nat): (n: nat)
    ensures n <= |s|
    ensures forall i | 0 <= i < n :: DigitValue(s[i], radix).Some?
    ensures n < |s| ==> DigitValue(s[n], radix).None?
  {
    if |s| == 0 || DigitValue(s[0], radix).None? then 0 else 1 + LeadingDigits(s[1..], radix)
  }

  /** The value of a run of digits, most significant first. */
  function DigitsValue(s: string, radix: nat): nat
    requires forall i | 0 <= i < |s| :: DigitValue(s[i], radix).Some?
  {
    if |s| == 0 then 0
    else DigitsValue(s[..|s| - 1], radix) * radix + DigitValue(s[|s| - 1], radix).value
  }

  /** A run of digits at the front of `u`, with a "0x"/"0X" prefix selecting base 16. */
  function ParseMagnitude(u: string): Option<nat> {
    if |u| >= 2 && u[0] == '0' && (u[1] == 'x' || u[1] == 'X') then DigitRun(u[2..], 16)
    else DigitRun(u, 10)
  }

  /** The value of the longest run of digits at the front of `v`, or `None` if there is none. */
  function DigitRun(v: string, radix: nat): Option<nat> {
    var n := LeadingDigits(v, radix);
    if n == 0 then None else Some(DigitsValue(v[..n], radix))
  }

  /** `t` without its one leading sign character, if it has one. */
  function Unsigned(t: string): string {
    if |t| > 0 && (t[0] == '-' || t[0] == '+') then t[1..] else t
  }

  /**
   * `parseInt(s)` without a radix argument: leading whitespace is skipped, one
   * sign is read, a "0x"/"0X" prefix selects base 16, and the longest run of
   * digits that follows gives the value. `None` stands for NaN.
   */
  function ParseInt(s: string): Option<int> {
    ParseSigned(TrimStart(s))
  }

  /** `parseInt` after the leading whitespace: an optional sign, then the magnitude. */
  function ParseSigned(t: string): Option<int> {
    match ParseMagnitude(Unsigned(t))
    case None => None
    case Some(m) =>
      var magnitude: int := m;
      Some(if |t| > 0 && t[0] == '-' then -magnitude else magnitude)
  }

  lemma {:induction false} DigitsValueOfNatToString(n: nat)
    ensures forall i | 0 <= i < |NatToString(n)| :: DigitValue(NatToString(n)[i], 10).Some?
    ensures DigitsValue(NatToString(n), 10) == n
  {
    var s := NatToString(n);
    if n >= 10 {
      DigitsValueOfNatToString(n / 10);
      assert s[..|s| - 1] == NatToString(n / 10);
    }
  }

  lemma {:induction false} LeadingDigitsOfDigits(s: string)
    requires forall i | 0 <= i < |s| :: IsDecimal(s[i])
    ensures LeadingDigits(s, 10) == |s|
  {
    if |s| > 0 {
      LeadingDigitsOfDigits(s[1..]);
    }
  }

  /** A run of decimal digits is read whole, in base 10. */
  lemma ParseMagnitudeOfDigits(u: string, n: nat)
    requires |u| > 0 && forall i | 0 <= i < |u| :: IsDecimal(u[i])
    requires LeadingDigits(u, 10) == |u| && DigitsValue(u, 10) == n
    ensures ParseMagnitude(u) == Some(n)
  {
    assert |u| >= 2 ==> IsDecimal(u[1]);
    assert DigitRun(u, 10) == Some(n) by {
      assert u[..|u|] == u;
    }
  }

  lemma ParseMagnitudeOfNatToString(n: nat)
    ensures ParseMagnitude(NatToString(n)) == Some(n)
  {
    DigitsValueOfNatToString(n);
    LeadingDigitsOfDigits(NatToString(n));
    ParseMagnitudeOfDigits(NatToString(n), n);
  }

  lemma TrimStartOfNonWsHead(s: string)
    requires |s| > 0 && !IsWs(s[0])
    ensures TrimStart(s) == s
  {
  }

  lemma ParseIntOfNatToString(n: nat)
    ensures ParseInt(NatToString(n)) == Some(n)
  {
    var digits := NatToString(n);
    assert TrimStart(digits) == digits by {
      assert IsDecimal(digits[0]);
      TrimStartOfNonWsHead(digits);
    }
    assert Unsigned(digits) == digits by {
      assert IsDecimal(digits[0]);
    }
    assert ParseMagnitude(digits) == Some(n) by {
      ParseMagnitudeOfNatToString(n);
    }
  }

  lemma ParseIntOfNegative(i: int)
    requires i < 0
    ensures ParseInt(IntToString(i)) == Some(i)
  {
    var n: nat := -i;
    var digits := NatToString(n);
    var s := IntToString(i);
    assert s == "-" + digits;
    assert TrimStart(s) == s by {
      TrimStartOfNonWsHead(s);
    }
    assert Unsigned(s) == digits;
    assert ParseMagnitude(digits) == Some(n) by {
      ParseMagnitudeOfNatToString(n);
    }
    assert ParseSigned(s) == Some(i);
  }

  /** Parsing the decimal rendering of an integer gives the integer back. */
  lemma ParseIntOfIntToString(i: int)
    ensures ParseInt(IntToString(i)) == Some(i)
  {
    if i < 0 {
      ParseIntOfNegative(i);
    } else {
      assert IntToString(i) == NatToString(i);
      ParseIntOfNatToString(i);
    }
  }
}

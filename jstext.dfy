/**
 * The JavaScript string built-ins that the client's logic is made of, over strings
 * as sequences of characters: `trim`, `indexOf`, `replace` with a string pattern,
 * `split` and `join`, `toUpperCase` and `sprintf("%d")`.
 */
module JsText {

  /** A character that `String.prototype.trim` removes: an ECMAScript WhiteSpace or LineTerminator. */
  predicate IsSpace(c: char) {
    || c == '\t' || c == '\n' || c == '\U{0B}' || c == '\U{0C}' || c == '\r' || c == ' '
    || c == '\U{A0}' || c == '\U{1680}' || ('\U{2000}' <= c <= '\U{200A}')
    || c == '\U{2028}' || c == '\U{2029}' || c == '\U{202F}' || c == '\U{205F}'
    || c == '\U{3000}' || c == '\U{FEFF}'
  }

  /** A character that the regular-expression atom `.` refuses to match. */
  predicate IsLineTerminator(c: char) {
    c == '\n' || c == '\r' || c == '\U{2028}' || c == '\U{2029}'
  }

  ghost predicate AllSpace(s: string) {
    forall i :: 0 <= i < |s| ==> IsSpace(s[i])
  }

  /** `s.trimStart()`: drops the leading white space. */
  function TrimStart(s: string): string {
    if s != [] && IsSpace(s[0]) then TrimStart(s[1..]) else s
  }

  /** `trimStart` keeps a suffix, drops only white space, and stops at the first other character. */
  lemma {:induction false} TrimStartSpec(s: string)
    ensures |TrimStart(s)| <= |s| && TrimStart(s) == s[|s| - |TrimStart(s)|..]
    ensures AllSpace(s[..|s| - |TrimStart(s)|])
    ensures TrimStart(s) != [] ==> !IsSpace(TrimStart(s)[0])
    decreases |s|
  {
    if s != [] && IsSpace(s[0]) {
      TrimStartSpec(s[1..]);
      var r := TrimStart(s[1..]);
      assert s[..|s| - |r|] == [s[0]] + s[1..][..|s| - 1 - |r|];
    }
  }

  /** `s.trimEnd()`: drops the trailing white space. */
  function TrimEnd(s: string): string {
    if s != [] && IsSpace(s[|s| - 1]) then TrimEnd(s[..|s| - 1]) else s
  }

  /** `trimEnd` keeps a prefix, drops only white space, and stops at the last other character. */
  lemma {:induction false} TrimEndSpec(s: string)
    ensures |TrimEnd(s)| <= |s| && TrimEnd(s) == s[..|TrimEnd(s)|]
    ensures AllSpace(s[|TrimEnd(s)|..])
    ensures TrimEnd(s) != [] ==> !IsSpace(TrimEnd(s)[|TrimEnd(s)| - 1])
    decreases |s|
  {
    if s != [] && IsSpace(s[|s| - 1]) {
      TrimEndSpec(s[..|s| - 1]);
      var r := TrimEnd(s[..|s| - 1]);
      assert s[|r|..] == s[..|s| - 1][|r|..] + [s[|s| - 1]];
    }
  }

  /** `s.trim()`: the text between the leading and the trailing white space. */
  function Trim(s: string): string {
    TrimEnd(TrimStart(s))
  }

  /**
   * `trim` keeps a contiguous part of the text that starts after the leading white
   * space, is empty exactly for an all-white-space text, and neither starts nor ends
   * with white space.
   */
  lemma TrimSpec(s: string)
    ensures 0 <= Leading(s) <= |s| - |Trim(s)| && Trim(s) == s[Leading(s)..Leading(s) + |Trim(s)|]
    ensures Trim(s) == [] <==> AllSpace(s)
    ensures Trim(s) != [] ==> !IsSpace(Trim(s)[0]) && !IsSpace(Trim(s)[|Trim(s)| - 1])
  {
    var t := TrimStart(s);
    TrimStartSpec(s);
    TrimEndSpec(t);
    var r := TrimEnd(t);
    assert r == s[|s| - |t|..][..|r|];
    assert s == s[..|s| - |t|] + t;
    if r == [] {
      assert t == t[..0] + t[0..];
    }
  }

  /** The number of white-space characters `trim` drops at the front. */
  function Leading(s: string): nat {
    TrimStartSpec(s);
    |s| - |TrimStart(s)|
  }

  /** `p` occurs in `s` at index `i`. */
  predicate OccursAt(s: string, p: string, i: int) {
    0 <= i && i + |p| <= |s| && s[i..i + |p|] == p
  }

  /** `s.indexOf(p, from)`: the first index at or after `from` where `p` occurs, or -1. */
  function IndexOfFrom(s: string, p: string, from: nat): int
    decreases |s| - from
  {
    if from + |p| > |s| then -1
    else if s[from..from + |p|] == p then from
    else IndexOfFrom(s, p, from + 1)
  }

  lemma {:induction false} IndexOfFromSpec(s: string, p: string, from: nat)
    ensures IndexOfFrom(s, p, from) == -1 || (from <= IndexOfFrom(s, p, from) && OccursAt(s, p, IndexOfFrom(s, p, from)))
    ensures forall j :: from <= j && (IndexOfFrom(s, p, from) == -1 || j < IndexOfFrom(s, p, from)) ==> !OccursAt(s, p, j)
    decreases |s| - from
  {
    if from + |p| <= |s| && s[from..from + |p|] != p {
      IndexOfFromSpec(s, p, from + 1);
    }
  }

  /** `s.indexOf(p)`: the first index where `p` occurs, or -1. */
  function IndexOf(s: string, p: string): int {
    IndexOfFrom(s, p, 0)
  }

  /** `indexOf` finds an occurrence, and none comes before it; -1 means there is none at all. */
  lemma IndexOfSpec(s: string, p: string)
    ensures IndexOf(s, p) == -1 || OccursAt(s, p, IndexOf(s, p))
    ensures forall j :: 0 <= j && (IndexOf(s, p) == -1 || j < IndexOf(s, p)) ==> !OccursAt(s, p, j)
  {
    IndexOfFromSpec(s, p, 0);
  }

  /** `s.indexOf(p) != -1`. */
  predicate Contains(s: string, p: string) {
    IndexOf(s, p) != -1
  }

  lemma ContainsAt(s: string, p: string, i: int)
    requires OccursAt(s, p, i)
    ensures Contains(s, p)
  {
    IndexOfSpec(s, p);
  }

  /** `s.indexOf(p) == 0` holds exactly when `p` is a prefix of `s`. */
  lemma IndexOfZeroIsPrefix(s: string, p: string)
    ensures IndexOf(s, p) == 0 <==> p <= s
  {
    IndexOfSpec(s, p);
    if p <= s {
      assert s[0..|p|] == p;
      assert OccursAt(s, p, 0);
    }
  }

  /**
   * `s.replace(p, rep)` with a string pattern: the first occurrence of `p`, if any,
   * gives way to `rep`.
   */
  function Replace(s: string, p: string, rep: string): string {
    var i := IndexOf(s, p);
    IndexOfSpec(s, p);
    if i == -1 then s else s[..i] + rep + s[i + |p|..]
  }

  /** Replacing at the first occurrence: the text around it is kept as it was. */
  lemma ReplaceAt(s: string, p: string, rep: string, i: int)
    requires OccursAt(s, p, i)
    requires forall j :: 0 <= j < i ==> !OccursAt(s, p, j)
    ensures Replace(s, p, rep) == s[..i] + rep + s[i + |p|..]
  {
    IndexOfSpec(s, p);
  }

  /** When the text before an occurrence lacks the pattern's first character, that occurrence is the one replaced. */
  lemma ReplaceFirstAfter(a: string, p: string, rep: string, b: string)
    requires p != [] && p[0] !in a
    ensures Replace(a + p + b, p, rep) == a + rep + b
  {
    var s := a + p + b;
    assert s[|a|..|a| + |p|] == p;
    forall j | 0 <= j < |a|
      ensures !OccursAt(s, p, j)
    {
      assert s[j] == a[j];
      if j + |p| <= |s| {
        assert s[j..j + |p|][0] == s[j];
      }
    }
    ReplaceAt(s, p, rep, |a|);
    assert s[..|a|] == a && s[|a| + |p|..] == b;
  }

  /** A text without one of the pattern's characters does not contain the pattern. */
  lemma Lacks(s: string, p: string, k: int)
    requires 0 <= k < |p| && p[k] !in s
    ensures !Contains(s, p)
  {
    IndexOfSpec(s, p);
  }

  lemma ReplaceAbsent(s: string, p: string, rep: string)
    requires !Contains(s, p)
    ensures Replace(s, p, rep) == s
  {
  }

  /** An occurrence in a part of a string is an occurrence in the whole, shifted by where the part starts. */
  lemma OccursInSlice(s: string, p: string, lo: int, hi: int, j: int)
    requires 0 <= lo <= hi <= |s|
    ensures OccursAt(s[lo..hi], p, j) <==> (0 <= j && lo + j + |p| <= hi && OccursAt(s, p, lo + j))
  {
    if 0 <= j && lo + j + |p| <= hi {
      var u, v := s[lo..hi][j..j + |p|], s[lo + j..lo + j + |p|];
      forall k | 0 <= k < |p|
        ensures u[k] == v[k]
      {
        assert u[k] == s[lo + j + k];
      }
      assert u == v;
    }
  }

  /** `s.split(sep)` for a non-empty string separator: the texts between successive occurrences. */
  function Split(s: string, sep: string): (parts: seq<string>)
    requires sep != []
    decreases |s|
    ensures |parts| >= 1
  {
    var i := IndexOf(s, sep);
    IndexOfSpec(s, sep);
    if i == -1 then [s] else [s[..i]] + Split(s[i + |sep|..], sep)
  }

  /** `parts.join(sep)`. */
  function Join(parts: seq<string>, sep: string): string
    decreases |parts|
  {
    if |parts| == 0 then ""
    else if |parts| == 1 then parts[0]
    else parts[0] + sep + Join(parts[1..], sep)
  }

  /** Splitting loses nothing: joining the parts with the separator gives the text back. */
  lemma {:induction false} JoinSplit(s: string, sep: string)
    requires sep != []
    ensures Join(Split(s, sep), sep) == s
    decreases |s|
  {
    var i := IndexOf(s, sep);
    IndexOfSpec(s, sep);
    if i != -1 {
      var rest := s[i + |sep|..];
      JoinSplit(rest, sep);
      var parts := Split(s, sep);
      assert parts == [s[..i]] + Split(rest, sep);
      assert parts[1..] == Split(rest, sep);
      assert s == s[..i] + sep + rest;
    }
  }

  /** Splitting is exact: no part still holds the separator. */
  lemma {:induction false} SplitPartsLackSeparator(s: string, sep: string)
    requires sep != []
    ensures forall k :: 0 <= k < |Split(s, sep)| ==> !Contains(Split(s, sep)[k], sep)
    decreases |s|
  {
    var i := IndexOf(s, sep);
    IndexOfSpec(s, sep);
    if i != -1 {
      var rest := s[i + |sep|..];
      SplitPartsLackSeparator(rest, sep);
      forall j | 0 <= j
        ensures !OccursAt(s[..i], sep, j)
      {
        OccursInSlice(s, sep, 0, i, j);
      }
      IndexOfSpec(s[..i], sep);
      assert Split(s, sep) == [s[..i]] + Split(rest, sep);
    }
  }

  /** A text without the separator splits into itself alone. */
  lemma SplitWithoutSeparator(s: string, sep: string)
    requires sep != [] && !Contains(s, sep)
    ensures Split(s, sep) == [s]
  {
    IndexOfSpec(s, sep);
  }

  /** `s.split(c)[0]` for a one-character separator: the text before the first `c`. */
  function Before(s: string, c: char): (r: string)
    ensures r <= s && c !in r
    ensures |r| == |s| || s[|r|] == c
  {
    if s == [] || s[0] == c then [] else [s[0]] + Before(s[1..], c)
  }

  /** The text before the first `c` ends where that `c` is. */
  lemma BeforeAt(s: string, c: char, i: int)
    requires 0 <= i < |s| && s[i] == c && c !in s[..i]
    ensures Before(s, c) == s[..i]
  {
  }

  /** `Before` is the first part that `split` yields. */
  lemma BeforeIsFirstPart(s: string, c: char)
    ensures Before(s, c) == Split(s, [c])[0]
  {
    var r := Before(s, c);
    var i := IndexOf(s, [c]);
    IndexOfSpec(s, [c]);
    forall j | 0 <= j < |r|
      ensures !OccursAt(s, [c], j)
    {
      assert s[j] == r[j];
    }
    if |r| < |s| {
      assert s[|r|..|r| + 1] == [c];
      assert OccursAt(s, [c], |r|);
      assert i == |r|;
      assert s[..i] == r;
    } else {
      assert r == s;
      assert i == -1;
    }
  }

  /** `s.split(c).slice(-1)[0]` for a one-character separator: the text after the last `c`. */
  function AfterLast(s: string, c: char): (r: string)
    ensures |r| <= |s| && r == s[|s| - |r|..] && c !in r
    ensures |r| == |s| || s[|s| - |r| - 1] == c
  {
    if s == [] || s[|s| - 1] == c then []
    else
      var r := AfterLast(s[..|s| - 1], c) + [s[|s| - 1]];
      assert s[..|s| - 1][|s| - |r|..] + [s[|s| - 1]] == s[|s| - |r|..];
      r
  }

  /** A text without `c` is its own last part. */
  lemma AfterLastAbsent(s: string, c: char)
    requires c !in s
    ensures AfterLast(s, c) == s
  {
  }

  /** `sprintf("%d", n)` for a natural number: its decimal digits, without leading zeros. */
  function Decimal(n: nat): (r: string)
    ensures r != [] && forall i :: 0 <= i < |r| ==> IsDigit(r[i])
    ensures r[0] == '0' ==> n == 0
  {
    if n < 10 then [DigitChar(n)] else Decimal(n / 10) + [DigitChar(n % 10)]
  }

  predicate IsDigit(c: char) {
    '0' <= c <= '9'
  }

  function DigitChar(d: nat): (c: char)
    requires d < 10
    ensures IsDigit(c) && c as int - '0' as int == d
  {
    (d + '0' as int) as char
  }

  /** The number a string of decimal digits denotes. */
  function DecimalValue(s: string): nat
    requires forall i :: 0 <= i < |s| ==> IsDigit(s[i])
  {
    if s == [] then 0
    else
      assert IsDigit(s[|s| - 1]);
      10 * DecimalValue(s[..|s| - 1]) + (s[|s| - 1] as int - '0' as int)
  }

  /** `%d` loses nothing: the digits it prints denote the number printed. */
  lemma {:induction false} DecimalValueOfDecimal(n: nat)
    ensures DecimalValue(Decimal(n)) == n
    decreases n
  {
    var r := Decimal(n);
    if n >= 10 {
      DecimalValueOfDecimal(n / 10);
      assert r[..|r| - 1] == Decimal(n / 10);
    }
  }

  /** `c` repeated `n` times. */
  function Repeat(c: char, n: nat): (r: string)
    ensures |r| == n && forall i :: 0 <= i < n ==> r[i] == c
  {
    if n == 0 then [] else [c] + Repeat(c, n - 1)
  }

  /** The number of times `c` occurs in `s`. */
  function Count(c: char, s: string): nat {
    if s == [] then 0 else (if s[0] == c then 1 else 0) + Count(c, s[1..])
  }

  lemma {:induction false} CountAppend(c: char, a: string, b: string)
    ensures Count(c, a + b) == Count(c, a) + Count(c, b)
    decreases |a|
  {
    if a != [] {
      assert (a + b)[0] == a[0];
      assert (a + b)[1..] == a[1..] + b;
      CountAppend(c, a[1..], b);
    } else {
      assert a + b == b;
    }
  }

  lemma {:induction false} CountAbsent(c: char, s: string)
    requires c !in s
    ensures Count(c, s) == 0
    decreases |s|
  {
    if s != [] {
      CountAbsent(c, s[1..]);
    }
  }

  lemma {:induction false} CountRepeat(c: char, n: nat)
    ensures Count(c, Repeat(c, n)) == n
    decreases n
  {
    if n > 0 {
      CountRepeat(c, n - 1);
    }
  }

  /** `toUpperCase` on one character, for the ASCII letters. */
  function UpperChar(c: char): char {
    if 'a' <= c <= 'z' then (c as int - 32) as char else c
  }

  /** `s.toUpperCase()`, for the ASCII letters. */
  function ToUpper(s: string): (r: string)
    ensures |r| == |s| && forall i :: 0 <= i < |s| ==> r[i] == UpperChar(s[i])
  {
    if s == [] then [] else [UpperChar(s[0])] + ToUpper(s[1..])
  }

  /** `s.slice(from)` for a non-negative start: the text from `from` on, empty past the end. */
  function SliceFrom(s: string, from: nat): string {
    if from <= |s| then s[from..] else ""
  }

  /** `array.indexOf(x)` on an array of strings: the first position of `x`, or -1. */
  function SeqIndexOf(bs: seq<string>, x: string): (r: int)
    ensures r == -1 <==> x !in bs
    ensures r != -1 ==> 0 <= r < |bs| && bs[r] == x && x !in bs[..r]
  {
    if bs == [] then -1
    else if bs[0] == x then 0
    else
      var r := SeqIndexOf(bs[1..], x);
      assert r != -1 ==> bs[..r + 1] == [bs[0]] + bs[1..][..r];
      if r == -1 then -1 else r + 1
  }

  /** No string occurs twice. */
  ghost predicate Distinct(s: seq<string>) {
    forall i, j :: 0 <= i < j < |s| ==> s[i] != s[j]
  }

  /** A text with one occurrence of a one-character separator splits into the two sides of it. */
  lemma SplitOnce(a: string, c: char, b: string)
    requires c !in a && c !in b
    ensures Split(a + [c] + b, [c]) == [a, b]
  {
    var s := a + [c] + b;
    assert s[|a|..|a| + 1] == [c];
    forall j | 0 <= j < |a|
      ensures !OccursAt(s, [c], j)
    {
      assert s[j] == a[j] && s[j..j + 1][0] == s[j];
    }
    assert OccursAt(s, [c], |a|);
    IndexOfSpec(s, [c]);
    assert IndexOf(s, [c]) == |a|;
    assert s[..|a|] == a && s[|a| + 1..] == b;
    Lacks(b, [c], 0);
    SplitWithoutSeparator(b, [c]);
  }
}

/**
 * String operations of the Java and JavaScript standard libraries that the
 * modelled code relies on, written out on `seq<char>`.
 *
 * Only what the callers need is modelled: case conversion covers the ASCII
 * and Latin-1 letters (A-Z and À-Þ, which hold the Danish Æ, Ø and Å), and
 * whitespace is Java's `Character.isWhitespace`.
 */
module Strings {

  /**
   * Java's `Character.isWhitespace`: the ASCII controls TAB to CR and FS to US,
   * and the space, line and paragraph separators other than the non-breaking
   * spaces U+00A0, U+2007 and U+202F.
   */
  predicate IsWhitespace(c: char) {
    c == ' ' || c == '\t' || c == '\n' || c == '\U{000B}' || c == '\U{000C}' || c == '\r'
    || ('\U{001C}' <= c <= '\U{001F}')
    || c == '\U{1680}' || ('\U{2000}' <= c <= '\U{2006}') || ('\U{2008}' <= c <= '\U{200A}')
    || c == '\U{2028}' || c == '\U{2029}' || c == '\U{205F}' || c == '\U{3000}'
  }

  /** Commons-lang `StringUtils.isBlank` on a non-null string: empty or only whitespace. */
  predicate IsBlank(s: string) {
    forall i :: 0 <= i < |s| ==> IsWhitespace(s[i])
  }

  /** `s.startsWith(p)` */
  predicate StartsWith(s: string, p: string) {
    |p| <= |s| && s[..|p|] == p
  }

  /** `p` occurs in `s` at position `i` */
  predicate OccursAt(s: string, p: string, i: int) {
    0 <= i && i + |p| <= |s| && s[i..i + |p|] == p
  }

  /** `s.contains(p)` */
  predicate Contains(s: string, p: string) {
    exists i | 0 <= i <= |s| :: OccursAt(s, p, i)
  }

  /** `s.indexOf(p, from)`: the first occurrence at or after `from`, or -1. */
  function IndexOfFrom(s: string, p: string, from: nat): (r: int)
    requires from <= |s|
    ensures r == -1 || (from <= r && OccursAt(s, p, r))
    ensures r == -1 ==> forall i :: from <= i ==> !OccursAt(s, p, i)
    ensures r != -1 ==> forall i :: from <= i < r ==> !OccursAt(s, p, i)
    decreases |s| - from
  {
    if OccursAt(s, p, from) then from
    else if from == |s| then -1
    else IndexOfFrom(s, p, from + 1)
  }

  /** `s.indexOf(p)` */
  function IndexOf(s: string, p: string): (r: int)
    ensures r == -1 <==> !Contains(s, p)
    ensures r != -1 ==> OccursAt(s, p, r) && forall i :: 0 <= i < r ==> !OccursAt(s, p, i)
  {
    IndexOfFrom(s, p, 0)
  }

  /** Regrouping a concatenation, for proofs where the solver would otherwise unfold its operands */
  lemma AppendAssoc(a: string, b: string, c: string)
    ensures a + b + c == a + (b + c)
  {
  }

  /** Appending text never moves an occurrence that is already there. */
  lemma IndexOfExtend(a: string, x: string, p: string)
    requires IndexOf(a, p) != -1
    ensures IndexOf(a + x, p) == IndexOf(a, p)
  {
    var k := IndexOf(a, p);
    assert (a + x)[k..k + |p|] == a[k..k + |p|];
    assert OccursAt(a + x, p, k);
    forall i | 0 <= i < k ensures !OccursAt(a + x, p, i) {
      assert (a + x)[i..i + |p|] == a[i..i + |p|];
      assert !OccursAt(a, p, i);
    }
  }

  /** An upper-case letter of ASCII or Latin-1: A-Z, and À-Þ except the sign × */
  predicate IsUpperLatin1(c: char) {
    ('A' <= c <= 'Z') || ('\U{00C0}' <= c <= '\U{00DE}' && c != '\U{00D7}')
  }

  /** `Character.toLowerCase` on ASCII and Latin-1: each upper-case letter is 32 code points below its lower case. */
  function LowerChar(c: char): (r: char)
    ensures IsUpperLatin1(c) ==> r as int == c as int + 32
    ensures !IsUpperLatin1(c) ==> r == c
    ensures !IsUpperLatin1(r)
  {
    if IsUpperLatin1(c) then (c as int + 32) as char else c
  }

  /** `s.toLowerCase()`, for ASCII and Latin-1 letters */
  function ToLower(s: string): (r: string)
    ensures |r| == |s|
    ensures forall i :: 0 <= i < |s| ==> r[i] == LowerChar(s[i])
  {
    seq(|s|, i requires 0 <= i < |s| => LowerChar(s[i]))
  }

  /** Java's `String.trim` drops leading and trailing characters up to U+0020. */
  function TrimStart(s: string): (r: string)
    ensures |r| <= |s| && r == s[|s| - |r|..]
    ensures r == [] || r[0] > ' '
  {
    if |s| > 0 && s[0] <= ' ' then TrimStart(s[1..]) else s
  }

  function TrimEnd(s: string): (r: string)
    ensures |r| <= |s| && r == s[..|r|]
    ensures r == [] || r[|r| - 1] > ' '
  {
    if |s| > 0 && s[|s| - 1] <= ' ' then TrimEnd(s[..|s| - 1]) else s
  }

  /** `s.trim()` */
  function Trim(s: string): (r: string)
    ensures r == [] || (r[0] > ' ' && r[|r| - 1] > ' ')
  {
    TrimEnd(TrimStart(s))
  }

  /**
   * Left-to-right, non-overlapping replacement of every occurrence of `pat`
   * (Java's `String.replace(CharSequence, CharSequence)`).
   */
  function ReplaceAll(s: string, pat: string, rep: string): (r: string)
    requires |pat| > 0
    decreases |s|
  {
    if |s| == 0 then []
    else if StartsWith(s, pat) then rep + ReplaceAll(s[|pat|..], pat, rep)
    else [s[0]] + ReplaceAll(s[1..], pat, rep)
  }

  /** Replacing a pattern that does not occur changes nothing. */
  lemma {:induction false} ReplaceAbsent(s: string, pat: string, rep: string)
    requires |pat| > 0 && !Contains(s, pat)
    ensures ReplaceAll(s, pat, rep) == s
  {
    if |s| > 0 {
      assert !OccursAt(s, pat, 0);
      if Contains(s[1..], pat) {
        var i :| 0 <= i <= |s[1..]| && OccursAt(s[1..], pat, i);
        assert s[1..][i..i + |pat|] == s[i + 1..i + 1 + |pat|];
        assert OccursAt(s, pat, i + 1);
      }
      ReplaceAbsent(s[1..], pat, rep);
    }
  }

  /** Every character of `s`, in order, with each `c` replaced by `d` (`String.replace(char, char)`). */
  function ReplaceChar(s: string, c: char, d: char): (r: string)
    ensures |r| == |s|
    ensures forall i :: 0 <= i < |s| ==> r[i] == (if s[i] == c then d else s[i])
  {
    seq(|s|, i requires 0 <= i < |s| => if s[i] == c then d else s[i])
  }

  /** `s.replaceAll("\"", "")`: every occurrence of the character removed. */
  function RemoveChar(s: string, c: char): (r: string)
    ensures c !in r
    ensures |r| <= |s|
    ensures c !in s ==> r == s
  {
    if |s| == 0 then []
    else if s[0] == c then RemoveChar(s[1..], c)
    else [s[0]] + RemoveChar(s[1..], c)
  }

  /** A character of `s` occurs in it as a one-character pattern. */
  lemma CharOccurs(s: string, c: char)
    requires c in s
    ensures Contains(s, [c])
  {
    var j :| 0 <= j < |s| && s[j] == c;
    assert s[j..j + 1] == [c];
    assert OccursAt(s, [c], j);
  }

  /** `IndexOf` on a single character: -1 iff it is absent, else the first position holding it */
  lemma IndexOfChar(s: string, c: char)
    ensures var i := IndexOf(s, [c]);
      && -1 <= i < |s|
      && (i == -1 <==> c !in s)
      && (i != -1 ==> s[i] == c && c !in s[..i])
  {
    var i := IndexOf(s, [c]);
    if c in s {
      CharOccurs(s, c);
    }
    if i != -1 {
      assert s[i] == s[i..i + 1][0];
      forall j | 0 <= j < i ensures s[..i][j] != c {
        assert !OccursAt(s, [c], j);
        assert s[j..j + 1] == [s[j]];
      }
    }
  }

  /** The pieces of `s` between the occurrences of `c`, empty ones included. */
  function SplitAll(s: string, c: char): (r: seq<string>)
    ensures |r| >= 1
    ensures forall i :: 0 <= i < |r| ==> c !in r[i]
    ensures c !in s <==> |r| == 1
    decreases |s|
  {
    var i := IndexOf(s, [c]);
    IndexOfChar(s, c);
    if i == -1 then [s]
    else [s[..i]] + SplitAll(s[i + 1..], c)
  }

  /** `parts` joined with `sep` between consecutive parts */
  function Join(parts: seq<string>, sep: string): string
  {
    if |parts| == 0 then []
    else if |parts| == 1 then parts[0]
    else parts[0] + sep + Join(parts[1..], sep)
  }

  /** Joining the pieces with the separator gives back the original string. */
  lemma {:induction false} SplitJoin(s: string, c: char)
    ensures Join(SplitAll(s, c), [c]) == s
    decreases |s|
  {
    var i := IndexOf(s, [c]);
    if i == -1 {
      assert SplitAll(s, c) == [s];
    } else {
      var rest := SplitAll(s[i + 1..], c);
      SplitStep(s, c, i);
      SplitJoin(s[i + 1..], c);
      JoinCons(s[..i], rest, [c]);
      SplitAround(s, i);
    }
  }

  /** The first piece ends at the first separator. */
  lemma SplitStep(s: string, c: char, i: int)
    requires i == IndexOf(s, [c]) && i != -1
    ensures 0 <= i < |s| && s[i] == c
    ensures SplitAll(s, c) == [s[..i]] + SplitAll(s[i + 1..], c)
  {
    assert OccursAt(s, [c], i);
    assert s[i..i + 1] == [c];
    assert s[i] == s[i..i + 1][0];
  }

  lemma SplitAround(s: string, i: nat)
    requires i < |s|
    ensures s == s[..i] + [s[i]] + s[i + 1..]
  {
  }

  lemma JoinCons(a: string, rest: seq<string>, sep: string)
    requires |rest| >= 1
    ensures Join([a] + rest, sep) == a + sep + Join(rest, sep)
  {
    assert ([a] + rest)[1..] == rest;
  }

  /** Java's `String.split` on a one-character separator: trailing empty pieces are dropped. */
  function JavaSplit(s: string, c: char): (r: seq<string>)
    ensures c !in s ==> r == [s]
    ensures |r| <= |SplitAll(s, c)|
    ensures r == SplitAll(s, c)[..|r|]
    ensures c in s ==> |r| == 0 || r[|r| - 1] != []
  {
    if c !in s then [s] else DropTrailingEmpty(SplitAll(s, c))
  }

  function DropTrailingEmpty(parts: seq<string>): (r: seq<string>)
    ensures |r| <= |parts| && r == parts[..|r|]
    ensures |r| == 0 || r[|r| - 1] != []
    ensures forall i :: |r| <= i < |parts| ==> parts[i] == []
  {
    if |parts| == 0 then []
    else if parts[|parts| - 1] == [] then DropTrailingEmpty(parts[..|parts| - 1])
    else parts
  }

  function Digit(d: nat): char
    requires d < 10
  {
    "0123456789"[d]
  }

  /** Decimal digits of a natural number, without leading zeros */
  function NatToString(n: nat): (r: string)
    ensures |r| >= 1
    ensures forall i :: 0 <= i < |r| ==> '0' <= r[i] <= '9'
    decreases n
  {
    if n < 10 then [Digit(n)] else NatToString(n / 10) + [Digit(n % 10)]
  }

  /** `String.valueOf(int)` and `%d` */
  function IntToString(n: int): (r: string)
    ensures |r| >= 1
    ensures (n < 0) == (r[0] == '-')
  {
    if n < 0 then "-" + NatToString(-n) else NatToString(n)
  }
}

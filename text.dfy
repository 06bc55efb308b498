/**
 * The JavaScript string operations the editor relies on, with their exact
 * out-of-range behaviour (`substr`, `substring`, `replace(/\n/g, ...)`,
 * `startsWith`, `toLowerCase` restricted to ASCII).
 */
module Text {

  const ZeroWidthSpace: char := '\U{200B}'

  /** The start offset `substr` uses: negative counts from the end, then clamped to `[0, len]`. */
  function SubstrStart(len: nat, start: int): (k: nat)
    ensures k <= len
    ensures 0 <= start <= len ==> k == start
    ensures start < 0 ==> k == if len + start < 0 then 0 else len + start
  {
    if start < 0 then (if len + start < 0 then 0 else len + start)
    else if start > len then len
    else start
  }

  /** `s.substr(start, length)`. */
  function Substr(s: string, start: int, length: int): (r: string)
    ensures |r| <= |s|
    ensures 0 <= start && 0 <= length && start + length <= |s| ==> r == s[start..start + length]
    ensures length <= 0 ==> r == ""
  {
    var k := SubstrStart(|s|, start);
    var n := if length < 0 then 0 else if length > |s| - k then |s| - k else length;
    s[k..k + n]
  }

  /** `s.substr(start)`: everything from `start` on. */
  function SubstrFrom(s: string, start: int): (r: string)
    ensures 0 <= start <= |s| ==> r == s[start..]
    ensures start >= |s| ==> r == ""
  {
    s[SubstrStart(|s|, start)..]
  }

  /** The clamping `substring` applies to each of its arguments. */
  function SubstringIndex(len: nat, x: int): (k: nat)
    ensures k <= len
    ensures 0 <= x <= len ==> k == x
  {
    if x < 0 then 0 else if x > len then len else x
  }

  /** `s.substring(a, b)`: both ends clamped into the string, swapped when out of order. */
  function Substring(s: string, a: int, b: int): (r: string)
    ensures 0 <= a <= b <= |s| ==> r == s[a..b]
    ensures 0 <= b <= a <= |s| ==> r == s[b..a]
  {
    var x, y := SubstringIndex(|s|, a), SubstringIndex(|s|, b);
    if x <= y then s[x..y] else s[y..x]
  }

  /** `s.replace(/\n/g, '')`: drops every line feed and keeps everything else in order. */
  function StripNewlines(s: string): (r: string)
    ensures '\n' !in r
    ensures forall c :: c in r <==> c in s && c != '\n'
    ensures '\n' !in s ==> r == s
    ensures |r| <= |s|
  {
    if s == [] then []
    else if s[0] == '\n' then StripNewlines(s[1..])
    else [s[0]] + StripNewlines(s[1..])
  }

  /** Removing line feeds works piece by piece: it distributes over concatenation. */
  lemma {:induction false} StripNewlinesAppend(a: string, b: string)
    ensures StripNewlines(a + b) == StripNewlines(a) + StripNewlines(b)
    decreases |a|
  {
    if a != [] {
      assert (a + b)[0] == a[0];
      assert (a + b)[1..] == a[1..] + b;
      StripNewlinesAppend(a[1..], b);
      if a[0] != '\n' {
        calc {
          StripNewlines(a + b);
          [a[0]] + StripNewlines(a[1..] + b);
          [a[0]] + (StripNewlines(a[1..]) + StripNewlines(b));
          ([a[0]] + StripNewlines(a[1..])) + StripNewlines(b);
        }
      }
    } else {
      assert a + b == b;
    }
  }

  /** On one character: a line feed disappears, anything else is kept. */
  lemma StripNewlinesOne(c: char)
    ensures StripNewlines([c]) == if c == '\n' then [] else [c]
  {
  }

  /** The result is shorter than `s` by exactly the number of line feeds in `s`. */
  lemma {:induction false} StripNewlinesCount(s: string)
    ensures |StripNewlines(s)| == |s| - multiset(s)['\n']
    decreases |s|
  {
    if s != [] {
      assert s == [s[0]] + s[1..];
      assert multiset(s) == multiset([s[0]]) + multiset(s[1..]);
      StripNewlinesCount(s[1..]);
    }
  }

  /** `s.replace(/\n/g, ' ')`: every line feed becomes a space, position by position. */
  function NewlinesToSpaces(s: string): (r: string)
    ensures |r| == |s|
    ensures forall i :: 0 <= i < |s| ==> r[i] == if s[i] == '\n' then ' ' else s[i]
  {
    seq(|s|, i requires 0 <= i < |s| => if s[i] == '\n' then ' ' else s[i])
  }

  /** `s.startsWith(prefix)`. */
  predicate StartsWith(s: string, prefix: string) {
    |prefix| <= |s| && s[..|prefix|] == prefix
  }

  /** `toLowerCase` on one character, for the ASCII letters only. */
  function LowerChar(c: char): (d: char)
    ensures 'A' <= c <= 'Z' ==> d != c && 'a' <= d <= 'z'
    ensures !('A' <= c <= 'Z') ==> d == c
  {
    if 'A' <= c <= 'Z' then (c as int + 32) as char else c
  }

  /** `s.toLowerCase()`, character by character. */
  function Lower(s: string): (r: string)
    ensures |r| == |s|
    ensures forall i :: 0 <= i < |s| ==> r[i] == LowerChar(s[i])
  {
    seq(|s|, i requires 0 <= i < |s| => LowerChar(s[i]))
  }

  /** Lower-casing commutes with taking a suffix. */
  lemma LowerSuffix(s: string, k: nat)
    requires k <= |s|
    ensures Lower(s[k..]) == Lower(s)[k..]
  {
  }
}

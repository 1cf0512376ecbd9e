/**
 * The PHP string built-ins the modelled services rely on, over `seq<char>`.
 * Lengths are sequence lengths; byte order is code-point order (UTF-8
 * encoding preserves it).
 */
module Strings {

  import opened Wrappers

  type String = seq<char>

  /** The characters PHP's `trim` strips by default: space, tab, LF, CR, NUL and vertical tab. */
  predicate IsTrimChar(c: char) {
    c == ' ' || c == '\t' || c == '\n' || c == '\r' || c == '\0' || c == '\U{000B}'
  }

  /** The characters matched by the PCRE class `\s`: space, tab, LF, vertical tab, form feed and CR. */
  predicate IsSpace(c: char) {
    c == ' ' || c == '\t' || c == '\n' || c == '\U{000B}' || c == '\U{000C}' || c == '\r'
  }

  function TrimLeft(s: String): (r: String)
    ensures |r| <= |s| && r == s[|s| - |r|..]
    ensures forall i :: 0 <= i < |s| - |r| ==> IsTrimChar(s[i])
    ensures r == [] || !IsTrimChar(r[0])
  {
    if s != [] && IsTrimChar(s[0]) then
      var r := TrimLeft(s[1..]);
      assert s[1..][|s| - 1 - |r|..] == s[|s| - |r|..];
      assert forall i :: 1 <= i < |s| - |r| ==> s[i] == s[1..][i - 1];
      r
    else s
  }

  function TrimRight(s: String): (r: String)
    ensures |r| <= |s| && r == s[..|r|]
    ensures forall i :: |r| <= i < |s| ==> IsTrimChar(s[i])
    ensures r == [] || !IsTrimChar(r[|r| - 1])
  {
    if s != [] && IsTrimChar(s[|s| - 1]) then TrimRight(s[..|s| - 1]) else s
  }

  /** PHP `trim($s)`: the longest infix that neither starts nor ends with a trim character. */
  function Trim(s: String): (r: String)
    ensures |r| <= |s|
    ensures r == [] || (!IsTrimChar(r[0]) && !IsTrimChar(r[|r| - 1]))
    ensures r == [] <==> forall i :: 0 <= i < |s| ==> IsTrimChar(s[i])
  {
    TrimRight(TrimLeft(s))
  }

  /** `r` is `s` with `i` trim characters cut from the front and only trim characters cut from the back. */
  predicate CutAt(s: String, r: String, i: int) {
    0 <= i <= |s| - |r| && r == s[i..i + |r|]
    && (forall k :: 0 <= k < i ==> IsTrimChar(s[k]))
    && (forall k :: i + |r| <= k < |s| ==> IsTrimChar(s[k]))
  }

  /** `trim` only removes characters: the result is the input with trim characters cut from both ends. */
  lemma TrimIsInfix(s: String)
    ensures exists i :: CutAt(s, Trim(s), i)
  {
    var l := TrimLeft(s);
    var r := TrimRight(l);
    var i := |s| - |l|;
    assert l == s[i..];
    assert r == s[i..i + |r|];
    forall k | i + |r| <= k < |s|
      ensures IsTrimChar(s[k])
    {
      assert s[k] == l[k - i];
    }
    assert CutAt(s, r, i) && Trim(s) == r;
  }

  /** PHP `implode($sep, $parts)`. */
  function Join(parts: seq<String>, sep: String): String {
    if |parts| == 0 then []
    else if |parts| == 1 then parts[0]
    else parts[0] + sep + Join(parts[1..], sep)
  }

  /** Adding a part at the end of a non-empty list adds the separator and the part. */
  lemma {:induction false} JoinSnoc(parts: seq<String>, x: String, sep: String)
    requires parts != []
    ensures Join(parts + [x], sep) == Join(parts, sep) + sep + x
  {
    if |parts| > 1 {
      JoinSnoc(parts[1..], x, sep);
      assert (parts + [x])[1..] == parts[1..] + [x];
    }
  }

  /** A join ends with the last part. */
  lemma JoinEndsWithLast(parts: seq<String>, sep: String)
    requires parts != []
    ensures EndsWith(Join(parts, sep), parts[|parts| - 1])
  {
    var x := parts[|parts| - 1];
    if |parts| > 1 {
      var init := parts[..|parts| - 1];
      JoinSnoc(init, x, sep);
      assert init + [x] == parts;
      var j := Join(init, sep) + sep + x;
      assert j[|j| - |x|..] == x;
    }
  }

  lemma EndsWithTransitive(s: String, t: String, u: String)
    requires EndsWith(s, t) && EndsWith(t, u)
    ensures EndsWith(s, u)
  {
    assert s[|s| - |u|..] == t[|t| - |u|..];
  }

  lemma EndsWithAppend(s: String, u: String, v: String)
    requires EndsWith(s, u)
    ensures EndsWith(s + v, u + v)
  {
    assert (s + v)[|s + v| - |u + v|..] == s[|s| - |u|..] + v;
  }

  /** Joining two non-empty lists one after the other puts the separator between their joins. */
  lemma {:induction false} JoinAppend(a: seq<String>, b: seq<String>, sep: String)
    requires a != [] && b != []
    ensures Join(a + b, sep) == Join(a, sep) + sep + Join(b, sep)
  {
    assert (a + b)[1..] == a[1..] + b;
    if |a| > 1 {
      JoinAppend(a[1..], b, sep);
    }
  }

  /** PHP `explode($d, $s)` for a one-character delimiter: the pieces between the delimiters. */
  function Split(s: String, d: char): (r: seq<String>)
    ensures |r| >= 1
    ensures forall i :: 0 <= i < |r| ==> d !in r[i]
    ensures Join(r, [d]) == s
  {
    if s == [] then [[]]
    else
      var rest := Split(s[1..], d);
      if s[0] == d then
        assert Join([[]] + rest, [d]) == [d] + Join(rest, [d]) by {
          assert ([[]] + rest)[1..] == rest;
        }
        [[]] + rest
      else
        var r := [[s[0]] + rest[0]] + rest[1..];
        assert Join(r, [d]) == s by {
          assert r[1..] == rest[1..];
          if |rest| > 1 {
            assert Join(rest, [d]) == rest[0] + [d] + Join(rest[1..], [d]);
          }
        }
        r
  }

  /** Splitting an imploded list of delimiter-free pieces gives the pieces back. */
  lemma {:induction false} SplitJoin(parts: seq<String>, d: char)
    requires |parts| >= 1
    requires forall i :: 0 <= i < |parts| ==> d !in parts[i]
    ensures Split(Join(parts, [d]), d) == parts
  {
    if |parts| == 1 {
      SplitNoDelimiter(parts[0], d);
    } else {
      var tail := Join(parts[1..], [d]);
      SplitJoin(parts[1..], d);
      SplitPrefix(parts[0], tail, d);
    }
  }

  lemma {:induction false} SplitNoDelimiter(s: String, d: char)
    requires d !in s
    ensures Split(s, d) == [s]
  {
    if s != [] {
      SplitNoDelimiter(s[1..], d);
    }
  }

  lemma {:induction false} SplitPrefix(a: String, b: String, d: char)
    requires d !in a
    ensures Split(a + [d] + b, d) == [a] + Split(b, d)
  {
    if a == [] {
      assert a + [d] + b == [d] + b;
      assert ([d] + b)[1..] == b;
    } else {
      assert (a + [d] + b)[1..] == a[1..] + [d] + b;
      SplitPrefix(a[1..], b, d);
      assert [a[0]] + a[1..] == a;
    }
  }

  /** The first index of `c` in `s` (PHP `strpos` with a one-character needle). */
  function IndexOf(s: String, c: char): (r: Option<nat>)
    ensures r.None? <==> c !in s
    ensures r.Some? ==> r.value < |s| && s[r.value] == c && c !in s[..r.value]
  {
    if s == [] then None
    else if s[0] == c then Some(0)
    else
      match IndexOf(s[1..], c)
      case None => None
      case Some(k) =>
        assert s[..k + 1] == [s[0]] + s[1..][..k];
        Some(k + 1)
  }

  /** The first `c` of `s` is still the first one when text is appended. */
  lemma {:induction false} IndexOfPrefix(s: String, t: String, c: char)
    requires c in s
    ensures IndexOf(s + t, c) == IndexOf(s, c)
  {
    if s[0] != c {
      assert (s + t)[1..] == s[1..] + t;
      IndexOfPrefix(s[1..], t, c);
    }
  }

  predicate StartsWith(s: String, p: String) {
    |p| <= |s| && s[..|p|] == p
  }

  predicate EndsWith(s: String, p: String) {
    |p| <= |s| && s[|s| - |p|..] == p
  }

  /** PHP `str_contains($s, $sub)`. */
  predicate Contains(s: String, sub: String)
    decreases |s|
  {
    StartsWith(s, sub) || (s != [] && Contains(s[1..], sub))
  }

  /** PHP `str_replace($search, $replace, $s)`: every non-overlapping occurrence, scanning left to right. */
  function ReplaceAll(s: String, search: String, replace: String): String
    decreases |s|
  {
    if search == [] || s == [] then s
    else if StartsWith(s, search) then replace + ReplaceAll(s[|search|..], search, replace)
    else [s[0]] + ReplaceAll(s[1..], search, replace)
  }

  lemma {:induction false} ReplaceAllAbsent(s: String, search: String, replace: String)
    requires !Contains(s, search)
    ensures ReplaceAll(s, search, replace) == s
  {
    if search != [] && s != [] {
      ReplaceAllAbsent(s[1..], search, replace);
    }
  }

  function LowerChar(c: char): char {
    if 'A' <= c <= 'Z' then (c as int + 32) as char else c
  }

  /** PHP `strtolower`: ASCII letters only. */
  function Lower(s: String): (r: String)
    ensures |r| == |s|
    ensures forall i :: 0 <= i < |s| ==> r[i] == LowerChar(s[i])
  {
    seq(|s|, i requires 0 <= i < |s| => LowerChar(s[i]))
  }

  /** `str_repeat($c, $n)`. */
  function Repeat(c: char, n: nat): (r: String)
    ensures |r| == n && forall i :: 0 <= i < n ==> r[i] == c
  {
    seq(n, _ => c)
  }

  /** Byte-wise comparison `a <= b`, the order of `strcmp`, `sort` and `ksort` on non-numeric strings. */
  predicate AtMost(a: String, b: String) {
    a == [] || (b != [] && (a[0] < b[0] || (a[0] == b[0] && AtMost(a[1..], b[1..]))))
  }

  lemma {:induction false} AtMostTotal(a: String, b: String)
    ensures AtMost(a, b) || AtMost(b, a)
  {
    if a != [] && b != [] && a[0] == b[0] {
      AtMostTotal(a[1..], b[1..]);
    }
  }

  lemma {:induction false} AtMostTransitive(a: String, b: String, c: String)
    requires AtMost(a, b) && AtMost(b, c)
    ensures AtMost(a, c)
  {
    if a != [] && b != [] && c != [] && a[0] == b[0] == c[0] {
      AtMostTransitive(a[1..], b[1..], c[1..]);
    }
  }

  lemma {:induction false} AtMostAntisymmetric(a: String, b: String)
    requires AtMost(a, b) && AtMost(b, a)
    ensures a == b
  {
    if a != [] && b != [] {
      AtMostAntisymmetric(a[1..], b[1..]);
      assert a == [a[0]] + a[1..] && b == [b[0]] + b[1..];
    }
  }

  predicate SortedStrings(s: seq<String>) {
    forall i, j :: 0 <= i < j < |s| ==> AtMost(s[i], s[j])
  }

  lemma ConsSorted(h: String, t: seq<String>)
    requires SortedStrings(t)
    requires forall j :: 0 <= j < |t| ==> AtMost(h, t[j])
    ensures SortedStrings([h] + t)
  {
    forall i, j | 0 <= i < j < |t| + 1 ensures AtMost(([h] + t)[i], ([h] + t)[j]) {
      if i > 0 {
        assert ([h] + t)[i] == t[i - 1];
      }
      assert ([h] + t)[j] == t[j - 1];
    }
  }

  function InsertString(x: String, s: seq<String>): (r: seq<String>)
    requires SortedStrings(s)
    ensures SortedStrings(r)
    ensures multiset(r) == multiset(s) + multiset{x}
    ensures forall i :: 0 <= i < |r| ==> r[i] == x || r[i] in s
  {
    if s == [] then [x]
    else if AtMost(x, s[0]) then
      forall j | 0 <= j < |s| ensures AtMost(x, s[j]) {
        if j > 0 {
          AtMostTransitive(x, s[0], s[j]);
        }
      }
      ConsSorted(x, s);
      [x] + s
    else
      var t := InsertString(x, s[1..]);
      AtMostTotal(x, s[0]);
      forall j | 0 <= j < |t| ensures AtMost(s[0], t[j]) {
        if t[j] != x {
          var k :| 0 <= k < |s[1..]| && s[1..][k] == t[j];
          assert s[k + 1] == t[j];
        }
      }
      ConsSorted(s[0], t);
      assert s == [s[0]] + s[1..];
      [s[0]] + t
  }

  /** PHP `sort($names)` on a list of non-numeric strings: the sorted permutation. */
  function SortStrings(s: seq<String>): (r: seq<String>)
    ensures SortedStrings(r)
    ensures multiset(r) == multiset(s)
  {
    if s == [] then []
    else
      assert s == [s[0]] + s[1..];
      InsertString(s[0], SortStrings(s[1..]))
  }

  /** The decimal digit string of `n`, as PHP interpolates an integer. */
  function NatToString(n: nat): (r: String)
    ensures |r| >= 1
    ensures forall i :: 0 <= i < |r| ==> '0' <= r[i] <= '9'
    ensures DigitsValue(r) == n
    decreases n
  {
    if n < 10 then [('0' as int + n) as char]
    else
      var r := NatToString(n / 10) + [('0' as int + n % 10) as char];
      assert r[..|r| - 1] == NatToString(n / 10);
      r
  }

  /** The number a string of decimal digits denotes. */
  function DigitsValue(s: String): int {
    if s == [] then 0 else DigitsValue(s[..|s| - 1]) * 10 + (s[|s| - 1] as int - '0' as int)
  }
}

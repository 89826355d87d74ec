/** The Python string operations that route parsing relies on: `str.isspace`,
    `str.strip`, `str.split`, `str.join`, `str.replace` and the `in` test,
    written out with Python's semantics (left-to-right, non-overlapping). */
module PyStrings {

  /** `c.isspace()`: the code points Python treats as whitespace. */
  predicate IsSpace(c: char) {
    var n := c as int;
    || n == 0x20
    || 0x09 <= n <= 0x0D
    || 0x1C <= n <= 0x1F
    || n == 0x85 || n == 0xA0 || n == 0x1680
    || 0x2000 <= n <= 0x200A
    || n == 0x2028 || n == 0x2029 || n == 0x202F || n == 0x205F || n == 0x3000
  }

  /** The length of the whitespace run that starts `s`. */
  function LeadingSpace(s: string): (n: nat)
    ensures n <= |s|
  {
    if s != [] && IsSpace(s[0]) then 1 + LeadingSpace(s[1..]) else 0
  }

  /** The length of the whitespace run that ends `s`. */
  function TrailingSpace(s: string): (n: nat)
    ensures n <= |s|
  {
    if s != [] && IsSpace(s[|s| - 1]) then 1 + TrailingSpace(s[..|s| - 1]) else 0
  }

  /** The leading run is all whitespace and is followed by a non-space. */
  lemma {:induction false} LeadingSpaceRun(s: string)
    ensures forall k :: 0 <= k < LeadingSpace(s) ==> IsSpace(s[k])
    ensures LeadingSpace(s) < |s| ==> !IsSpace(s[LeadingSpace(s)])
  {
    if s != [] && IsSpace(s[0]) {
      LeadingSpaceRun(s[1..]);
      forall k | 0 < k < LeadingSpace(s)
        ensures IsSpace(s[k])
      {
        assert s[k] == s[1..][k - 1];
      }
    }
  }

  /** The trailing run is all whitespace and is preceded by a non-space. */
  lemma {:induction false} TrailingSpaceRun(s: string)
    ensures forall k :: |s| - TrailingSpace(s) <= k < |s| ==> IsSpace(s[k])
    ensures TrailingSpace(s) < |s| ==> !IsSpace(s[|s| - TrailingSpace(s) - 1])
  {
    if s != [] && IsSpace(s[|s| - 1]) {
      var t := s[..|s| - 1];
      TrailingSpaceRun(t);
      forall k | |s| - TrailingSpace(s) <= k < |s| - 1
        ensures IsSpace(s[k])
      {
        assert s[k] == t[k];
      }
    }
  }

  /** `s.strip()`: `s` without its leading and trailing whitespace. */
  function Strip(s: string): string
  {
    var t := s[LeadingSpace(s)..];
    t[..|t| - TrailingSpace(t)]
  }

  /** `s.strip()` is the slice of `s` between a whitespace-only prefix and a
      whitespace-only suffix, and neither end of it is whitespace. */
  lemma StripIsTrim(s: string)
    ensures var r, i := Strip(s), LeadingSpace(s);
      && i + |r| <= |s|
      && r == s[i..i + |r|]
      && (forall k :: 0 <= k < i ==> IsSpace(s[k]))
      && (forall k :: i + |r| <= k < |s| ==> IsSpace(s[k]))
      && (r == [] || (!IsSpace(r[0]) && !IsSpace(r[|r| - 1])))
  {
    var i := LeadingSpace(s);
    var t := s[i..];
    var j := TrailingSpace(t);
    var r := t[..|t| - j];
    LeadingSpaceRun(s);
    TrailingSpaceRun(t);
    assert r == s[i..i + |r|];
    TrailingRunInWhole(s, i, j);
    if r != [] {
      assert r[0] == s[i];
      assert r[|r| - 1] == t[|t| - j - 1];
    }
  }

  /** A whitespace run ending the suffix `s[i..]` ends `s` too. */
  lemma TrailingRunInWhole(s: string, i: nat, j: nat)
    requires i <= |s| && j <= |s| - i
    requires forall k :: |s[i..]| - j <= k < |s[i..]| ==> IsSpace(s[i..][k])
    ensures forall k :: |s| - j <= k < |s| ==> IsSpace(s[k])
  {
    forall k | |s| - j <= k < |s|
      ensures IsSpace(s[k])
    {
      assert s[k] == s[i..][k - i];
    }
  }

  /** A whitespace run before text that starts with a non-space is exactly
      the leading run. */
  lemma {:induction false} LeadingSpaceOf(w: string, s: string)
    requires forall k :: 0 <= k < |w| ==> IsSpace(w[k])
    requires s == [] || !IsSpace(s[0])
    ensures LeadingSpace(w + s) == |w|
  {
    if w == [] {
      assert w + s == s;
    } else {
      assert (w + s)[0] == w[0] && (w + s)[1..] == w[1..] + s;
      LeadingSpaceOf(w[1..], s);
    }
  }

  /** A whitespace run after text that ends with a non-space is exactly
      the trailing run. */
  lemma {:induction false} TrailingSpaceOf(s: string, w: string)
    requires forall k :: 0 <= k < |w| ==> IsSpace(w[k])
    requires s == [] || !IsSpace(s[|s| - 1])
    ensures TrailingSpace(s + w) == |w|
    decreases |w|
  {
    if w == [] {
      assert s + w == s;
    } else {
      var u := s + w;
      assert u[|u| - 1] == w[|w| - 1] && u[..|u| - 1] == s + w[..|w| - 1];
      TrailingSpaceOf(s, w[..|w| - 1]);
    }
  }

  /** `(w1 + s + w2).strip()` is `s` when `w1` and `w2` are whitespace and `s`
      neither starts nor ends with whitespace. */
  lemma StripPadded(w1: string, s: string, w2: string)
    requires forall k :: 0 <= k < |w1| ==> IsSpace(w1[k])
    requires forall k :: 0 <= k < |w2| ==> IsSpace(w2[k])
    requires s == [] || (!IsSpace(s[0]) && !IsSpace(s[|s| - 1]))
    ensures Strip(w1 + s + w2) == s
  {
    if s == [] {
      assert w1 + s + w2 == w1 + w2;
      LeadingSpaceOf(w1 + w2, []);
      assert w1 + w2 + [] == w1 + w2;
      assert (w1 + w2)[|w1 + w2|..] == [];
    } else {
      assert w1 + s + w2 == w1 + (s + w2);
      LeadingSpaceOf(w1, s + w2);
      assert (w1 + s + w2)[|w1|..] == s + w2;
      TrailingSpaceOf(s, w2);
      assert (s + w2)[..|s|] == s;
    }
  }

  /** Text that neither starts nor ends with whitespace is its own strip. */
  lemma StripUnpadded(s: string)
    requires s == [] || (!IsSpace(s[0]) && !IsSpace(s[|s| - 1]))
    ensures Strip(s) == s
  {
    StripPadded([], s, []);
    assert [] + s + [] == s;
  }

  /** Stripping keeps only characters of the original. */
  lemma StripChars(s: string, c: char)
    requires c in Strip(s)
    ensures c in s
  {
    StripIsTrim(s);
    var r := Strip(s);
    var i := LeadingSpace(s);
    var k :| 0 <= k < |r| && r[k] == c;
    assert s[i + k] == c;
  }

  /** Stripping twice is stripping once. */
  lemma {:induction false} StripIdempotent(s: string)
    ensures Strip(Strip(s)) == Strip(s)
  {
    StripIsTrim(s);
    var r := Strip(s);
    if r != [] {
      assert IsSpace(r[0]) == false && IsSpace(r[|r| - 1]) == false;
      assert LeadingSpace(r) == 0;
      assert TrailingSpace(r) == 0;
      assert r[0..] == r && r[..|r|] == r;
    }
  }

  /** `s.split(sep)` for a non-empty separator: the pieces between the
      occurrences of `sep`, found left to right without overlap. */
  function Split(s: string, sep: string): (parts: seq<string>)
    requires sep != []
    ensures |parts| >= 1
    decreases |s|
  {
    if s == [] then [[]]
    else if sep <= s then [[]] + Split(s[|sep|..], sep)
    else
      var rest := Split(s[1..], sep);
      [[s[0]] + rest[0]] + rest[1..]
  }

  /** `sep.join(parts)`. */
  function Join(parts: seq<string>, sep: string): string
    requires |parts| >= 1
  {
    if |parts| == 1 then parts[0] else parts[0] + sep + Join(parts[1..], sep)
  }

  /** `s.replace(pattern, replacement)` for a non-empty pattern: every
      occurrence, found left to right without overlap, is replaced. */
  function ReplaceAll(s: string, pattern: string, replacement: string): string
    requires pattern != []
    decreases |s|
  {
    if s == [] then []
    else if pattern <= s then replacement + ReplaceAll(s[|pattern|..], pattern, replacement)
    else [s[0]] + ReplaceAll(s[1..], pattern, replacement)
  }

  /** `pattern in s` for strings: `pattern` occurs somewhere in `s`. */
  predicate IsSubstring(pattern: string, s: string)
    decreases |s|
  {
    pattern <= s || (s != [] && IsSubstring(pattern, s[1..]))
  }

  /** The index of the first occurrence of `c` in `s`. */
  function IndexOf(s: string, c: char): (i: nat)
    requires c in s
    ensures i < |s| && s[i] == c && c !in s[..i]
  {
    if s[0] == c then 0 else 1 + IndexOf(s[1..], c)
  }

  lemma JoinPrependChar(c: char, parts: seq<string>, sep: string)
    requires |parts| >= 1
    ensures Join([[c] + parts[0]] + parts[1..], sep) == [c] + Join(parts, sep)
  {
    var lhs := [[c] + parts[0]] + parts[1..];
    if |parts| > 1 {
      assert lhs[1..] == parts[1..];
    }
  }

  /** Joining the pieces of a split with the separator restores the string. */
  lemma {:induction false} JoinSplit(s: string, sep: string)
    requires sep != []
    ensures Join(Split(s, sep), sep) == s
    decreases |s|
  {
    if s == [] {
    } else if sep <= s {
      JoinSplit(s[|sep|..], sep);
      JoinEmptyFirst(Split(s[|sep|..], sep), sep);
      assert s == sep + s[|sep|..];
    } else {
      JoinSplit(s[1..], sep);
      JoinPrependChar(s[0], Split(s[1..], sep), sep);
      assert s == [s[0]] + s[1..];
    }
  }

  /** Joining after an empty first piece starts with the separator. */
  lemma JoinEmptyFirst(rest: seq<string>, sep: string)
    requires |rest| >= 1
    ensures Join([[]] + rest, sep) == sep + Join(rest, sep)
  {
    assert ([[]] + rest)[1..] == rest;
  }

  /** `s.replace(p, r)` is `r.join(s.split(p))`. */
  lemma {:induction false} ReplaceAllIsSplitJoin(s: string, pattern: string, replacement: string)
    requires pattern != []
    ensures ReplaceAll(s, pattern, replacement) == Join(Split(s, pattern), replacement)
    decreases |s|
  {
    if s == [] {
    } else if pattern <= s {
      ReplaceAllIsSplitJoin(s[|pattern|..], pattern, replacement);
      var rest := Split(s[|pattern|..], pattern);
      assert ([[]] + rest)[1..] == rest;
    } else {
      ReplaceAllIsSplitJoin(s[1..], pattern, replacement);
      JoinPrependChar(s[0], Split(s[1..], pattern), replacement);
    }
  }

  /** Splitting on a character that does not occur gives the whole string. */
  lemma {:induction false} SplitWithout(s: string, c: char)
    requires c !in s
    ensures Split(s, [c]) == [s]
    decreases |s|
  {
    if s != [] {
      assert s[0] != c;
      assert !([c] <= s);
      SplitWithout(s[1..], c);
      assert s == [s[0]] + s[1..];
    }
  }

  /** Splitting at the first occurrence of a character. */
  lemma {:induction false} SplitAtFirst(a: string, c: char, b: string)
    requires c !in a
    ensures Split(a + [c] + b, [c]) == [a] + Split(b, [c])
    decreases |a|
  {
    var s := a + [c] + b;
    if a == [] {
      assert [c] <= s;
      assert s[1..] == b;
    } else {
      assert s[0] == a[0] && a[0] != c;
      assert !([c] <= s);
      assert s[1..] == a[1..] + [c] + b;
      SplitAtFirst(a[1..], c, b);
      assert a == [a[0]] + a[1..];
    }
  }

  /** Splitting on a character gives one more piece than it has occurrences. */
  lemma {:induction false} SplitCount(s: string, c: char)
    ensures |Split(s, [c])| == multiset(s)[c] + 1
    decreases |s|
  {
    if s != [] {
      SplitCount(s[1..], c);
      assert s == [s[0]] + s[1..];
      assert multiset(s) == multiset{s[0]} + multiset(s[1..]);
      if [c] <= s {
        assert s[1..] == s[|[c]|..];
      }
    }
  }

  /** A string with no occurrence of `c` counts zero of it, and conversely. */
  lemma CountZero(s: string, c: char)
    ensures c !in s <==> multiset(s)[c] == 0
  {
  }

  /** Any character of an occurring pattern is a character of the string. */
  lemma {:induction false} SubstringChars(pattern: string, s: string, c: char)
    requires IsSubstring(pattern, s) && c in pattern
    ensures c in s
    decreases |s|
  {
    if pattern <= s {
      var k :| 0 <= k < |pattern| && pattern[k] == c;
      assert s[k] == c;
    } else {
      SubstringChars(pattern, s[1..], c);
      assert s == [s[0]] + s[1..];
    }
  }
}

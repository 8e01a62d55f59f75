/**
 * The Python 2 `str` and `list` operations the converters are built from,
 * with Python's semantics: `sep.join(parts)`, `s.split(c)`, `sub in s`,
 * `s.startswith(p)`, `s.strip()`, `s.lower()` (ASCII, as for a Python 2
 * byte string), `s.replace(old, new)` and `list.index(x)`.
 */
module Strings {

  /** `sep.join(parts)`. */
  function Join(parts: seq<string>, sep: string): string
  {
    if |parts| == 0 then ""
    else if |parts| == 1 then parts[0]
    else parts[0] + sep + Join(parts[1..], sep)
  }

  /** `"".join(parts)`: the parts run together with nothing between them. */
  function Concat(parts: seq<string>): string
  {
    Join(parts, "")
  }

  /** `s.split(sep)` for a one-character separator: never empty, and no part holds the separator. */
  function Split(s: string, sep: char): (parts: seq<string>)
    ensures |parts| >= 1
    ensures forall k :: 0 <= k < |parts| ==> sep !in parts[k]
    decreases |s|
  {
    if |s| == 0 then [""]
    else
      var rest := Split(s[1..], sep);
      if s[0] == sep then [""] + rest
      else [[s[0]] + rest[0]] + rest[1..]
  }

  /** Joining the parts of a split with the same separator gives back the string. */
  lemma {:induction false} JoinSplit(s: string, sep: char)
    ensures Join(Split(s, sep), [sep]) == s
    decreases |s|
  {
    if |s| > 0 {
      var rest := Split(s[1..], sep);
      JoinSplit(s[1..], sep);
      if s[0] == sep {
        assert Split(s, sep) == [""] + rest;
        assert ([""] + rest)[1..] == rest;
      } else {
        var parts := [[s[0]] + rest[0]] + rest[1..];
        assert Split(s, sep) == parts;
        if |rest| > 1 {
          assert parts[1..] == rest[1..];
        }
      }
    }
  }

  /** A string without the separator splits into itself. */
  lemma {:induction false} SplitNoSeparator(s: string, sep: char)
    requires sep !in s
    ensures Split(s, sep) == [s]
    decreases |s|
  {
    if |s| > 0 {
      SplitNoSeparator(s[1..], sep);
      assert [s[0]] + s[1..] == s;
    }
  }

  /** Splitting `a + sep + b` where `a` has no separator peels `a` off the front. */
  lemma {:induction false} SplitCons(a: string, sep: char, b: string)
    requires sep !in a
    ensures Split(a + [sep] + b, sep) == [a] + Split(b, sep)
    decreases |a|
  {
    var s := a + [sep] + b;
    if |a| == 0 {
      assert s[0] == sep && s[1..] == b;
    } else {
      assert s[0] == a[0];
      assert s[1..] == a[1..] + [sep] + b;
      SplitCons(a[1..], sep, b);
      assert [a[0]] + a[1..] == a;
    }
  }

  /** Splitting a join of separator-free parts gives back the parts. */
  lemma {:induction false} SplitJoin(parts: seq<string>, sep: char)
    requires |parts| >= 1
    requires forall k :: 0 <= k < |parts| ==> sep !in parts[k]
    ensures Split(Join(parts, [sep]), sep) == parts
    decreases |parts|
  {
    if |parts| == 1 {
      SplitNoSeparator(parts[0], sep);
    } else {
      SplitJoin(parts[1..], sep);
      SplitCons(parts[0], sep, Join(parts[1..], [sep]));
      assert [parts[0]] + parts[1..] == parts;
    }
  }

  /** A string holding the separator splits into at least two parts. */
  lemma SplitHasSeparator(s: string, sep: char)
    requires sep in s
    ensures |Split(s, sep)| >= 2
  {
    JoinSplit(s, sep);
  }

  /** `s` with every occurrence of `c` taken out. */
  function Remove(s: string, c: char): (r: string)
    ensures c !in r
    ensures forall x :: x in r <==> x in s && x != c
    decreases |s|
  {
    if |s| == 0 then ""
    else
      assert s == [s[0]] + s[1..];
      if s[0] == c then Remove(s[1..], c) else [s[0]] + Remove(s[1..], c)
  }

  /** Removing a character a string does not hold changes nothing; removing one it holds shortens it. */
  lemma {:induction false} RemoveLength(s: string, c: char)
    ensures |Remove(s, c)| <= |s|
    ensures c !in s ==> Remove(s, c) == s
    ensures c in s ==> |Remove(s, c)| < |s|
    decreases |s|
  {
    if |s| > 0 {
      RemoveLength(s[1..], c);
      assert s == [s[0]] + s[1..];
    }
  }

  /** `"".join(parts)` is the first part followed by the others run together. */
  lemma ConcatCons(parts: seq<string>)
    requires |parts| >= 1
    ensures Concat(parts) == parts[0] + Concat(parts[1..])
  {
  }

  /** `"".join(s.split(c))` drops the separators and keeps every other character, in order. */
  lemma {:induction false} ConcatSplit(s: string, c: char)
    ensures Concat(Split(s, c)) == Remove(s, c)
    decreases |s|
  {
    if |s| > 0 {
      var rest := Split(s[1..], c);
      ConcatSplit(s[1..], c);
      ConcatCons(rest);
      if s[0] == c {
        assert Split(s, c) == [""] + rest;
        ConcatCons([""] + rest);
        assert ([""] + rest)[1..] == rest;
      } else {
        var parts := [[s[0]] + rest[0]] + rest[1..];
        assert Split(s, c) == parts;
        ConcatCons(parts);
        assert parts[1..] == rest[1..];
      }
    }
  }

  /** A split at the first separator: the text before it, then the split of the text after it. */
  lemma SplitAtFirst(s: string, sep: char)
    requires sep in s
    ensures var k := IndexOf(s, sep);
      0 <= k < |s| && sep !in s[..k] &&
      Split(s, sep) == [s[..k]] + Split(s[k + 1..], sep)
  {
    IndexOfSpec(s, sep);
    var k := IndexOf(s, sep);
    assert s == s[..k] + [sep] + s[k + 1..];
    SplitCons(s[..k], sep, s[k + 1..]);
  }

  /** The position Python's `row[i]` reads for `-n <= i < n`: a negative index counts from the end. */
  function PyIndex(i: int, n: int): int
  {
    if i < 0 then n + i else i
  }

  /** A one-character substring test is a membership test. */
  lemma {:induction false} ContainsChar(s: string, c: char)
    ensures Contains(s, [c]) <==> c in s
    decreases |s|
  {
    if |s| > 0 {
      ContainsChar(s[1..], c);
      assert s == [s[0]] + s[1..];
    }
  }

  /** `s.startswith(prefix)`. */
  predicate StartsWith(s: string, prefix: string)
  {
    |prefix| <= |s| && s[..|prefix|] == prefix
  }

  /** `sub in s`: `sub` occurs somewhere in `s` (the empty string occurs everywhere). */
  predicate Contains(s: string, sub: string)
    decreases |s|
  {
    StartsWith(s, sub) || (|s| > 0 && Contains(s[1..], sub))
  }

  /** `sub` occurs in `s` starting at position `k`. */
  predicate OccursAt(s: string, sub: string, k: int)
  {
    0 <= k && k + |sub| <= |s| && s[k..k + |sub|] == sub
  }

  /** `Contains` is the textbook "occurs at some position" relation. */
  lemma {:induction false} ContainsAt(s: string, sub: string)
    ensures Contains(s, sub) <==> exists k :: OccursAt(s, sub, k)
    decreases |s|
  {
    if StartsWith(s, sub) {
      assert OccursAt(s, sub, 0);
    }
    if |s| > 0 {
      ContainsAt(s[1..], sub);
      if Contains(s[1..], sub) {
        var k :| OccursAt(s[1..], sub, k);
        assert s[1..][k..k + |sub|] == s[k + 1..k + 1 + |sub|];
        assert OccursAt(s, sub, k + 1);
      }
      if exists k :: OccursAt(s, sub, k) {
        var k :| OccursAt(s, sub, k);
        if k > 0 {
          assert s[1..][k - 1..k - 1 + |sub|] == s[k..k + |sub|];
          assert OccursAt(s[1..], sub, k - 1);
        }
      }
    }
  }

  /** A string holds each of its suffixes. */
  lemma ContainsSuffix(prefix: string, sub: string)
    ensures Contains(prefix + sub, sub)
  {
    assert (prefix + sub)[|prefix|..|prefix| + |sub|] == sub;
    assert OccursAt(prefix + sub, sub, |prefix|);
    ContainsAt(prefix + sub, sub);
  }

  /** A string holding `sub` is at least as long as `sub`. */
  lemma {:induction false} ContainsLength(s: string, sub: string)
    requires Contains(s, sub)
    ensures |sub| <= |s|
    decreases |s|
  {
    if !StartsWith(s, sub) {
      ContainsLength(s[1..], sub);
    }
  }

  /** Python's whitespace characters, removed by `strip()`. */
  predicate IsSpace(c: char)
  {
    c == ' ' || c == '\t' || c == '\n' || c == '\r' || c == '\U{000B}' || c == '\U{000C}'
  }

  /** `s.lstrip()`: the longest suffix not starting with whitespace. */
  function StripLeft(s: string): (r: string)
    ensures |r| == 0 || !IsSpace(r[0])
    decreases |s|
  {
    if |s| > 0 && IsSpace(s[0]) then StripLeft(s[1..]) else s
  }

  /** `s.rstrip()`: the longest prefix not ending with whitespace. */
  function StripRight(s: string): (r: string)
    ensures |r| == 0 || !IsSpace(r[|r| - 1])
    decreases |s|
  {
    if |s| > 0 && IsSpace(s[|s| - 1]) then StripRight(s[..|s| - 1]) else s
  }

  /** `rstrip` removes characters only from the end, and only whitespace. */
  lemma {:induction false} StripRightPrefix(s: string)
    ensures |StripRight(s)| <= |s| && StripRight(s) == s[..|StripRight(s)|]
    ensures forall k :: |StripRight(s)| <= k < |s| ==> IsSpace(s[k])
    decreases |s|
  {
    if |s| > 0 && IsSpace(s[|s| - 1]) {
      StripRightPrefix(s[..|s| - 1]);
    }
  }

  /** `lstrip` removes characters only from the start, and only whitespace. */
  lemma {:induction false} StripLeftSuffix(s: string)
    ensures |StripLeft(s)| <= |s| && StripLeft(s) == s[|s| - |StripLeft(s)|..]
    ensures forall k :: 0 <= k < |s| - |StripLeft(s)| ==> IsSpace(s[k])
    decreases |s|
  {
    if |s| > 0 && IsSpace(s[0]) {
      StripLeftSuffix(s[1..]);
    }
  }

  /** `s.strip()`. */
  function Strip(s: string): (r: string)
    ensures |r| == 0 || (!IsSpace(r[0]) && !IsSpace(r[|r| - 1]))
  {
    var l := StripLeft(s);
    StripRightPrefix(l);
    StripRight(l)
  }

  /** Stripping a string whose ends are not whitespace changes nothing. */
  lemma StripNoEdgeSpace(s: string)
    requires |s| > 0 && !IsSpace(s[0]) && !IsSpace(s[|s| - 1])
    ensures Strip(s) == s
  {
  }

  /** Stripping twice is stripping once. */
  lemma StripIdempotent(s: string)
    ensures Strip(Strip(s)) == Strip(s)
  {
    if |Strip(s)| > 0 {
      StripNoEdgeSpace(Strip(s));
    }
  }

  /** ASCII lower-casing of one character. */
  function LowerChar(c: char): char
  {
    if 'A' <= c <= 'Z' then (c as int + 32) as char else c
  }

  /** `s.lower()` on a Python 2 byte string: only the letters A to Z change. */
  function Lower(s: string): (r: string)
    ensures |r| == |s|
    ensures forall k :: 0 <= k < |s| ==> r[k] == LowerChar(s[k])
  {
    seq(|s|, k requires 0 <= k < |s| => LowerChar(s[k]))
  }

  /** `s.replace(pat, rep)`: every non-overlapping occurrence, scanning left to right. */
  function Replace(s: string, pat: string, rep: string): (r: string)
    requires |pat| > 0
    ensures !Contains(s, pat) ==> r == s
    decreases |s|
  {
    if |s| == 0 then ""
    else if StartsWith(s, pat) then rep + Replace(s[|pat|..], pat, rep)
    else [s[0]] + Replace(s[1..], pat, rep)
  }

  /** The first position at or after `i` that holds `x`, or -1. */
  function IndexFrom<T(==)>(s: seq<T>, x: T, i: nat): int
    decreases |s| - i
  {
    if i >= |s| then -1
    else if s[i] == x then i
    else IndexFrom(s, x, i + 1)
  }

  lemma {:induction false} IndexFromFirst<T>(s: seq<T>, x: T, i: nat)
    ensures var r := IndexFrom(s, x, i);
      (r == -1 || (i <= r < |s| && s[r] == x)) &&
      (r == -1 ==> forall j :: i <= j < |s| ==> s[j] != x) &&
      (r >= 0 ==> forall j :: i <= j < r ==> s[j] != x)
    decreases |s| - i
  {
    if i < |s| && s[i] != x {
      IndexFromFirst(s, x, i + 1);
    }
  }

  /** `list.index(x)`, with -1 where Python raises ValueError (its meaning: `IndexOfSpec`). */
  function IndexOf<T(==)>(s: seq<T>, x: T): (r: int)
    ensures -1 <= r < |s|
  {
    IndexFromFirst(s, x, 0);
    IndexFrom(s, x, 0)
  }

  /** `list.index` finds the first position holding `x`, and fails exactly when `x` is absent. */
  lemma IndexOfSpec<T>(s: seq<T>, x: T)
    ensures IndexOf(s, x) == -1 <==> x !in s
    ensures IndexOf(s, x) >= 0 ==> s[IndexOf(s, x)] == x && x !in s[..IndexOf(s, x)]
  {
    IndexFromFirst(s, x, 0);
  }

  lemma {:induction false} IndexFromAt<T>(s: seq<T>, x: T, i: nat, k: nat)
    requires i <= k < |s| && s[k] == x
    requires forall j :: i <= j < k ==> s[j] != x
    ensures IndexFrom(s, x, i) == k
    decreases k - i
  {
    if i < k {
      IndexFromAt(s, x, i + 1, k);
    }
  }

  /** Past a first element that is not `x`, `list.index` finds `x` one further along than in the tail. */
  lemma IndexOfCons<T>(s: seq<T>, x: T)
    requires |s| > 0 && s[0] != x && x in s
    ensures IndexOf(s, x) == 1 + IndexOf(s[1..], x)
  {
    var k := IndexOf(s[1..], x);
    IndexOfSpec(s[1..], x);
    assert x in s[1..] by {
      var j :| 0 <= j < |s| && s[j] == x;
      assert s[1..][j - 1] == x;
    }
    assert k >= 0;
    forall j | 0 <= j < k + 1
      ensures s[j] != x
    {
      if j > 0 {
        assert s[j] == s[1..][..k][j - 1];
      }
    }
    IndexFromAt(s, x, 0, k + 1);
  }

  /** No value occurs twice. */
  predicate Distinct<T(==)>(s: seq<T>)
  {
    forall i, j :: 0 <= i < j < |s| ==> s[i] != s[j]
  }

  /** In a list without repeats, `list.index` finds every element at its own position. */
  lemma IndexOfDistinct<T>(s: seq<T>, k: nat)
    requires Distinct(s) && k < |s|
    ensures IndexOf(s, s[k]) == k
  {
    IndexFromAt(s, s[k], 0, k);
  }
}

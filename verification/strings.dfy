/** The handful of Python `str` operations the service relies on, over `seq<char>`. */
module Strings {

  import opened Wrappers

  /** Python's `s.startswith(p)`. */
  predicate StartsWith(s: string, p: string) {
    |p| <= |s| && s[..|p|] == p
  }

  /** Python's `s.endswith(p)`. */
  predicate EndsWith(s: string, p: string) {
    |p| <= |s| && s[|s| - |p|..] == p
  }

  /** Python's `s.endswith(tuple(ps))`: some suffix in `ps` matches. */
  predicate EndsWithAny(s: string, ps: seq<string>) {
    exists k :: 0 <= k < |ps| && EndsWith(s, ps[k])
  }

  /** `t` occurs in `s` at index `i`. */
  predicate OccursAt(s: string, t: string, i: nat) {
    i + |t| <= |s| && s[i..i + |t|] == t
  }

  /** Python's `t in s` on strings, as a left-to-right scan. */
  predicate Contains(s: string, t: string)
    decreases |s|
  {
    StartsWith(s, t) || (|s| > 0 && Contains(s[1..], t))
  }

  /** The scan finds `t` exactly when `t` occurs at some index of `s`. */
  lemma {:induction false} ContainsIff(s: string, t: string)
    ensures Contains(s, t) <==> exists i: nat :: OccursAt(s, t, i)
    decreases |s|
  {
    if |s| == 0 {
      if StartsWith(s, t) {
        assert OccursAt(s, t, 0);
      }
      if exists i: nat :: OccursAt(s, t, i) {
        var i: nat :| OccursAt(s, t, i);
        assert StartsWith(s, t);
      }
    } else {
      ContainsIff(s[1..], t);
      if StartsWith(s, t) {
        assert OccursAt(s, t, 0);
      }
      if Contains(s[1..], t) {
        var i: nat :| OccursAt(s[1..], t, i);
        assert s[1..][i..i + |t|] == s[i + 1..i + 1 + |t|];
        assert OccursAt(s, t, i + 1);
      }
      if exists i: nat :: OccursAt(s, t, i) {
        var i: nat :| OccursAt(s, t, i);
        if i == 0 {
          assert StartsWith(s, t);
        } else {
          assert s[1..][i - 1..i - 1 + |t|] == s[i..i + |t|];
          assert OccursAt(s[1..], t, i - 1);
        }
      }
    }
  }

  /** Python's `str.lower()` restricted to ASCII: `A`..`Z` become `a`..`z`. */
  function LowerChar(c: char): char {
    if 'A' <= c <= 'Z' then (c as int + 32) as char else c
  }

  function Lower(s: string): (r: string)
    ensures |r| == |s|
    ensures forall i :: 0 <= i < |s| ==> r[i] == LowerChar(s[i])
  {
    seq(|s|, i requires 0 <= i < |s| => LowerChar(s[i]))
  }

  /** The characters Python's `str.isspace()` accepts, which `str.strip()` removes. */
  predicate IsSpace(c: char) {
    var n := c as int;
    (0x09 <= n <= 0x0D) || (0x1C <= n <= 0x20) || n == 0x85 || n == 0xA0 || n == 0x1680
    || (0x2000 <= n <= 0x200A) || n == 0x2028 || n == 0x2029 || n == 0x202F || n == 0x205F
    || n == 0x3000
  }

  /** Lower-casing never turns a space into a non-space or back. */
  lemma LowerKeepsSpaces(c: char)
    ensures IsSpace(LowerChar(c)) <==> IsSpace(c)
  {
  }

  /** Python's `s.lstrip()`. */
  function TrimStart(s: string): (r: string)
    ensures |r| <= |s| && r == s[|s| - |r|..]
    ensures forall k :: 0 <= k < |s| - |r| ==> IsSpace(s[k])
    ensures |r| > 0 ==> !IsSpace(r[0])
    decreases |s|
  {
    if |s| > 0 && IsSpace(s[0]) then TrimStart(s[1..]) else s
  }

  /** Python's `s.rstrip()`. */
  function TrimEnd(s: string): (r: string)
    ensures |r| <= |s| && r == s[..|r|]
    ensures forall k :: |r| <= k < |s| ==> IsSpace(s[k])
    ensures |r| > 0 ==> !IsSpace(r[|r| - 1])
    decreases |s|
  {
    if |s| > 0 && IsSpace(s[|s| - 1]) then TrimEnd(s[..|s| - 1]) else s
  }

  /** Python's `s.strip()`. */
  function Strip(s: string): string {
    TrimEnd(TrimStart(s))
  }

  /** The stripped string is the slice of `s` between a run of leading and a run
      of trailing spaces. */
  lemma StripBounds(s: string) returns (a: nat, b: nat)
    ensures a <= b <= |s| && Strip(s) == s[a..b]
    ensures forall k :: 0 <= k < a ==> IsSpace(s[k])
    ensures forall k :: b <= k < |s| ==> IsSpace(s[k])
  {
    var front := TrimStart(s);
    a := |s| - |front|;
    b := a + |TrimEnd(front)|;
    assert forall k :: b <= k < |s| ==> s[k] == front[k - a];
  }

  /** Lower-casing commutes with slicing. */
  lemma LowerSlice(s: string, a: nat, b: nat)
    requires a <= b <= |s|
    ensures Lower(s[a..b]) == Lower(s)[a..b]
  {
  }

  /** An occurrence inside a slice is an occurrence in the whole string. */
  lemma OccursInSlice(x: string, a: nat, b: nat, t: string, j: nat)
    requires a <= b <= |x|
    requires OccursAt(x[a..b], t, j)
    ensures OccursAt(x, t, a + j)
  {
    assert |x[a..b]| == b - a;
    var u, v := x[a..b][j..j + |t|], x[a + j..a + j + |t|];
    assert forall k :: 0 <= k < |t| ==> u[k] == v[k];
    assert u == v;
  }

  /** An occurrence of a non-empty, space-free token lies inside the space padding. */
  lemma OccursWithinPadding(x: string, a: nat, b: nat, t: string, i: nat)
    requires a <= b <= |x|
    requires |t| > 0 && forall k :: 0 <= k < |t| ==> !IsSpace(t[k])
    requires forall k :: 0 <= k < a ==> IsSpace(x[k])
    requires forall k :: b <= k < |x| ==> IsSpace(x[k])
    requires OccursAt(x, t, i)
    ensures a <= i && i + |t| <= b
    ensures OccursAt(x[a..b], t, i - a)
  {
    assert x[i] == x[i..i + |t|][0] == t[0];
    assert x[i + |t| - 1] == x[i..i + |t|][|t| - 1] == t[|t| - 1];
    var u, v := x[a..b][i - a..i - a + |t|], x[i..i + |t|];
    assert forall k :: 0 <= k < |t| ==> u[k] == v[k];
    assert u == v;
  }

  /** Padding with spaces does not change whether a space-free, non-empty `t` occurs. */
  lemma ContainsPaddedIff(x: string, a: nat, b: nat, t: string)
    requires a <= b <= |x|
    requires |t| > 0 && forall k :: 0 <= k < |t| ==> !IsSpace(t[k])
    requires forall k :: 0 <= k < a ==> IsSpace(x[k])
    requires forall k :: b <= k < |x| ==> IsSpace(x[k])
    ensures Contains(x[a..b], t) <==> Contains(x, t)
  {
    ContainsIff(x[a..b], t);
    ContainsIff(x, t);
    if Contains(x[a..b], t) {
      var j: nat :| OccursAt(x[a..b], t, j);
      OccursInSlice(x, a, b, t, j);
    }
    if Contains(x, t) {
      var i: nat :| OccursAt(x, t, i);
      OccursWithinPadding(x, a, b, t, i);
    }
  }

  /** Whether a space-free token occurs in the lower-cased, stripped text does not
      depend on the strip. */
  lemma {:induction false} ContainsLowerStripIff(s: string, t: string)
    requires |t| > 0 && forall k :: 0 <= k < |t| ==> !IsSpace(t[k])
    ensures Contains(Lower(Strip(s)), t) <==> Contains(Lower(s), t)
  {
    var a, b := StripBounds(s);
    LowerSlice(s, a, b);
    var x := Lower(s);
    forall k | 0 <= k < a
      ensures IsSpace(x[k])
    {
      LowerKeepsSpaces(s[k]);
    }
    forall k | b <= k < |x|
      ensures IsSpace(x[k])
    {
      LowerKeepsSpaces(s[k]);
    }
    ContainsPaddedIff(x, a, b, t);
  }

  /** Python's `s.split(c)` with an explicit one-character separator: the pieces
      between separators, including empty ones. */
  function Split(s: string, c: char): (r: seq<string>)
    ensures |r| >= 1
    ensures forall k :: 0 <= k < |r| ==> c !in r[k]
    decreases |s|
  {
    if |s| == 0 then [""]
    else
      var rest := Split(s[1..], c);
      if s[0] == c then [""] + rest
      else [[s[0]] + rest[0]] + rest[1..]
  }

  /** Python's `c.join(parts)`. */
  function Join(parts: seq<string>, c: char): string
    requires |parts| >= 1
    decreases |parts|
  {
    if |parts| == 1 then parts[0] else parts[0] + [c] + Join(parts[1..], c)
  }

  /** Joining the pieces of a split gives back the original string. */
  lemma {:induction false} JoinSplit(s: string, c: char)
    ensures Join(Split(s, c), c) == s
    decreases |s|
  {
    if |s| > 0 {
      var rest := Split(s[1..], c);
      JoinSplit(s[1..], c);
      if s[0] == c {
        assert Split(s, c)[1..] == rest;
      } else {
        var r := Split(s, c);
        assert r[1..] == rest[1..];
        if |rest| == 1 {
          assert Join(r, c) == [s[0]] + rest[0];
        } else {
          assert Join(r, c) == [s[0]] + rest[0] + [c] + Join(rest[1..], c);
        }
      }
    }
  }

  /** A string without the separator is a single piece. */
  lemma {:induction false} SplitNoSeparator(a: string, c: char)
    requires c !in a
    ensures Split(a, c) == [a]
    decreases |a|
  {
    if |a| > 0 {
      SplitNoSeparator(a[1..], c);
      assert [a[0]] + a[1..] == a;
    }
  }

  /** A separator-free head followed by the separator splits off as the first piece. */
  lemma {:induction false} SplitAfterHead(a: string, c: char, t: string)
    requires c !in a
    ensures Split(a + [c] + t, c) == [a] + Split(t, c)
    decreases |a|
  {
    if |a| == 0 {
      assert a + [c] + t == [c] + t;
      assert ([c] + t)[1..] == t;
    } else {
      var s := a + [c] + t;
      assert s[0] == a[0];
      assert s[1..] == a[1..] + [c] + t;
      SplitAfterHead(a[1..], c, t);
      assert [a[0]] + a[1..] == a;
    }
  }

  /** Splitting a join of separator-free pieces gives back the pieces. */
  lemma {:induction false} SplitJoin(parts: seq<string>, c: char)
    requires |parts| >= 1
    requires forall k :: 0 <= k < |parts| ==> c !in parts[k]
    ensures Split(Join(parts, c), c) == parts
    decreases |parts|
  {
    if |parts| == 1 {
      SplitNoSeparator(parts[0], c);
    } else {
      SplitJoin(parts[1..], c);
      SplitAfterHead(parts[0], c, Join(parts[1..], c));
      assert [parts[0]] + parts[1..] == parts;
    }
  }

  /** The first piece of a split is the prefix of `s` up to the first separator. */
  lemma {:induction false} FirstPieceIsPrefix(s: string, c: char)
    ensures StartsWith(s, Split(s, c)[0])
    ensures |Split(s, c)| == 1 <==> c !in s
    ensures c in s ==> s[|Split(s, c)[0]|] == c
    ensures c !in s ==> Split(s, c) == [s]
    decreases |s|
  {
    if c !in s {
      SplitNoSeparator(s, c);
    }
    if |s| > 0 {
      FirstPieceIsPrefix(s[1..], c);
      if s[0] != c {
        var rest := Split(s[1..], c);
        assert s[..|rest[0]| + 1] == [s[0]] + s[1..][..|rest[0]|];
        assert c in s <==> c in s[1..];
        if c in s {
          assert s[|rest[0]| + 1] == s[1..][|rest[0]|];
        }
      }
    }
  }

  /** A character absent from `s` is absent from every piece of its split. */
  lemma {:induction false} SplitKeepsAbsent(s: string, c: char, d: char)
    requires d !in s
    ensures forall k :: 0 <= k < |Split(s, c)| ==> d !in Split(s, c)[k]
    decreases |s|
  {
    if |s| > 0 {
      assert d !in s[1..] by {
        assert forall k :: 0 <= k < |s| - 1 ==> s[1..][k] == s[k + 1];
      }
      SplitKeepsAbsent(s[1..], c, d);
    }
  }

  /** Python's `s.split(c)[k]`: `None` where Python raises `IndexError`. */
  function Field(s: string, c: char, k: nat): (r: Option<string>)
  {
    var parts := Split(s, c);
    if k < |parts| then Some(parts[k]) else None
  }
}

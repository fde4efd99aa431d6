/**
 * The two Foundation/stdlib string operations `init(databaseURL:)` chains:
 * `replacingOccurrences(of:with: "")` and `split(whereSeparator:)` with its default
 * of omitting empty pieces.
 */
module Text {
  /** p occurs in s starting at position i. */
  predicate OccursAt(s: string, p: string, i: nat)
  {
    i + |p| <= |s| && s[i..i + |p|] == p
  }

  /** `s.replacingOccurrences(of: p, with: "")`: a left-to-right scan dropping each non-overlapping occurrence of p. */
  function RemoveAll(s: string, p: string): (r: string)
    requires p != []
    ensures |r| <= |s|
  {
    if |s| < |p| then s
    else if s[..|p|] == p then RemoveAll(s[|p|..], p)
    else [s[0]] + RemoveAll(s[1..], p)
  }

  /** A string in which p does not occur is left as it is. */
  lemma {:induction false} RemoveAllWithoutOccurrence(s: string, p: string)
    requires p != []
    requires forall i: nat | i + |p| <= |s| :: !OccursAt(s, p, i)
    ensures RemoveAll(s, p) == s
  {
    if |s| >= |p| {
      assert !OccursAt(s, p, 0);
      assert s[..|p|] == s[0..0 + |p|];
      forall i: nat | i + |p| <= |s[1..]| ensures !OccursAt(s[1..], p, i) {
        assert !OccursAt(s, p, i + 1);
        assert s[1..][i..i + |p|] == s[i + 1..i + 1 + |p|];
      }
      RemoveAllWithoutOccurrence(s[1..], p);
    }
  }

  /** A leading occurrence is dropped. */
  lemma RemoveAllLeading(p: string, s: string)
    requires p != []
    ensures RemoveAll(p + s, p) == RemoveAll(s, p)
  {
    assert (p + s)[..|p|] == p;
    assert (p + s)[|p|..] == s;
  }

  /** Nothing can be dropped from a part that does not contain the first character of p. */
  lemma {:induction false} RemoveAllAfter(a: string, b: string, p: string)
    requires p != [] && p[0] !in a
    ensures RemoveAll(a + b, p) == a + RemoveAll(b, p)
  {
    if a == [] {
      assert a + b == b;
    } else {
      var s := a + b;
      assert s[0] == a[0] && s[1..] == a[1..] + b;
      if |s| < |p| {
        assert RemoveAll(b, p) == b;
      } else {
        assert s[..|p|][0] != p[0];
        assert RemoveAll(s, p) == [a[0]] + RemoveAll(a[1..] + b, p);
        RemoveAllAfter(a[1..], b, p);
        assert a == [a[0]] + a[1..];
      }
    }
  }

  /** Where p does not occur at the start, the scan keeps the first character. */
  lemma RemoveAllStep(s: string, p: string)
    requires p != [] && s != [] && !OccursAt(s, p, 0)
    ensures RemoveAll(s, p) == [s[0]] + RemoveAll(s[1..], p)
  {
    if |s| < |p| {
      assert [s[0]] + s[1..] == s;
    } else {
      assert s[..|p|] == s[0..0 + |p|];
    }
  }

  /** The first occurrence of p, after a part in which p does not start, is dropped and the scan goes on after it. */
  lemma {:induction false} RemoveAllFirstOccurrence(a: string, p: string, b: string)
    requires p != []
    requires forall i: nat | i < |a| :: !OccursAt(a + p + b, p, i)
    ensures RemoveAll(a + p + b, p) == a + RemoveAll(b, p)
  {
    if a == [] {
      assert a + p + b == p + b;
      RemoveAllLeading(p, b);
    } else {
      var s := a + p + b;
      var t := a[1..] + p + b;
      assert s[1..] == t;
      RemoveAllStep(s, p);
      forall i: nat | i < |a[1..]| ensures !OccursAt(t, p, i) {
        assert !OccursAt(s, p, i + 1);
        assert t[i..i + |p|] == s[i + 1..i + 1 + |p|];
      }
      RemoveAllFirstOccurrence(a[1..], p, b);
      assert s[0] == a[0];
      assert a == [a[0]] + a[1..];
    }
  }

  predicate IsSeparator(c: char)
  {
    c == '@' || c == '/' || c == ':'
  }

  predicate NoSeparator(s: string)
  {
    forall i | 0 <= i < |s| :: !IsSeparator(s[i])
  }

  /** The length of the leading run of non-separators. */
  function RunLength(s: string): (n: nat)
    ensures n <= |s| && NoSeparator(s[..n])
    ensures n < |s| ==> IsSeparator(s[n])
  {
    if s == [] || IsSeparator(s[0]) then 0
    else
      var n := 1 + RunLength(s[1..]);
      assert s[..n] == [s[0]] + s[1..][..n - 1];
      n
  }

  /** `split { ["@", "/", ":"].contains(String($0)) }`: the maximal non-empty runs of non-separators, in order. */
  function Split(s: string): (r: seq<string>)
    ensures forall k | 0 <= k < |r| :: r[k] != [] && NoSeparator(r[k])
    decreases |s|
  {
    if s == [] then []
    else if IsSeparator(s[0]) then Split(s[1..])
    else
      var n := RunLength(s);
      [s[..n]] + Split(s[n..])
  }

  function Concat(ts: seq<string>): (r: string)
  {
    if ts == [] then [] else ts[0] + Concat(ts[1..])
  }

  /** s with its separators taken out. */
  function WithoutSeparators(s: string): (r: string)
  {
    if s == [] then [] else (if IsSeparator(s[0]) then [] else [s[0]]) + WithoutSeparators(s[1..])
  }

  lemma {:induction false} WithoutSeparatorsAppend(a: string, b: string)
    ensures WithoutSeparators(a + b) == WithoutSeparators(a) + WithoutSeparators(b)
  {
    if a == [] {
      assert a + b == b;
    } else {
      assert (a + b)[0] == a[0] && (a + b)[1..] == a[1..] + b;
      WithoutSeparatorsAppend(a[1..], b);
    }
  }

  lemma {:induction false} WithoutSeparatorsOfRun(s: string)
    requires NoSeparator(s)
    ensures WithoutSeparators(s) == s
  {
    if s != [] {
      WithoutSeparatorsOfRun(s[1..]);
    }
  }

  /** The tokens, put back together, are the input with every separator dropped and nothing else. */
  lemma {:induction false} SplitLosesOnlySeparators(s: string)
    ensures Concat(Split(s)) == WithoutSeparators(s)
    decreases |s|
  {
    if s != [] {
      if IsSeparator(s[0]) {
        SplitLosesOnlySeparators(s[1..]);
      } else {
        var n := RunLength(s);
        var r := Split(s);
        assert r == [s[..n]] + Split(s[n..]);
        assert r[0] == s[..n] && r[1..] == Split(s[n..]);
        SplitLosesOnlySeparators(s[n..]);
        assert s == s[..n] + s[n..];
        WithoutSeparatorsAppend(s[..n], s[n..]);
        WithoutSeparatorsOfRun(s[..n]);
      }
    }
  }

  /** A run with no separator in it is one token. */
  lemma SplitOfRun(a: string)
    requires a != [] && NoSeparator(a)
    ensures Split(a) == [a]
  {
    var n := RunLength(a);
    assert n == |a|;
    assert a[..n] == a;
  }

  /** A run followed by a separator yields that run as the first token. */
  lemma SplitOfRunThen(a: string, sep: char, b: string)
    requires a != [] && NoSeparator(a) && IsSeparator(sep)
    ensures Split(a + [sep] + b) == [a] + Split(b)
  {
    var s := a + [sep] + b;
    assert s[0] == a[0];
    var n := RunLength(s);
    assert s[|a|] == sep;
    assert NoSeparator(s[..|a|]) by { assert s[..|a|] == a; }
    assert n == |a|;
    assert s[..n] == a;
    assert s[n..] == [sep] + b;
    assert Split([sep] + b) == Split(b) by { assert ([sep] + b)[1..] == b; }
  }
}

/**
 * The few Python string operations the generator is built from: substring search,
 * `str.split(sep)`, `str.split(sep, 1)`, `sep.join(parts)`, `str.startswith`,
 * `str.count` and `str.strip()` used as a truth value.
 */
module Strings {
  import opened Wrappers

  /** `sub` occurs in `s` at position `i`. */
  ghost predicate Occurs(s: string, sub: string, i: int)
  {
    0 <= i && i + |sub| <= |s| && s[i..i + |sub|] == sub
  }

  /** Position of the first occurrence of `sub` in `s` (what `str.find` reports). */
  function Find(s: string, sub: string): (r: Option<nat>)
    ensures r.Some? ==> Occurs(s, sub, r.value)
    ensures r.Some? ==> forall j :: 0 <= j < r.value ==> !Occurs(s, sub, j)
    ensures r.None? ==> forall j :: 0 <= j ==> !Occurs(s, sub, j)
    decreases |s|
  {
    if |s| < |sub| then None
    else if s[..|sub|] == sub then Some(0)
    else
      var r := Find(s[1..], sub);
      assert forall j :: 1 <= j ==> (Occurs(s, sub, j) <==> Occurs(s[1..], sub, j - 1)) by {
        forall j | 1 <= j ensures Occurs(s, sub, j) <==> Occurs(s[1..], sub, j - 1) {
          if j + |sub| <= |s| {
            assert s[1..][j - 1..j - 1 + |sub|] == s[j..j + |sub|];
          }
        }
      }
      assert !Occurs(s, sub, 0);
      match r
      case None => None
      case Some(i) => Some(i + 1)
  }

  /** Python's `sub in s`. */
  predicate Contains(s: string, sub: string)
  {
    Find(s, sub).Some?
  }

  lemma ContainsIff(s: string, sub: string)
    ensures Contains(s, sub) <==> exists j :: Occurs(s, sub, j)
  {
  }

  /** For a one-character separator, substring search is character membership. */
  lemma ContainsChar(s: string, c: char)
    ensures Contains(s, [c]) <==> c in s
  {
    if c in s {
      var j :| 0 <= j < |s| && s[j] == c;
      assert s[j..j + 1] == [c];
      assert Occurs(s, [c], j);
    }
    if Contains(s, [c]) {
      var j := Find(s, [c]).value;
      assert s[j..j + 1][0] == s[j];
    }
  }

  /** Python's `s.split(sep)` for a non-empty separator. */
  function Split(s: string, sep: string): (r: seq<string>)
    requires sep != ""
    ensures |r| >= 1
    decreases |s|
  {
    match Find(s, sep)
    case None => [s]
    case Some(i) => [s[..i]] + Split(s[i + |sep|..], sep)
  }

  /** Python's `s.split(sep, 1)`: one part, or the parts before and after the first `sep`. */
  function SplitOnce(s: string, sep: string): (r: seq<string>)
    requires sep != ""
    ensures 1 <= |r| <= 2
    ensures r[0] == Split(s, sep)[0]
    ensures |r| == 2 <==> |Split(s, sep)| >= 2
  {
    match Find(s, sep)
    case None => [s]
    case Some(i) => [s[..i], s[i + |sep|..]]
  }

  /** Python's `sep.join(xs)`. */
  function Join(sep: string, xs: seq<string>): string
    decreases |xs|
  {
    if |xs| == 0 then ""
    else if |xs| == 1 then xs[0]
    else xs[0] + sep + Join(sep, xs[1..])
  }

  /** Python's `s.count(sub)`: non-overlapping occurrences, scanned from the left. */
  function Count(s: string, sub: string): nat
    requires sub != ""
    decreases |s|
  {
    match Find(s, sub)
    case None => 0
    case Some(i) => 1 + Count(s[i + |sub|..], sub)
  }

  /** Python's `s.startswith(prefix)`. */
  predicate StartsWith(s: string, prefix: string)
  {
    |prefix| <= |s| && s[..|prefix|] == prefix
  }

  lemma StartsWithAppend(a: string, b: string)
    ensures StartsWith(a + b, a)
  {
    assert (a + b)[..|a|] == a;
  }

  /** Python's `" " * n`. */
  function Spaces(n: nat): (r: string)
    ensures |r| == n && forall i :: 0 <= i < n ==> r[i] == ' '
  {
    seq(n, _ => ' ')
  }

  /** The characters `str.strip()` removes (the ASCII ones). */
  predicate IsSpace(c: char)
  {
    c == ' ' || c == '\t' || c == '\n' || c == '\r' || c == '\U{b}' || c == '\U{c}'
    || ('\U{1c}' <= c <= '\U{1f}')
  }

  /** `not s.strip()`: nothing but whitespace is left once the ends are stripped. */
  predicate IsBlank(s: string)
  {
    forall i :: 0 <= i < |s| ==> IsSpace(s[i])
  }

  // ------------------------------------------------------------------
  // Properties
  // ------------------------------------------------------------------

  /** Joining the parts of a split with the same separator gives the string back. */
  lemma {:induction false} JoinSplit(s: string, sep: string)
    requires sep != ""
    ensures Join(sep, Split(s, sep)) == s
    decreases |s|
  {
    match Find(s, sep)
    case None =>
    case Some(i) =>
      var rest := s[i + |sep|..];
      var parts := Split(rest, sep);
      JoinSplit(rest, sep);
      var all := [s[..i]] + parts;
      assert Split(s, sep) == all;
      assert all[1..] == parts;
      assert Join(sep, all) == s[..i] + sep + Join(sep, parts);
      assert s == s[..i] + s[i..i + |sep|] + rest;
  }

  /** No part of a split contains the separator. */
  lemma {:induction false} SplitPartsFree(s: string, sep: string)
    requires sep != ""
    ensures forall k :: 0 <= k < |Split(s, sep)| ==> !Contains(Split(s, sep)[k], sep)
    decreases |s|
  {
    match Find(s, sep)
    case None =>
    case Some(i) =>
      var rest := s[i + |sep|..];
      SplitPartsFree(rest, sep);
      var head := s[..i];
      if Contains(head, sep) {
        var j := Find(head, sep).value;
        assert head[j..j + |sep|] == s[j..j + |sep|];
        assert Occurs(s, sep, j);
      }
  }

  /** Each part of a split is at most as long as the whole. */
  lemma {:induction false} SplitPartsShorter(s: string, sep: string)
    requires sep != ""
    ensures forall k :: 0 <= k < |Split(s, sep)| ==> |Split(s, sep)[k]| <= |s|
    decreases |s|
  {
    match Find(s, sep)
    case None =>
    case Some(i) => SplitPartsShorter(s[i + |sep|..], sep);
  }

  /** A string with at least two parts spells out its first two parts around the separator. */
  lemma SplitPrefix(s: string, sep: string)
    requires sep != "" && |Split(s, sep)| >= 2
    ensures |Split(s, sep)[0]| + |sep| <= |s|
    ensures s[..|Split(s, sep)[0]| + |sep|] == Split(s, sep)[0] + sep
    ensures Split(Split(s, sep)[0] + sep + s[|Split(s, sep)[0]| + |sep|..], sep)[1..] == Split(s[|Split(s, sep)[0]| + |sep|..], sep)
  {
    var i := Find(s, sep).value;
    assert s[..i + |sep|] == s[..i] + s[i..i + |sep|];
    assert s[..i] + sep + s[i + |sep|..] == s;
  }

  /** Splitting at the first of several separators leaves at least two separators' worth of length. */
  lemma SplitTwoPrefix(s: string, sep: string)
    requires sep != "" && |Split(s, sep)| >= 3
    ensures |Split(s, sep)[0]| + |sep| + |Split(s, sep)[1]| + |sep| <= |s|
  {
    var i := Find(s, sep).value;
    var rest := s[i + |sep|..];
    assert Split(rest, sep) == Split(s, sep)[1..];
    SplitPrefix(rest, sep);
  }

  /** `str.count` is one less than the number of parts `str.split` makes. */
  lemma {:induction false} CountSplit(s: string, sub: string)
    requires sub != ""
    ensures Count(s, sub) + 1 == |Split(s, sub)|
    decreases |s|
  {
    match Find(s, sub)
    case None =>
    case Some(i) => CountSplit(s[i + |sub|..], sub);
  }

  /** With a one-character separator the first occurrence is right after a part free of it. */
  lemma FindAfterFree(x: string, c: char, rest: string)
    requires c !in x
    ensures Find(x + [c] + rest, [c]) == Some(|x|)
  {
    var s := x + [c] + rest;
    assert s[|x|..|x| + 1] == [c];
    assert Occurs(s, [c], |x|);
    forall j | 0 <= j < |x| ensures !Occurs(s, [c], j) {
      assert s[j..j + 1][0] == x[j];
    }
  }

  /** Splitting a join of parts free of a one-character separator gives the parts back. */
  lemma {:induction false} SplitJoin(xs: seq<string>, c: char)
    requires |xs| >= 1
    requires forall k :: 0 <= k < |xs| ==> c !in xs[k]
    ensures Split(Join([c], xs), [c]) == xs
    decreases |xs|
  {
    if |xs| == 1 {
      ContainsChar(xs[0], c);
    } else {
      var rest := Join([c], xs[1..]);
      SplitJoin(xs[1..], c);
      FindAfterFree(xs[0], c, rest);
      var s := xs[0] + [c] + rest;
      assert s[..|xs[0]|] == xs[0];
      assert s[|xs[0]| + 1..] == rest;
    }
  }

  /** A separator character already in `a` is found in `a + rest` where it is found in `a`. */
  lemma FindInPrefix(a: string, c: char, rest: string)
    requires Contains(a, [c])
    ensures Find(a + rest, [c]) == Find(a, [c])
  {
    var s := a + rest;
    var j := Find(a, [c]).value;
    assert Occurs(a, [c], j);
    assert a[j..j + 1] == s[j..j + 1];
    assert Occurs(s, [c], j);
    forall k | 0 <= k < j ensures !Occurs(s, [c], k) {
      assert !Occurs(a, [c], k);
      assert a[k..k + 1] == s[k..k + 1];
    }
  }

  /** Splitting at a one-character separator distributes over a join at that separator. */
  lemma {:induction false} SplitAppend(a: string, c: char, b: string)
    ensures Split(a + [c] + b, [c]) == Split(a, [c]) + Split(b, [c])
    decreases |a|
  {
    var s := a + [c] + b;
    ContainsChar(a, c);
    if c !in a {
      FindAfterFree(a, c, b);
      assert s[..|a|] == a && s[|a| + 1..] == b;
    } else {
      var j := Find(a, [c]).value;
      FindInPrefix(a, c, [c] + b);
      assert s == a + ([c] + b);
      assert Find(s, [c]) == Some(j);
      var tail := a[j + 1..];
      assert s[..j] == a[..j];
      assert s[j + 1..] == tail + [c] + b;
      assert Split(s, [c]) == [a[..j]] + Split(tail + [c] + b, [c]);
      assert Split(a, [c]) == [a[..j]] + Split(tail, [c]);
      SplitAppend(tail, c, b);
    }
  }

  /** Joining two non-empty runs of parts puts one separator between their joins. */
  lemma {:induction false} JoinAppend(sep: string, xs: seq<string>, ys: seq<string>)
    requires |xs| >= 1 && |ys| >= 1
    ensures Join(sep, xs + ys) == Join(sep, xs) + sep + Join(sep, ys)
    decreases |xs|
  {
    if |xs| == 1 {
      assert (xs + ys)[1..] == ys;
    } else {
      JoinAppend(sep, xs[1..], ys);
      assert (xs + ys)[1..] == xs[1..] + ys;
    }
  }
}

/**
 String operations shared by the model: prefix and substring tests, the
 left-to-right, non-overlapping search-and-replace that Python's
 `str.replace` and JavaScript's `String.prototype.replace` with a global
 pattern perform, decimal rendering of integers, and JavaScript `parseInt`.
 */
module Strings {
  import opened Wrappers

  /** Whitespace as matched by a regular-expression `\s` class, restricted to ASCII. */
  predicate IsSpace(c: char) {
    c == ' ' || c == '\t' || c == '\n' || c == '\r' || c == '\U{000B}' || c == '\U{000C}'
  }

  predicate IsDigit(c: char) { '0' <= c <= '9' }

  predicate IsAsciiLetter(c: char) { 'a' <= c <= 'z' || 'A' <= c <= 'Z' }

  predicate IsAsciiAlnum(c: char) { IsAsciiLetter(c) || IsDigit(c) }

  /** ASCII lower-casing of one character. */
  function LowerChar(c: char): (r: char)
    ensures 'A' <= c <= 'Z' ==> 'a' <= r <= 'z' && r as int == c as int + 32
    ensures !('A' <= c <= 'Z') ==> r == c
  {
    if 'A' <= c <= 'Z' then (c as int + 32) as char else c
  }

  function Lower(s: string): (r: string)
    ensures |r| == |s|
    ensures forall i :: 0 <= i < |s| ==> r[i] == LowerChar(s[i])
  {
    seq(|s|, i requires 0 <= i < |s| => LowerChar(s[i]))
  }

  predicate StartsWith(s: string, p: string) {
    |p| <= |s| && s[..|p|] == p
  }

  predicate EndsWith(s: string, p: string) {
    |p| <= |s| && s[|s| - |p|..] == p
  }

  /** `t` occurs in `s` starting at index `j`. */
  predicate OccursAt(s: string, t: string, j: int) {
    0 <= j && j + |t| <= |s| && s[j..j + |t|] == t
  }

  /** `t` occurs somewhere in `s` (JavaScript `includes`, Python `in`). */
  predicate Contains(s: string, t: string) {
    exists j | 0 <= j <= |s| :: OccursAt(s, t, j)
  }

  lemma StartsWithContains(s: string, t: string)
    requires StartsWith(s, t)
    ensures Contains(s, t)
  {
    assert OccursAt(s, t, 0);
  }

  /** The index of the first occurrence of `t` in `s` (`IndexOfFirst` states it). */
  function IndexOf(s: string, t: string): (r: Option<nat>)
    ensures r.Some? ==> r.value + |t| <= |s|
    decreases |s|
  {
    if |s| < |t| then None
    else if s[..|t|] == t then Some(0)
    else
      match IndexOf(s[1..], t)
      case None => None
      case Some(k) => Some(k + 1)
  }

  /** Occurrences in `s[1..]` are the occurrences in `s` after index 0, shifted by one. */
  lemma OccursShift(s: string, t: string, j: int)
    requires |s| >= 1 && 1 <= j
    ensures OccursAt(s, t, j) <==> OccursAt(s[1..], t, j - 1)
  {
    if j + |t| <= |s| {
      assert s[1..][j - 1..j - 1 + |t|] == s[j..j + |t|];
    }
  }

  /** `IndexOf` finds an occurrence, there is none before it, and it finds nothing only when there is none. */
  lemma {:induction false} IndexOfFirst(s: string, t: string)
    ensures IndexOf(s, t).Some? ==> OccursAt(s, t, IndexOf(s, t).value)
    ensures IndexOf(s, t).Some? ==> forall j :: 0 <= j < IndexOf(s, t).value ==> !OccursAt(s, t, j)
    ensures IndexOf(s, t).None? <==> !Contains(s, t)
    decreases |s|
  {
    if |s| < |t| {
      assert forall j :: 0 <= j <= |s| ==> !OccursAt(s, t, j);
    } else if s[..|t|] == t {
      assert OccursAt(s, t, 0);
    } else {
      IndexOfFirst(s[1..], t);
      assert !OccursAt(s, t, 0);
      forall j | 1 <= j ensures OccursAt(s, t, j) <==> OccursAt(s[1..], t, j - 1) {
        OccursShift(s, t, j);
      }
      if IndexOf(s[1..], t).None? {
        forall j | 0 <= j <= |s| ensures !OccursAt(s, t, j) {
          if j >= 1 {
            assert !OccursAt(s[1..], t, j - 1);
          }
        }
      } else {
        var k := IndexOf(s[1..], t).value;
        assert IndexOf(s, t) == Some(k + 1);
        assert OccursAt(s[1..], t, k);
        assert OccursAt(s, t, k + 1);
        assert 0 <= k + 1 <= |s|;
        forall j | 0 <= j < k + 1 ensures !OccursAt(s, t, j) {
          if j >= 1 {
            assert !OccursAt(s[1..], t, j - 1);
          }
        }
      }
    }
  }

  /** A prefix that ends before the first occurrence holds no occurrence. */
  lemma PrefixBeforeFirstFree(s: string, t: string, i: nat)
    requires i <= |s|
    requires forall j :: 0 <= j < i ==> !OccursAt(s, t, j)
    requires |t| > 0
    ensures !Contains(s[..i], t)
  {
    forall j | OccursAt(s[..i], t, j)
      ensures false
    {
      assert s[..i][j..j + |t|] == s[j..j + |t|];
      assert OccursAt(s, t, j);
    }
  }

  /**
   The pieces between the successive leftmost non-overlapping occurrences
   of `sep` in `s`.
   */
  function Split(s: string, sep: string): (parts: seq<string>)
    requires |sep| > 0
    ensures |parts| >= 1
    decreases |s|
  {
    match IndexOf(s, sep)
    case None => [s]
    case Some(i) => [s[..i]] + Split(s[i + |sep|..], sep)
  }

  /** No piece of a split holds the separator. */
  lemma {:induction false} SplitPiecesFree(s: string, sep: string)
    requires |sep| > 0
    ensures forall k :: 0 <= k < |Split(s, sep)| ==> !Contains(Split(s, sep)[k], sep)
    decreases |s|
  {
    IndexOfFirst(s, sep);
    match IndexOf(s, sep)
    case None =>
    case Some(i) =>
      var rest := s[i + |sep|..];
      SplitPiecesFree(rest, sep);
      PrefixBeforeFirstFree(s, sep, i);
      SplitUnfold(s, sep, i);
      var parts := Split(s, sep);
      forall k | 0 <= k < |parts| ensures !Contains(parts[k], sep) {
        if k > 0 {
          assert parts[k] == Split(rest, sep)[k - 1];
        }
      }
  }

  function Join(parts: seq<string>, sep: string): string
    decreases |parts|
  {
    if |parts| == 0 then ""
    else if |parts| == 1 then parts[0]
    else parts[0] + sep + Join(parts[1..], sep)
  }

  lemma JoinCons(head: string, tail: seq<string>, sep: string)
    requires |tail| >= 1
    ensures Join([head] + tail, sep) == head + sep + Join(tail, sep)
  {
    assert ([head] + tail)[1..] == tail;
  }

  /** A string is the text before an occurrence, the occurrence, and the text after it. */
  lemma Recompose(s: string, t: string, i: nat)
    requires OccursAt(s, t, i)
    ensures s == s[..i] + t + s[i + |t|..]
  {
    assert s == s[..i] + s[i..i + |t|] + s[i + |t|..];
  }

  lemma SplitUnfold(s: string, sep: string, i: nat)
    requires |sep| > 0 && IndexOf(s, sep) == Some(i)
    ensures Split(s, sep) == [s[..i]] + Split(s[i + |sep|..], sep)
  {
  }

  /** `sep` sits right before the last `|last|` characters of `s`. */
  predicate SepBefore(s: string, last: string, sep: string) {
    |last| + |sep| <= |s| && s[|s| - |last| - |sep|..|s| - |last|] == sep
  }

  /** A join of two parts or more is the join of all but the last, the separator, and the last part. */
  lemma {:induction false} JoinSnoc(parts: seq<string>, sep: string)
    requires |parts| >= 2
    ensures Join(parts, sep) == Join(parts[..|parts| - 1], sep) + sep + parts[|parts| - 1]
    decreases |parts|
  {
    var n := |parts|;
    var init := parts[..n - 1];
    if n == 2 {
      assert init == [parts[0]];
    } else {
      var tail := parts[1..];
      JoinSnoc(tail, sep);
      assert tail[..|tail| - 1] == init[1..];
      assert tail[|tail| - 1] == parts[n - 1];
      assert Join(init, sep) == init[0] + sep + Join(init[1..], sep);
    }
  }

  /** The last `|b|` characters of `a + b`, and what comes right before them. */
  lemma SuffixOfConcat(a: string, sep: string, b: string)
    ensures EndsWith(a + sep + b, b)
    ensures SepBefore(a + sep + b, b, sep)
  {
    var x := a + sep + b;
    assert x[|x| - |b|..] == b;
    assert x[|x| - |b| - |sep|..|x| - |b|] == sep;
  }

  /**
   The last piece of a split ends the text; when the text holds the
   separator, the separator sits right before that piece, and otherwise the
   piece is the whole text. This is `split(sep).pop()`.
   */
  lemma SplitLast(s: string, sep: string)
    requires |sep| > 0
    ensures var parts := Split(s, sep);
      && EndsWith(s, parts[|parts| - 1])
      && (!Contains(s, sep) ==> parts[|parts| - 1] == s)
      && (Contains(s, sep) ==> SepBefore(s, parts[|parts| - 1], sep))
  {
    var parts := Split(s, sep);
    IndexOfFirst(s, sep);
    match IndexOf(s, sep)
    case None =>
      assert parts == [s];
      assert s[|s| - |s|..] == s;
    case Some(i) =>
      SplitUnfold(s, sep, i);
      SplitJoin(s, sep);
      JoinSnoc(parts, sep);
      SuffixOfConcat(Join(parts[..|parts| - 1], sep), sep, parts[|parts| - 1]);
  }

  lemma {:induction false} SplitJoin(s: string, sep: string)
    requires |sep| > 0
    ensures Join(Split(s, sep), sep) == s
    decreases |s|
  {
    var f := IndexOf(s, sep);
    if f.Some? {
      var i := f.value;
      var rest := s[i + |sep|..];
      SplitJoin(rest, sep);
      SplitUnfold(s, sep, i);
      JoinCons(s[..i], Split(rest, sep), sep);
      IndexOfFirst(s, sep);
      Recompose(s, sep, i);
    }
  }

  /** Dropping a prefix of the first part of a concatenation. */
  lemma SuffixOfAppend(x: string, y: string, n: nat)
    requires n <= |x|
    ensures (x + y)[n..] == x[n..] + y
  {
  }

  lemma StartsWithAppend(a: string, b: string, p: string)
    requires StartsWith(a, p)
    ensures StartsWith(a + b, p)
  {
    assert (a + b)[..|p|] == a[..|p|];
  }

  /** An occurrence in the second piece is an occurrence in the whole. */
  lemma ContainsAfter(a: string, b: string, t: string)
    requires Contains(b, t)
    ensures Contains(a + b, t)
  {
    var j :| 0 <= j <= |b| && OccursAt(b, t, j);
    assert (a + b)[|a| + j..|a| + j + |t|] == b[j..j + |t|];
    assert OccursAt(a + b, t, |a| + j);
  }

  /** An occurrence inside the middle piece is an occurrence of the whole. */
  lemma ContainsWithin(a: string, b: string, c: string, t: string)
    requires Contains(b, t)
    ensures Contains(a + b + c, t)
  {
    var j :| 0 <= j <= |b| && OccursAt(b, t, j);
    var s := a + b + c;
    assert s[|a| + j..|a| + j + |t|] == b[j..j + |t|];
    assert OccursAt(s, t, |a| + j);
  }

  /** Text without an occurrence neither starts with one nor has one after its first character. */
  lemma NotContainsTail(s: string, t: string)
    requires |s| > 0
    ensures !Contains(s, t) ==> !StartsWith(s, t) && !Contains(s[1..], t)
  {
    if StartsWith(s, t) {
      StartsWithContains(s, t);
    }
    if Contains(s[1..], t) {
      assert [s[0]] + s[1..] == s;
      ContainsAfter([s[0]], s[1..], t);
    }
  }

  lemma {:induction false} JoinContainsPart(parts: seq<string>, sep: string, i: nat)
    requires i < |parts|
    ensures Contains(Join(parts, sep), parts[i])
    decreases i
  {
    if i == 0 {
      var s := Join(parts, sep);
      assert s[..|parts[0]|] == parts[0];
      assert OccursAt(s, parts[0], 0);
    } else {
      JoinContainsPart(parts[1..], sep, i - 1);
      ContainsWithin(parts[0] + sep, Join(parts[1..], sep), "", parts[i]);
      assert parts[0] + sep + Join(parts[1..], sep) + "" == Join(parts, sep);
    }
  }

  /** Replace every occurrence of `pat` by `rep`, scanning left to right. */
  function ReplaceAll(s: string, pat: string, rep: string): string
    requires |pat| > 0
  {
    Join(Split(s, pat), rep)
  }

  /**
   Every occurrence is replaced: the input and the output are the same
   occurrence-free pieces, joined by `pat` and by `rep` respectively.
   */
  lemma ReplaceAllPieces(s: string, pat: string, rep: string)
    requires |pat| > 0
    ensures var parts := Split(s, pat);
      && Join(parts, pat) == s
      && ReplaceAll(s, pat, rep) == Join(parts, rep)
      && forall k :: 0 <= k < |parts| ==> !Contains(parts[k], pat)
  {
    SplitJoin(s, pat);
    SplitPiecesFree(s, pat);
  }

  lemma {:induction false} ReplaceAllAbsent(s: string, pat: string, rep: string)
    requires |pat| > 0 && !Contains(s, pat)
    ensures ReplaceAll(s, pat, rep) == s
  {
    IndexOfFirst(s, pat);
    assert Split(s, pat) == [s];
  }

  /** `c` does not occur in `s`. */
  predicate CharFree(s: string, c: char) {
    forall i | 0 <= i < |s| :: s[i] != c
  }

  /** Text without braces. */
  predicate BraceFree(s: string) {
    CharFree(s, '{') && CharFree(s, '}')
  }

  lemma CharFreeConcat(a: string, b: string, c: char)
    ensures CharFree(a + b, c) <==> CharFree(a, c) && CharFree(b, c)
  {
    if CharFree(a, c) && CharFree(b, c) {
      forall i | 0 <= i < |a + b| ensures (a + b)[i] != c {
        if i >= |a| {
          assert (a + b)[i] == b[i - |a|];
        }
      }
    }
    if CharFree(a + b, c) {
      forall i | 0 <= i < |a| ensures a[i] != c {
        assert (a + b)[i] == a[i];
      }
      forall i | 0 <= i < |b| ensures b[i] != c {
        assert (a + b)[|a| + i] == b[i];
      }
    }
  }

  /** Text without one of the characters of `t` holds no occurrence of `t`. */
  lemma CharFreeAbsent(s: string, t: string, k: nat)
    requires k < |t| && CharFree(s, t[k])
    ensures !Contains(s, t)
  {
    forall j | 0 <= j <= |s|
      ensures !OccursAt(s, t, j)
    {
      if j + |t| <= |s| {
        assert s[j..j + |t|][k] == s[j + k];
      }
    }
  }

  /** The first occurrence of `p` in `b + p + r` is right after `b` when `b` holds no first character of `p`. */
  lemma IndexOfLead(b: string, p: string, r: string)
    requires |p| > 0 && CharFree(b, p[0])
    ensures IndexOf(b + p + r, p) == Some(|b|)
  {
    var s := b + p + r;
    IndexOfFirst(s, p);
    assert s[|b|..|b| + |p|] == p;
    assert OccursAt(s, p, |b|);
    forall j | 0 <= j < |b|
      ensures !OccursAt(s, p, j)
    {
      assert s[j] == b[j];
      if j + |p| <= |s| {
        assert s[j..j + |p|][0] == s[j];
      }
    }
  }

  /** Replacing: the text up to the first occurrence, the replacement, and the rest replaced. */
  lemma ReplaceStep(b: string, p: string, r: string, rep: string)
    requires |p| > 0 && CharFree(b, p[0])
    ensures ReplaceAll(b + p + r, p, rep) == b + rep + ReplaceAll(r, p, rep)
  {
    var s := b + p + r;
    IndexOfLead(b, p, r);
    SplitUnfold(s, p, |b|);
    assert s[..|b|] == b;
    assert s[|b| + |p|..] == r;
    JoinCons(b, Split(r, p), rep);
  }

  lemma ReplaceNone(s: string, p: string, rep: string)
    requires |p| > 0 && CharFree(s, p[0])
    ensures ReplaceAll(s, p, rep) == s
  {
    CharFreeAbsent(s, p, 0);
    ReplaceAllAbsent(s, p, rep);
  }

  /** The one occurrence of `p` in `x + p + y` is replaced when neither side holds the first character of `p`. */
  lemma ReplaceAt(x: string, p: string, y: string, rep: string)
    requires |p| > 0 && CharFree(x, p[0]) && CharFree(y, p[0])
    ensures ReplaceAll(x + p + y, p, rep) == x + rep + y
  {
    ReplaceStep(x, p, y, rep);
    ReplaceNone(y, p, rep);
  }

  /** An occurrence with none before it is the one `IndexOf` finds. */
  lemma IndexOfIs(s: string, t: string, i: nat)
    requires OccursAt(s, t, i) && forall j :: 0 <= j < i ==> !OccursAt(s, t, j)
    ensures IndexOf(s, t) == Some(i)
  {
    IndexOfFirst(s, t);
    assert Contains(s, t);
  }

  /** Replacing in the pattern itself gives the replacement. */
  lemma ReplaceWhole(p: string, rep: string)
    requires |p| > 0
    ensures ReplaceAll(p, p, rep) == rep
  {
    IndexOfIs(p, p, 0);
    SplitUnfold(p, p, 0);
    assert p[|p|..] == "";
    ReplaceAllAbsent("", p, rep);
    assert Split("", p) == [""];
    JoinCons("", [""], rep);
  }

  /** No occurrence of `p` starts in `a` and ends in `b`. */
  predicate NoStraddle(a: string, b: string, p: string) {
    forall m :: 0 <= m < |a| < m + |p| ==> !OccursAt(a + b, p, m)
  }

  /** Occurrences in `a + b` at or after `n` are occurrences in the text after `n`. */
  lemma OccursAfter(s: string, t: string, n: nat, m: nat)
    requires n <= |s|
    ensures OccursAt(s[n..], t, m) <==> OccursAt(s, t, n + m)
  {
    if n + m + |t| <= |s| {
      assert s[n..][m..m + |t|] == s[n + m..n + m + |t|];
    }
  }

  /** Occurrences that end by `|a|` are the same in `a` and in `a + b`. */
  lemma OccursBefore(a: string, b: string, t: string, m: nat)
    requires m + |t| <= |a|
    ensures OccursAt(a + b, t, m) <==> OccursAt(a, t, m)
  {
    assert (a + b)[m..m + |t|] == a[m..m + |t|];
  }

  /** When `a` holds `p`, the concatenation's first occurrence is the one in `a`. */
  lemma ReplaceConcatFound(a: string, b: string, p: string, rep: string, i: nat)
    requires |p| > 0 && NoStraddle(a, b, p) && IndexOf(a, p) == Some(i)
    ensures IndexOf(a + b, p) == Some(i)
    ensures (a + b)[..i] == a[..i] && (a + b)[i + |p|..] == a[i + |p|..] + b
    ensures NoStraddle(a[i + |p|..], b, p)
  {
    var s := a + b;
    IndexOfFirst(a, p);
    OccursBefore(a, b, p, i);
    forall j | 0 <= j < i
      ensures !OccursAt(s, p, j)
    {
      if j + |p| <= |a| {
        OccursBefore(a, b, p, j);
      }
    }
    IndexOfIs(s, p, i);
    var a2 := a[i + |p|..];
    assert s[i + |p|..] == a2 + b;
    forall m | 0 <= m < |a2| < m + |p|
      ensures !OccursAt(a2 + b, p, m)
    {
      OccursAfter(s, p, i + |p|, m);
    }
  }

  /** A character where no occurrence starts is copied, and the rest is replaced. */
  lemma ReplaceCons(c: char, t: string, p: string, rep: string)
    requires |p| > 0 && !StartsWith([c] + t, p)
    ensures ReplaceAll([c] + t, p, rep) == [c] + ReplaceAll(t, p, rep)
  {
    var s := [c] + t;
    assert s[1..] == t;
    match IndexOf(t, p)
    case None =>
      assert Split(s, p) == [s];
      assert Split(t, p) == [t];
    case Some(k) =>
      assert IndexOf(s, p) == Some(k + 1);
      SplitUnfold(s, p, k + 1);
      SplitUnfold(t, p, k);
      assert s[..k + 1] == [c] + t[..k];
      assert s[k + 1 + |p|..] == t[k + |p|..];
      JoinCons(s[..k + 1], Split(t[k + |p|..], p), rep);
      JoinCons(t[..k], Split(t[k + |p|..], p), rep);
      Regroup3([c], t[..k], rep, Join(Split(t[k + |p|..], p), rep));
  }

  /** When `a` holds no `p` and no occurrence straddles, `a` is copied and `b` replaced. */
  lemma {:induction false} ReplaceConcatFree(a: string, b: string, p: string, rep: string)
    requires |p| > 0 && NoStraddle(a, b, p) && IndexOf(a, p).None?
    ensures ReplaceAll(a + b, p, rep) == a + ReplaceAll(b, p, rep)
    decreases |a|
  {
    if |a| == 0 {
      assert a + b == b;
    } else {
      var s := a + b;
      var a1 := a[1..];
      assert s == [a[0]] + (a1 + b);
      assert !StartsWith(s, p) by {
        if |p| > |a| {
          assert !OccursAt(s, p, 0);
        } else {
          assert a[..|p|] != p;
          assert s[..|p|] == a[..|p|];
        }
      }
      assert IndexOf(a1, p).None? by {
        if |a| >= |p| {
          assert a[1..] == a1;
        }
      }
      forall m | 0 <= m < |a1| < m + |p|
        ensures !OccursAt(a1 + b, p, m)
      {
        assert s[1..] == a1 + b;
        OccursShift(s, p, m + 1);
      }
      ReplaceCons(a[0], a1 + b, p, rep);
      ReplaceConcatFree(a1, b, p, rep);
      assert a == [a[0]] + a1;
    }
  }

  lemma Regroup3(a: string, b: string, c: string, d: string)
    ensures a + b + c + d == a + (b + c + d)
  {
  }

  /** Replacing: the text before the first occurrence, the replacement, and the rest replaced. */
  lemma ReplaceAtFirst(s: string, p: string, rep: string, i: nat)
    requires |p| > 0 && IndexOf(s, p) == Some(i)
    ensures ReplaceAll(s, p, rep) == s[..i] + rep + ReplaceAll(s[i + |p|..], p, rep)
  {
    SplitUnfold(s, p, i);
    JoinCons(s[..i], Split(s[i + |p|..], p), rep);
  }

  /** Replacing over a concatenation that no occurrence straddles replaces each side on its own. */
  lemma {:induction false} ReplaceConcat(a: string, b: string, p: string, rep: string)
    requires |p| > 0 && NoStraddle(a, b, p)
    ensures ReplaceAll(a + b, p, rep) == ReplaceAll(a, p, rep) + ReplaceAll(b, p, rep)
    decreases |a|
  {
    match IndexOf(a, p)
    case None =>
      ReplaceConcatFree(a, b, p, rep);
      IndexOfFirst(a, p);
      ReplaceAllAbsent(a, p, rep);
    case Some(i) =>
      var a2 := a[i + |p|..];
      ReplaceConcatFound(a, b, p, rep, i);
      ReplaceConcat(a2, b, p, rep);
      ReplaceAtFirst(a + b, p, rep, i);
      ReplaceAtFirst(a, p, rep, i);
  }

  // ---------------------------------------------------------------------
  // Decimal rendering (Python `str(int)`, JavaScript template of an integer)

  function DigitChar(d: nat): (c: char)
    requires d < 10
    ensures IsDigit(c) && c as int - '0' as int == d
  {
    ('0' as int + d) as char
  }

  function NatToString(n: nat): (r: string)
    ensures |r| >= 1
    ensures forall i :: 0 <= i < |r| ==> IsDigit(r[i])
    ensures r[0] == '0' ==> n == 0
    decreases n
  {
    if n < 10 then [DigitChar(n)] else NatToString(n / 10) + [DigitChar(n % 10)]
  }

  function IntToString(n: int): string {
    if n < 0 then "-" + NatToString(-n) else NatToString(n)
  }

  // ---------------------------------------------------------------------
  // JavaScript parseInt

  /** `parseInt(s)` (Auto: a "0x" prefix selects base 16) or `parseInt(s, 10)`. */
  datatype Radix = Auto | Ten

  /** The two bases `parseInt` reads here. */
  datatype Base = Decimal | Hexadecimal

  function Width(b: Base): nat {
    if b.Hexadecimal? then 16 else 10
  }

  function DigitVal(c: char, base: Base): Option<nat> {
    var v :=
      if IsDigit(c) then c as int - '0' as int
      else if 'a' <= c <= 'z' then c as int - 'a' as int + 10
      else if 'A' <= c <= 'Z' then c as int - 'A' as int + 10
      else 99;
    if 0 <= v < Width(base) then Some(v as nat) else None
  }

  /** Length of the longest prefix of `s` made of base-`base` digits. */
  function DigitRun(s: string, base: Base): (n: nat)
    ensures n <= |s|
    ensures forall i :: 0 <= i < n ==> DigitVal(s[i], base).Some?
    ensures n < |s| ==> DigitVal(s[n], base).None?
  {
    if |s| == 0 || DigitVal(s[0], base).None? then 0 else 1 + DigitRun(s[1..], base)
  }

  /** The value of a digit string, most significant digit first; a non-digit counts as 0. */
  function ValueOf(ds: string, base: Base): int
  {
    if |ds| == 0 then 0
    else
      var high := ValueOf(ds[..|ds| - 1], base);
      (if base.Hexadecimal? then 16 * high else 10 * high) + DigitVal(ds[|ds| - 1], base).GetOr(0)
  }

  /** The number of whitespace characters `s` starts with. */
  function LeadingSpaces(s: string): (n: nat)
    ensures n <= |s|
    ensures forall i :: 0 <= i < n ==> IsSpace(s[i])
    ensures n < |s| ==> !IsSpace(s[n])
  {
    if |s| > 0 && IsSpace(s[0]) then 1 + LeadingSpaces(s[1..]) else 0
  }

  /** `s` without its leading whitespace. */
  function TrimStart(s: string): string {
    s[LeadingSpaces(s)..]
  }

  /**
   The digits after an optional sign: in Auto mode a "0x" or "0X" prefix
   selects base 16; the longest run of digits of the base is read, and an
   empty run is NaN (`None`).
   */
  function ParseDigits(u: string, radix: Radix): Option<int> {
    var hex := radix == Auto && (StartsWith(u, "0x") || StartsWith(u, "0X"));
    var base := if hex then Hexadecimal else Decimal;
    var body := if hex then u[2..] else u;
    var n := DigitRun(body, base);
    if n == 0 then None else Some(ValueOf(body[..n], base))
  }

  function Negate(v: Option<int>): Option<int> {
    match v
    case None => None
    case Some(x) => Some(-x)
  }

  /** JavaScript `parseInt`: leading whitespace, then a sign, then digits; `None` stands for NaN. */
  function ParseInt(s: string, radix: Radix): Option<int> {
    var t := TrimStart(s);
    if |t| > 0 && t[0] == '-' then Negate(ParseDigits(t[1..], radix))
    else if |t| > 0 && t[0] == '+' then ParseDigits(t[1..], radix)
    else ParseDigits(t, radix)
  }

  lemma {:induction false} ValueOfDecimal(n: nat)
    ensures ValueOf(NatToString(n), Decimal) == n
    decreases n
  {
    var r := NatToString(n);
    if n >= 10 {
      ValueOfDecimal(n / 10);
      assert r[..|r| - 1] == NatToString(n / 10);
    }
  }

  lemma DigitRunAll(s: string)
    requires forall i :: 0 <= i < |s| ==> IsDigit(s[i])
    ensures DigitRun(s, Decimal) == |s|
  {
  }

  lemma NoTrim(s: string)
    requires |s| >= 1 && (s[0] == '-' || IsDigit(s[0]))
    ensures TrimStart(s) == s
  {
    assert LeadingSpaces(s) == 0;
  }

  lemma NoHexPrefix(d: string)
    requires |d| >= 1 && forall i :: 0 <= i < |d| ==> IsDigit(d[i])
    ensures !StartsWith(d, "0x") && !StartsWith(d, "0X")
  {
    if |d| >= 2 {
      assert d[..2][1] == d[1];
    }
  }

  /** A run of decimal digits reads as its decimal value, in either radix mode. */
  lemma ParseDigitsDecimal(d: string, radix: Radix)
    requires |d| >= 1 && forall i :: 0 <= i < |d| ==> IsDigit(d[i])
    ensures ParseDigits(d, radix) == Some(ValueOf(d, Decimal))
  {
    NoHexPrefix(d);
    DigitRunAll(d);
    assert d[..|d|] == d;
  }

  lemma DropSign(d: string)
    ensures ("-" + d)[1..] == d
  {
  }

  /** Untrimmed text that starts with a minus sign reads as the negated digits after it. */
  lemma ParseSignStep(s: string, radix: Radix)
    requires |s| >= 1 && TrimStart(s) == s && s[0] == '-'
    ensures ParseInt(s, radix) == Negate(ParseDigits(s[1..], radix))
  {
  }

  /** Untrimmed text without a sign reads as its digits. */
  lemma ParseNoSignStep(s: string, radix: Radix)
    requires |s| >= 1 && TrimStart(s) == s && s[0] != '-' && s[0] != '+'
    ensures ParseInt(s, radix) == ParseDigits(s, radix)
  {
  }

  /** A minus sign directly before a digit negates what the digits read as. */
  lemma ParseMinus(d: string, radix: Radix)
    requires |d| >= 1 && IsDigit(d[0])
    ensures ParseInt("-" + d, radix) == Negate(ParseDigits(d, radix))
  {
    NoTrim("-" + d);
    DropSign(d);
    ParseSignStep("-" + d, radix);
  }

  /** `parseInt` reads back the decimal rendering of any integer, in either radix mode. */
  lemma ParseIntOfIntToString(n: int, radix: Radix)
    ensures ParseInt(IntToString(n), radix) == Some(n)
  {
    if n < 0 {
      var d := NatToString(-n);
      assert IntToString(n) == "-" + d;
      ValueOfDecimal(-n);
      ParseDigitsDecimal(d, radix);
      ParseMinus(d, radix);
      assert ParseInt("-" + d, radix) == Negate(Some(-n));
    } else {
      var d := NatToString(n);
      ValueOfDecimal(n);
      ParseDigitsDecimal(d, radix);
      NoTrim(d);
      ParseNoSignStep(d, radix);
      assert ParseInt(d, radix) == Some(n);
    }
  }

  /** Distinct integers have distinct decimal renderings. */
  lemma IntToStringInjective(a: int, b: int)
    requires IntToString(a) == IntToString(b)
    ensures a == b
  {
    ParseIntOfIntToString(a, Ten);
    ParseIntOfIntToString(b, Ten);
  }
}

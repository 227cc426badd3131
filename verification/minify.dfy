/**
 The regular-expression rewrites the two storybook obfuscators apply to
 HTML, CSS and script text: collapsing whitespace runs (`\s+` to one
 space), closing the gap between tags (`>\s+<` to `><`), deleting the
 whitespace after a punctuation character (`;\s*` to `;` and the like),
 removing block comments, and trimming both ends. Each rewrite is a
 left-to-right scan that resumes after every match, as `re.sub` does.
 */
module Minify {
  import opened Wrappers
  import opened Strings

  // ---------------------------------------------------------------------
  // Properties of minified text

  /** No two whitespace characters in a row: no run is longer than one. */
  predicate SingleSpaced(s: string) {
    forall i | 0 <= i < |s| - 1 :: !(IsSpace(s[i]) && IsSpace(s[i + 1]))
  }

  /** Every whitespace character is a plain space. */
  predicate OnlyBlanks(s: string) {
    forall i | 0 <= i < |s| :: IsSpace(s[i]) ==> s[i] == ' '
  }

  /** No `c` is directly followed by whitespace. */
  predicate SpaceFreeAfter(s: string, c: char) {
    forall i | 0 <= i < |s| - 1 :: s[i] == c ==> !IsSpace(s[i + 1])
  }

  /** No `>`, one whitespace character, `<` sequence. */
  predicate NoBlankBetweenTags(s: string) {
    forall i | 0 <= i < |s| - 2 :: !(s[i] == '>' && IsSpace(s[i + 1]) && s[i + 2] == '<')
  }

  /** Text with neither leading nor trailing whitespace. */
  predicate Trimmed(s: string) {
    |s| > 0 ==> !IsSpace(s[0]) && !IsSpace(s[|s| - 1])
  }

  // ---------------------------------------------------------------------
  // Whitespace runs

  /** `re.sub(r'\s+', ' ', s)`: every maximal whitespace run becomes one space, so the text never grows. */
  function CollapseSpace(s: string): (r: string)
    ensures |r| <= |s|
    decreases |s|
  {
    if |s| == 0 then ""
    else if IsSpace(s[0]) then " " + CollapseSpace(s[LeadingSpaces(s)..])
    else [s[0]] + CollapseSpace(s[1..])
  }

  /** The first character of the collapsed text stands for the first character of the input. */
  lemma CollapseHead(s: string)
    ensures |s| == 0 <==> |CollapseSpace(s)| == 0
    ensures |s| > 0 && IsSpace(s[0]) ==> CollapseSpace(s)[0] == ' '
    ensures |s| > 0 && !IsSpace(s[0]) ==> CollapseSpace(s)[0] == s[0]
  {
  }

  /** A slice keeps the adjacency facts of the text it is cut from. */
  lemma SliceKeeps(s: string, a: nat, b: nat)
    requires a <= b <= |s|
    ensures SingleSpaced(s) ==> SingleSpaced(s[a..b])
    ensures OnlyBlanks(s) ==> OnlyBlanks(s[a..b])
    ensures NoBlankBetweenTags(s) ==> NoBlankBetweenTags(s[a..b])
  {
    var t := s[a..b];
    assert forall i | 0 <= i < |t| :: t[i] == s[a + i];
  }

  lemma SliceKeepsAfter(s: string, a: nat, b: nat, c: char)
    requires a <= b <= |s| && SpaceFreeAfter(s, c)
    ensures SpaceFreeAfter(s[a..b], c)
  {
    var t := s[a..b];
    assert forall i | 0 <= i < |t| :: t[i] == s[a + i];
  }

  /** Collapsed text has runs of at most one whitespace character, and that character is a space. */
  lemma {:induction false} CollapseSpaceShape(s: string)
    ensures SingleSpaced(CollapseSpace(s)) && OnlyBlanks(CollapseSpace(s))
    decreases |s|
  {
    if |s| > 0 {
      var r := CollapseSpace(s);
      if IsSpace(s[0]) {
        var u := s[LeadingSpaces(s)..];
        CollapseSpaceShape(u);
        CollapseHead(u);
        var tail := CollapseSpace(u);
        assert r == " " + tail;
        assert |tail| > 0 ==> !IsSpace(tail[0]);
        assert forall i | 1 <= i < |r| :: r[i] == tail[i - 1];
      } else {
        var u := s[1..];
        CollapseSpaceShape(u);
        var tail := CollapseSpace(u);
        assert r == [s[0]] + tail;
        assert forall i | 1 <= i < |r| :: r[i] == tail[i - 1];
      }
    }
  }

  /** Text already in collapsed form is left as it is. */
  lemma {:induction false} CollapseSpaceFixed(s: string)
    requires SingleSpaced(s) && OnlyBlanks(s)
    ensures CollapseSpace(s) == s
    decreases |s|
  {
    if |s| > 0 {
      TailCollapsed(s);
      CollapseSpaceFixed(s[1..]);
      CollapseStep(s);
    }
  }

  /** The tail of collapsed text is collapsed. */
  lemma TailCollapsed(s: string)
    requires |s| > 0 && SingleSpaced(s) && OnlyBlanks(s)
    ensures SingleSpaced(s[1..]) && OnlyBlanks(s[1..])
  {
    var t := s[1..];
    assert forall i | 0 <= i < |t| :: t[i] == s[i + 1];
  }

  /** One step of collapsed text: a lone space, or any other character, then the rest collapsed. */
  lemma CollapseStep(s: string)
    requires |s| > 0 && (IsSpace(s[0]) ==> s[0] == ' ' && (|s| > 1 ==> !IsSpace(s[1])))
    ensures CollapseSpace(s) == [s[0]] + CollapseSpace(s[1..])
  {
    if IsSpace(s[0]) {
      assert LeadingSpaces(s) == 1 + LeadingSpaces(s[1..]);
      assert LeadingSpaces(s[1..]) == 0;
    }
  }

  /** Collapsing twice is collapsing once. */
  lemma CollapseSpaceIdempotent(s: string)
    ensures CollapseSpace(CollapseSpace(s)) == CollapseSpace(s)
  {
    CollapseSpaceShape(s);
    CollapseSpaceFixed(CollapseSpace(s));
  }

  /** Text that starts with a non-space character ends a whitespace run. */
  lemma {:induction false} LeadingSpacesAppend(x: string, y: string)
    requires |y| == 0 || !IsSpace(y[0])
    ensures LeadingSpaces(x + y) == LeadingSpaces(x)
    decreases |x|
  {
    if |x| == 0 {
      assert x + y == y;
    } else if IsSpace(x[0]) {
      LeadingSpacesAppend(x[1..], y);
      assert (x + y)[1..] == x[1..] + y;
    }
  }

  /** Trimming stops inside `x` when `y` starts with a non-space character. */
  lemma TrimStartAppend(x: string, y: string)
    requires |y| == 0 || !IsSpace(y[0])
    ensures TrimStart(x + y) == TrimStart(x) + y
  {
    LeadingSpacesAppend(x, y);
    SuffixOfAppend(x, y, LeadingSpaces(x));
  }

  /** Collapsing works piece by piece at a point where no whitespace run is cut. */
  lemma {:induction false} CollapseAppend(x: string, y: string)
    requires |y| == 0 || !IsSpace(y[0])
    ensures CollapseSpace(x + y) == CollapseSpace(x) + CollapseSpace(y)
    decreases |x|
  {
    if |x| == 0 {
      assert x + y == y;
    } else if IsSpace(x[0]) {
      CollapseAppend(x[LeadingSpaces(x)..], y);
      CollapseAppendSpace(x, y);
    } else {
      CollapseAppend(x[1..], y);
      CollapseAppendPlain(x, y);
    }
  }

  lemma CollapseAppendSpace(x: string, y: string)
    requires |x| > 0 && IsSpace(x[0]) && (|y| == 0 || !IsSpace(y[0]))
    requires var n := LeadingSpaces(x);
      CollapseSpace(x[n..] + y) == CollapseSpace(x[n..]) + CollapseSpace(y)
    ensures CollapseSpace(x + y) == CollapseSpace(x) + CollapseSpace(y)
  {
    var n := LeadingSpaces(x);
    var s := x + y;
    assert s[0] == x[0];
    SuffixOfAppend(x, y, n);
    LeadingSpacesAppend(x, y);
    assert CollapseSpace(s) == " " + CollapseSpace(s[n..]);
  }

  lemma CollapseAppendPlain(x: string, y: string)
    requires |x| > 0 && !IsSpace(x[0])
    requires CollapseSpace(x[1..] + y) == CollapseSpace(x[1..]) + CollapseSpace(y)
    ensures CollapseSpace(x + y) == CollapseSpace(x) + CollapseSpace(y)
  {
    var s := x + y;
    assert s[0] == x[0];
    SuffixOfAppend(x, y, 1);
    assert CollapseSpace(s) == [x[0]] + CollapseSpace(s[1..]);
  }

  /** A whitespace-free prefix is kept as it is. */
  lemma {:induction false} CollapseSpaceFree(x: string, y: string)
    requires forall i | 0 <= i < |x| :: !IsSpace(x[i])
    ensures CollapseSpace(x + y) == x + CollapseSpace(y)
    decreases |x|
  {
    if |x| == 0 {
      assert x + y == y;
    } else {
      assert (x + y)[1..] == x[1..] + y;
      CollapseSpaceFree(x[1..], y);
      assert x == [x[0]] + x[1..];
    }
  }

  /** Collapsing brings in no character other than a space. */
  lemma {:induction false} CollapseKeepsFree(s: string, d: char)
    requires !IsSpace(d) && CharFree(s, d)
    ensures CharFree(CollapseSpace(s), d)
    decreases |s|
  {
    if |s| > 0 {
      var u := if IsSpace(s[0]) then s[LeadingSpaces(s)..] else s[1..];
      assert forall i | 0 <= i < |u| :: u[i] == s[|s| - |u| + i];
      CollapseKeepsFree(u, d);
    }
  }

  // ---------------------------------------------------------------------
  // Gaps between tags

  /** `s` starts with `>`, a non-empty whitespace run, and `<`. */
  predicate GapAtFront(s: string) {
    |s| >= 1 && s[0] == '>' &&
    var k := LeadingSpaces(s[1..]);
    k > 0 && 1 + k < |s| && s[1 + k] == '<'
  }

  /** No `>`, whitespace run, `<` anywhere in `s`. */
  predicate GapFree(s: string)
    decreases |s|
  {
    |s| == 0 || (!GapAtFront(s) && GapFree(s[1..]))
  }

  /** `re.sub(r'>\s+<', '><', s)`: never longer, empty exactly when the input is, same first character. */
  function CloseTagGaps(s: string): (r: string)
    ensures |r| <= |s|
    ensures |s| == 0 <==> |r| == 0
    ensures |s| > 0 ==> r[0] == s[0]
    decreases |s|
  {
    if |s| == 0 then ""
    else if GapAtFront(s) then "><" + CloseTagGaps(s[2 + LeadingSpaces(s[1..])..])
    else [s[0]] + CloseTagGaps(s[1..])
  }

  /** Closing gaps keeps the whitespace run a text starts with and the character after it. */
  lemma {:induction false} CloseTagGapsFront(t: string)
    ensures var k := LeadingSpaces(t);
      && LeadingSpaces(CloseTagGaps(t)) == k
      && (k < |t| ==> k < |CloseTagGaps(t)| && CloseTagGaps(t)[k] == t[k])
      && (k == |t| ==> CloseTagGaps(t) == t)
    decreases |t|
  {
    if |t| > 0 {
      if IsSpace(t[0]) {
        CloseTagGapsFront(t[1..]);
        var r := CloseTagGaps(t);
        assert r == [t[0]] + CloseTagGaps(t[1..]);
        assert r[1..] == CloseTagGaps(t[1..]);
      }
    }
  }

  /** After closing, no gap between tags is left. */
  lemma {:induction false} CloseTagGapsFree(s: string)
    ensures GapFree(CloseTagGaps(s))
    decreases |s|
  {
    if |s| > 0 {
      var r := CloseTagGaps(s);
      if GapAtFront(s) {
        var u := s[2 + LeadingSpaces(s[1..])..];
        CloseTagGapsFree(u);
        var tail := CloseTagGaps(u);
        assert r == "><" + tail;
        assert r[1..] == "<" + tail;
        assert r[1..][1..] == tail;
        assert LeadingSpaces(r[1..]) == 0;
      } else {
        CloseTagGapsFree(s[1..]);
        var tail := CloseTagGaps(s[1..]);
        assert r == [s[0]] + tail;
        assert r[1..] == tail;
        if s[0] == '>' {
          CloseTagGapsFront(s[1..]);
        }
      }
    }
  }

  lemma {:induction false} GapFreeSuffix(s: string, j: nat)
    requires GapFree(s) && j <= |s|
    ensures GapFree(s[j..])
    decreases j
  {
    if j > 0 {
      GapFreeSuffix(s[1..], j - 1);
      assert s[1..][j - 1..] == s[j..];
    }
  }

  /** Collapsing whitespace in gap-free text leaves no `>`, space, `<` sequence. */
  lemma {:induction false} CollapseKeepsTagsClosed(t: string)
    requires GapFree(t)
    ensures NoBlankBetweenTags(CollapseSpace(t))
    decreases |t|
  {
    if |t| > 0 {
      var r := CollapseSpace(t);
      if IsSpace(t[0]) {
        var u := t[LeadingSpaces(t)..];
        GapFreeSuffix(t, LeadingSpaces(t));
        CollapseKeepsTagsClosed(u);
        var tail := CollapseSpace(u);
        assert r == " " + tail;
        assert forall i | 1 <= i < |r| :: r[i] == tail[i - 1];
      } else {
        var u := t[1..];
        CollapseKeepsTagsClosed(u);
        var tail := CollapseSpace(u);
        assert r == [t[0]] + tail;
        assert forall i | 1 <= i < |r| :: r[i] == tail[i - 1];
        if t[0] == '>' && |tail| >= 2 && IsSpace(tail[0]) {
          CollapseHead(u);
          var k := LeadingSpaces(u);
          var v := u[k..];
          assert tail == " " + CollapseSpace(v);
          CollapseHead(v);
          if |v| > 0 {
            assert v[0] == t[1 + k];
            assert !GapAtFront(t);
          }
        }
      }
    }
  }

  // ---------------------------------------------------------------------
  // Trimming

  /** The number of whitespace characters `s` ends with. */
  function TrailingSpaces(s: string): (n: nat)
    ensures n <= |s|
    decreases |s|
  {
    if |s| > 0 && IsSpace(s[|s| - 1]) then 1 + TrailingSpaces(s[..|s| - 1]) else 0
  }

  lemma {:induction false} TrailingSpacesEnd(s: string)
    ensures TrailingSpaces(s) < |s| ==> !IsSpace(s[|s| - 1 - TrailingSpaces(s)])
    ensures forall i | |s| - TrailingSpaces(s) <= i < |s| :: IsSpace(s[i])
    decreases |s|
  {
    if |s| > 0 && IsSpace(s[|s| - 1]) {
      var p := s[..|s| - 1];
      TrailingSpacesEnd(p);
      assert forall i | 0 <= i < |p| :: p[i] == s[i];
    }
  }

  /** Python `str.strip()`: a slice of the text with no whitespace at either end. */
  function Strip(s: string): (r: string)
    ensures Trimmed(r)
    ensures exists a, b | 0 <= a <= b <= |s| :: r == s[a..b]
  {
    var k := LeadingSpaces(s);
    var t := s[k..];
    var n := TrailingSpaces(t);
    TrailingSpacesEnd(t);
    var r := t[..|t| - n];
    assert r == s[k..|s| - n];
    assert |r| > 0 ==> r[0] == t[0] && r[|r| - 1] == t[|t| - 1 - n];
    r
  }

  /**
   * The HTML minification of a processed page: close tag gaps, collapse whitespace, strip
   * both ends. The result has single spaces only, no space between `>` and `<`, and no
   * whitespace at either end.
   */
  function MinifyHtml(s: string): (r: string)
    ensures SingleSpaced(r) && OnlyBlanks(r) && NoBlankBetweenTags(r) && Trimmed(r)
  {
    var t := CloseTagGaps(s);
    CloseTagGapsFree(s);
    var c := CollapseSpace(t);
    CollapseSpaceShape(t);
    CollapseKeepsTagsClosed(t);
    var r := Strip(c);
    var a, b :| 0 <= a <= b <= |c| && r == c[a..b];
    SliceKeeps(c, a, b);
    r
  }

  // ---------------------------------------------------------------------
  // Whitespace after punctuation

  /** `re.sub(c + r'\s*', c, s)`: the whitespace after every `c` is deleted, so the text never grows. */
  function DropSpaceAfter(s: string, c: char): (r: string)
    ensures |r| <= |s|
    decreases |s|
  {
    if |s| == 0 then ""
    else if s[0] == c then [c] + DropSpaceAfter(s[1 + LeadingSpaces(s[1..])..], c)
    else [s[0]] + DropSpaceAfter(s[1..], c)
  }

  /** The rewrite is empty exactly when its input is, and keeps the first character. */
  lemma DropHead(s: string, c: char)
    ensures |s| == 0 <==> |DropSpaceAfter(s, c)| == 0
    ensures |s| > 0 ==> DropSpaceAfter(s, c)[0] == s[0]
  {
  }

  /** The rewrite's own guarantee: no `c` is followed by whitespace. */
  lemma {:induction false} DropSpaceAfterFree(s: string, c: char)
    ensures SpaceFreeAfter(DropSpaceAfter(s, c), c)
    decreases |s|
  {
    if |s| > 0 {
      var r := DropSpaceAfter(s, c);
      var u := if s[0] == c then s[1 + LeadingSpaces(s[1..])..] else s[1..];
      DropSpaceAfterFree(u, c);
      DropHead(u, c);
      var tail := DropSpaceAfter(u, c);
      assert r == [s[0]] + tail;
      assert forall i | 1 <= i < |r| :: r[i] == tail[i - 1];
      if s[0] == c && |u| > 0 {
        assert u[0] == s[1..][LeadingSpaces(s[1..])];
      }
    }
  }

  /** Deleting the whitespace after a non-space `c` never makes a run longer. */
  lemma {:induction false} DropSpaceAfterSingle(s: string, c: char)
    requires !IsSpace(c) && SingleSpaced(s)
    ensures SingleSpaced(DropSpaceAfter(s, c))
    decreases |s|
  {
    if |s| > 0 {
      var r := DropSpaceAfter(s, c);
      var j := if s[0] == c then 1 + LeadingSpaces(s[1..]) else 1;
      var u := s[j..];
      SliceKeeps(s, j, |s|);
      DropSpaceAfterSingle(u, c);
      DropHead(u, c);
      var tail := DropSpaceAfter(u, c);
      assert r == [s[0]] + tail;
      assert forall i | 1 <= i < |r| :: r[i] == tail[i - 1];
      if s[0] != c && |u| > 0 {
        assert u[0] == s[1];
      }
    }
  }

  /** Deleting the whitespace after `c` keeps every other character's guarantee. */
  lemma {:induction false} DropSpaceAfterKeeps(s: string, c: char, d: char)
    requires SpaceFreeAfter(s, d)
    ensures SpaceFreeAfter(DropSpaceAfter(s, c), d)
    decreases |s|
  {
    if |s| > 0 {
      var r := DropSpaceAfter(s, c);
      var j := if s[0] == c then 1 + LeadingSpaces(s[1..]) else 1;
      var u := s[j..];
      SliceKeepsAfter(s, j, |s|, d);
      DropSpaceAfterKeeps(u, c, d);
      DropHead(u, c);
      var tail := DropSpaceAfter(u, c);
      assert r == [s[0]] + tail;
      assert forall i | 1 <= i < |r| :: r[i] == tail[i - 1];
      if s[0] == c {
        DropSpaceAfterFree(s, c);
      } else if |u| > 0 {
        assert u[0] == s[1];
      }
    }
  }

  /** Deleting the whitespace after `c` works piece by piece where no whitespace run is cut. */
  lemma {:induction false} DropAppend(x: string, y: string, c: char)
    requires |y| == 0 || !IsSpace(y[0])
    ensures DropSpaceAfter(x + y, c) == DropSpaceAfter(x, c) + DropSpaceAfter(y, c)
    decreases |x|
  {
    if |x| == 0 {
      assert x + y == y;
    } else if x[0] == c {
      DropAppend(TrimStart(x[1..]), y, c);
      DropAppendMark(x, y, c);
    } else {
      DropAppend(x[1..], y, c);
      DropAppendPlain(x, y, c);
    }
  }

  lemma DropAppendMark(x: string, y: string, c: char)
    requires |x| > 0 && x[0] == c && (|y| == 0 || !IsSpace(y[0]))
    requires var t := TrimStart(x[1..]);
      DropSpaceAfter(t + y, c) == DropSpaceAfter(t, c) + DropSpaceAfter(y, c)
    ensures DropSpaceAfter(x + y, c) == DropSpaceAfter(x, c) + DropSpaceAfter(y, c)
  {
    DropMarkAppend(x, y, c);
    DropMarkStep(x, x[1..], c);
  }

  lemma DropMarkAppend(x: string, y: string, c: char)
    requires |x| > 0 && x[0] == c && (|y| == 0 || !IsSpace(y[0]))
    ensures DropSpaceAfter(x + y, c) == [c] + DropSpaceAfter(TrimStart(x[1..]) + y, c)
  {
    var t := x[1..];
    SuffixOfAppend(x, y, 1);
    TrimStartAppend(t, y);
    DropMarkStep(x + y, t + y, c);
  }

  /** One step at a `c`: the character, then the rewrite of what follows its whitespace. */
  lemma DropMarkStep(s: string, u: string, c: char)
    requires |s| > 0 && s[0] == c && s[1..] == u
    ensures DropSpaceAfter(s, c) == [c] + DropSpaceAfter(TrimStart(u), c)
  {
  }

  /** One step at any other character: the character, then the rewrite of the rest. */
  lemma DropPlainStep(s: string, c: char)
    requires |s| > 0 && s[0] != c
    ensures DropSpaceAfter(s, c) == [s[0]] + DropSpaceAfter(s[1..], c)
  {
  }

  lemma DropAppendPlain(x: string, y: string, c: char)
    requires |x| > 0 && x[0] != c
    requires DropSpaceAfter(x[1..] + y, c) == DropSpaceAfter(x[1..], c) + DropSpaceAfter(y, c)
    ensures DropSpaceAfter(x + y, c) == DropSpaceAfter(x, c) + DropSpaceAfter(y, c)
  {
    var s := x + y;
    assert s[0] == x[0];
    SuffixOfAppend(x, y, 1);
    DropPlainStep(s, c);
    DropPlainStep(x, c);
  }

  /** A prefix without `c` is kept as it is. */
  lemma {:induction false} DropFree(x: string, y: string, c: char)
    requires CharFree(x, c)
    ensures DropSpaceAfter(x + y, c) == x + DropSpaceAfter(y, c)
    decreases |x|
  {
    if |x| == 0 {
      assert x + y == y;
    } else {
      var s := x + y;
      assert s[0] == x[0] && x[0] != c;
      assert s[1..] == x[1..] + y;
      DropPlainStep(s, c);
      assert CharFree(x[1..], c);
      DropFree(x[1..], y, c);
      assert x == [x[0]] + x[1..];
    }
  }

  /** Deleting brings in no character. */
  lemma {:induction false} DropKeepsFree(s: string, c: char, d: char)
    requires CharFree(s, d)
    ensures CharFree(DropSpaceAfter(s, c), d)
    decreases |s|
  {
    if |s| > 0 {
      var u := if s[0] == c then s[1 + LeadingSpaces(s[1..])..] else s[1..];
      assert forall i | 0 <= i < |u| :: u[i] == s[|s| - |u| + i];
      DropKeepsFree(u, c, d);
    }
  }

  /** Blank-only text is text without any of the other five whitespace characters. */
  lemma BlanksFree(s: string)
    ensures OnlyBlanks(s) <==>
      CharFree(s, '\t') && CharFree(s, '\n') && CharFree(s, '\r') && CharFree(s, '\U{000B}') && CharFree(s, '\U{000C}')
  {
  }

  /** Deleting keeps every remaining whitespace character a plain space. */
  lemma DropKeepsBlanks(s: string, c: char)
    requires OnlyBlanks(s)
    ensures OnlyBlanks(DropSpaceAfter(s, c))
  {
    BlanksFree(s);
    DropKeepsFree(s, c, '\t');
    DropKeepsFree(s, c, '\n');
    DropKeepsFree(s, c, '\r');
    DropKeepsFree(s, c, '\U{000B}');
    DropKeepsFree(s, c, '\U{000C}');
    BlanksFree(DropSpaceAfter(s, c));
  }

  /** Text in which no `c` is followed by whitespace is left as it is. */
  lemma {:induction false} DropSpaceAfterFixed(s: string, c: char)
    requires SpaceFreeAfter(s, c)
    ensures DropSpaceAfter(s, c) == s
    decreases |s|
  {
    if |s| > 0 {
      SliceKeepsAfter(s, 1, |s|, c);
      DropSpaceAfterFixed(s[1..], c);
      DropFixedStep(s, c);
    }
  }

  lemma DropFixedStep(s: string, c: char)
    requires |s| > 0 && SpaceFreeAfter(s, c)
    requires DropSpaceAfter(s[1..], c) == s[1..]
    ensures DropSpaceAfter(s, c) == s
  {
    if s[0] == c {
      assert LeadingSpaces(s[1..]) == 0 by {
        assert |s| > 1 ==> !IsSpace(s[1]);
      }
      assert s[1 + 0..] == s[1..];
    }
    assert s == [s[0]] + s[1..];
  }

  // ---------------------------------------------------------------------
  // Block comments

  // `re.sub(r'/\*[\s\S]*?\*/', '', s)`: each `/*` with a later `*/` is removed through the first such `*/`.
  // The result is never longer, and text without a comment opener is left as it is.
  // (Line comments here, because the text itself holds the block-comment delimiters.)
  function StripBlockComments(s: string): (r: string)
    ensures |r| <= |s|
    ensures !Contains(s, "/*") ==> r == s
    decreases |s|
  {
    if |s| == 0 then ""
    else if StartsWith(s, "/*") && IndexOf(s[2..], "*/").Some? then
      StartsWithContains(s, "/*");
      StripBlockComments(s[2 + IndexOf(s[2..], "*/").value + 2..])
    else
      NotContainsTail(s, "/*");
      assert s == [s[0]] + s[1..];
      [s[0]] + StripBlockComments(s[1..])
  }

  // A leading comment goes, through its first `*/`, and the scan goes on after it.
  lemma LeadingCommentRemoved(body: string, rest: string)
    requires !Contains(body, "*/")
    ensures StripBlockComments("/*" + body + "*/" + rest) == StripBlockComments(rest)
  {
    var s := "/*" + body + "*/" + rest;
    assert s[..2] == "/*";
    var t := s[2..];
    assert t == body + "*/" + rest;
    PrefixedSearch(body, rest);
    assert s[2 + |body| + 2..] == rest;
  }

  // The first `*/` in `b + "*/" + r` is right after `b` when `b` holds none.
  lemma PrefixedSearch(b: string, r: string)
    requires !Contains(b, "*/")
    ensures IndexOf(b + "*/" + r, "*/") == Some(|b|)
  {
    var s := b + "*/" + r;
    IndexOfFirst(s, "*/");
    assert s[|b|..|b| + 2] == "*/";
    assert OccursAt(s, "*/", |b|);
    var k := IndexOf(s, "*/").value;
    assert s[k + 1] == '/' by { assert s[k..k + 2][1] == s[k + 1]; }
    assert s[|b|] == '*';
    assert !OccursAt(b, "*/", k);
  }
}

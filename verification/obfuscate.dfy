/**
 The V13 full obfuscator's text rewrites: the random name generator, the
 script minifier that shelters the six page placeholders behind keys
 while it strips comments and whitespace, the style-sheet minifier, and
 its version of the image-path update (both quote styles, no `.png`
 repair).
 */
module Obfuscate {
  import opened Wrappers
  import opened Strings
  import opened AssetPaths
  import opened Minify

  // ---------------------------------------------------------------------
  // Random names

  /** A draw of `random.choices(ascii_letters + digits, k=length)`. */
  predicate NameChars(d: string, length: nat) {
    |d| == length && forall i | 0 <= i < |d| :: IsAsciiAlnum(d[i])
  }

  /** The first underscore-prefixed draw that is not taken, if any. */
  function FirstFree(draws: seq<string>, taken: set<string>): Option<string>
    decreases |draws|
  {
    if |draws| == 0 then None
    else if "_" + draws[0] !in taken then Some("_" + draws[0])
    else FirstFree(draws[1..], taken)
  }

  /**
   `generate_random_name`: tries the draws in order until one, prefixed by
   an underscore, is not among the names in use (`var_map`'s values).
   */
  method GenerateRandomName(draws: seq<string>, taken: set<string>, length: nat) returns (name: Option<string>)
    requires forall i | 0 <= i < |draws| :: NameChars(draws[i], length)
    ensures name == FirstFree(draws, taken)
    ensures name.Some? ==> && name.value !in taken && |name.value| == length + 1
                           && name.value[0] == '_' && NameChars(name.value[1..], length)
    ensures name.None? <==> forall i | 0 <= i < |draws| :: "_" + draws[i] in taken
    ensures taken == {} && |draws| > 0 ==> name == Some("_" + draws[0])
  {
    var k := 0;
    while k < |draws|
      invariant 0 <= k <= |draws|
      invariant FirstFree(draws, taken) == FirstFree(draws[k..], taken)
      invariant forall i | 0 <= i < k :: "_" + draws[i] in taken
    {
      var candidate := "_" + draws[k];
      if candidate !in taken {
        assert candidate[1..] == draws[k];
        return Some(candidate);
      }
      assert draws[k..][1..] == draws[k + 1..];
      k := k + 1;
    }
    return None;
  }

  // ---------------------------------------------------------------------
  // Shared minification of scripts and style sheets

  /**
   `\s+` to one space, then the whitespace after `;`, `{` and `}` deleted, in
   that order. Compacted text is single-spaced, blank-only, and has no
   whitespace after `;`, `{` or `}`.
   */
  function Compact(s: string): (r: string)
    ensures SingleSpaced(r) && OnlyBlanks(r)
    ensures SpaceFreeAfter(r, ';') && SpaceFreeAfter(r, '{') && SpaceFreeAfter(r, '}')
  {
    var c0 := CollapseSpace(s);
    CollapseSpaceShape(s);
    var d1 := DropSpaceAfter(c0, ';');
    DropSpaceAfterSingle(c0, ';');
    DropKeepsBlanks(c0, ';');
    DropSpaceAfterFree(c0, ';');
    var d2 := DropSpaceAfter(d1, '{');
    DropSpaceAfterSingle(d1, '{');
    DropKeepsBlanks(d1, '{');
    DropSpaceAfterFree(d1, '{');
    DropSpaceAfterKeeps(d1, '{', ';');
    var d3 := DropSpaceAfter(d2, '}');
    DropSpaceAfterSingle(d2, '}');
    DropKeepsBlanks(d2, '}');
    DropSpaceAfterFree(d2, '}');
    DropSpaceAfterKeeps(d2, '}', ';');
    DropSpaceAfterKeeps(d2, '}', '{');
    d3
  }

  /** Text that is already compact is left as it is. */
  lemma CompactFixed(s: string)
    requires SingleSpaced(s) && OnlyBlanks(s)
    requires SpaceFreeAfter(s, ';') && SpaceFreeAfter(s, '{') && SpaceFreeAfter(s, '}')
    ensures Compact(s) == s
  {
    CollapseSpaceFixed(s);
    DropSpaceAfterFixed(s, ';');
    DropSpaceAfterFixed(s, '{');
    DropSpaceAfterFixed(s, '}');
  }

  /** Compacting brings in no non-space character. */
  lemma CompactKeepsFree(s: string, d: char)
    requires !IsSpace(d) && CharFree(s, d)
    ensures CharFree(Compact(s), d)
  {
    CollapseKeepsFree(s, d);
    var c0 := CollapseSpace(s);
    DropKeepsFree(c0, ';', d);
    DropKeepsFree(DropSpaceAfter(c0, ';'), '{', d);
    DropKeepsFree(DropSpaceAfter(DropSpaceAfter(c0, ';'), '{'), '}', d);
  }

  /** A word of none of whitespace, `;`, `{` and `}`. */
  predicate Solid(k: string) {
    |k| > 0 && forall i | 0 <= i < |k| :: !IsSpace(k[i]) && k[i] != ';' && k[i] != '{' && k[i] != '}'
  }

  /** One deletion pass goes around a solid word. */
  lemma DropAround(x: string, k: string, y: string, c: char)
    requires Solid(k) && (c == ';' || c == '{' || c == '}')
    ensures DropSpaceAfter(x + (k + y), c) == DropSpaceAfter(x, c) + (k + DropSpaceAfter(y, c))
  {
    assert (k + y)[0] == k[0];
    DropAppend(x, k + y, c);
    DropFree(k, y, c);
  }

  /** Compacting works on each side of a solid word separately. */
  lemma CompactAround(a: string, k: string, b: string)
    requires Solid(k)
    ensures Compact(a + k + b) == Compact(a) + k + Compact(b)
  {
    assert a + k + b == a + (k + b);
    assert (k + b)[0] == k[0];
    CollapseAppend(a, k + b);
    CollapseSpaceFree(k, b);
    var x0, y0 := CollapseSpace(a), CollapseSpace(b);
    DropAround(x0, k, y0, ';');
    var x1, y1 := DropSpaceAfter(x0, ';'), DropSpaceAfter(y0, ';');
    DropAround(x1, k, y1, '{');
    var x2, y2 := DropSpaceAfter(x1, '{'), DropSpaceAfter(y1, '{');
    DropAround(x2, k, y2, '}');
    assert Compact(a) + k + Compact(b) == Compact(a) + (k + Compact(b));
  }

  // ---------------------------------------------------------------------
  // Style sheets

  /**
   `obfuscate_css`: block comments out, the shared minification, then no
   whitespace after `:`. Minified CSS is single-spaced, blank-only, and has
   no whitespace after `;`, `{`, `}` or `:`.
   */
  function ObfuscateCss(css: string): (r: string)
    ensures SingleSpaced(r) && OnlyBlanks(r)
    ensures SpaceFreeAfter(r, ';') && SpaceFreeAfter(r, '{') && SpaceFreeAfter(r, '}') && SpaceFreeAfter(r, ':')
  {
    var m := Compact(StripBlockComments(css));
    DropSpaceAfterSingle(m, ':');
    DropKeepsBlanks(m, ':');
    DropSpaceAfterFree(m, ':');
    DropSpaceAfterKeeps(m, ':', ';');
    DropSpaceAfterKeeps(m, ':', '{');
    DropSpaceAfterKeeps(m, ':', '}');
    DropSpaceAfter(m, ':')
  }

  /** A style sheet that is already minified and has no comment opener is left as it is. */
  lemma CssFixed(css: string)
    requires !Contains(css, "/*")
    requires SingleSpaced(css) && OnlyBlanks(css)
    requires SpaceFreeAfter(css, ';') && SpaceFreeAfter(css, '{') && SpaceFreeAfter(css, '}')
    requires SpaceFreeAfter(css, ':')
    ensures ObfuscateCss(css) == css
  {
    CompactFixed(css);
    DropSpaceAfterFixed(css, ':');
  }

  /** Minifying twice is minifying once, unless the first pass joined a `/` and a `*`. */
  lemma CssIdempotent(css: string)
    requires !Contains(ObfuscateCss(css), "/*")
    ensures ObfuscateCss(ObfuscateCss(css)) == ObfuscateCss(css)
  {
    CssFixed(ObfuscateCss(css));
  }

  // ---------------------------------------------------------------------
  // Scripts: the placeholders and their keys

  const Tokens: seq<string> :=
    ["{{IMAGE1_URL}}", "{{IMAGE2_URL}}", "{{BACKBOARD_TEXTS}}",
     "{{STORY_CONFIG}}", "{{PAGE_NUMBER}}", "{{PROGRESS_TITLE}}"]

  const KeyPrefix: string := "__PLACEHOLDER_"

  /** `f"__PLACEHOLDER_{i}__"`. */
  function Key(i: nat): string
    requires i < |Tokens|
  {
    KeyPrefix + [DigitChar(i)] + "__"
  }

  /**
   The placeholders from the `i`-th on, each replaced everywhere by its key
   in turn; the flags say which of them were present when their turn came.
   */
  function ProtectFrom(s: string, i: nat): (r: (string, seq<bool>))
    requires i <= |Tokens|
    ensures |r.1| == |Tokens| - i
    decreases |Tokens| - i
  {
    if i == |Tokens| then (s, [])
    else
      var rest := ProtectFrom(ReplaceAll(s, Tokens[i], Key(i)), i + 1);
      (rest.0, [Contains(s, Tokens[i])] + rest.1)
  }

  /** The keys of the present placeholders, from the `i`-th on, replaced back in turn. */
  function RestoreFrom(s: string, found: seq<bool>, i: nat): string
    requires |found| == |Tokens| && i <= |Tokens|
    decreases |Tokens| - i
  {
    if i == |Tokens| then s
    else RestoreFrom(if found[i] then ReplaceAll(s, Key(i), Tokens[i]) else s, found, i + 1)
  }

  // ---------------------------------------------------------------------
  // Scripts: line comments

  /**
   Where the lazy `.*?(?=__PLACEHOLDER_)` stops in `t`: the first position
   before any line break at which a key begins, if there is one.
   */
  function KeyAhead(t: string): (k: Option<nat>)
    ensures k.Some? ==> k.value < |t| && StartsWith(t[k.value..], KeyPrefix) && CharFree(t[..k.value], '\n')
    ensures k.Some? ==> t[k.value] == '_'
    decreases |t|
  {
    if StartsWith(t, KeyPrefix) then
      assert t[..|KeyPrefix|][0] == t[0];
      Some(0)
    else if |t| == 0 || t[0] == '\n' then None
    else match KeyAhead(t[1..])
      case None => None
      case Some(k) =>
        assert t[1..][k..] == t[k + 1..] && t[k + 1] == t[1..][k];
        assert t[..k + 1] == [t[0]] + t[1..][..k];
        CharFreeConcat([t[0]], t[1..][..k], '\n');
        Some(k + 1)
  }

  /** The comment text a corrected stripper removes: up to a line break, a key, or the end. */
  function CommentLength(t: string): (n: nat)
    ensures n <= |t|
    decreases |t|
  {
    if |t| == 0 || t[0] == '\n' || StartsWith(t, KeyPrefix) then 0
    else 1 + CommentLength(t[1..])
  }

  /**
   `re.sub(r'//.*?(?=__PLACEHOLDER_)', '', s)` as written removes only a
   comment that a key follows on its own line; the corrected stripper
   removes every `//` comment, up to its line break or the key it shelters.
   Either way nothing is added, and text without `/` has no comment to
   strip; as written, with no `_` in sight the lazy search for a key fails,
   so no comment is removed.
   */
  function StripLineComments(s: string, fix: Fix): (r: string)
    ensures |r| <= |s|
    ensures CharFree(s, '/') ==> r == s
    ensures fix == AsWritten && CharFree(s, '_') ==> r == s
    decreases |s|
  {
    SlashSlash(s);
    assert |s| > 0 ==> s == [s[0]] + s[1..];
    if |s| == 0 then ""
    else if StartsWith(s, "//") then
      match fix
      case AsWritten =>
        var t := s[2..];
        assert CharFree(s, '_') ==> CharFree(t, '_') by {
          assert forall i | 0 <= i < |t| :: t[i] == s[i + 2];
        }
        (match KeyAhead(t)
         case Some(k) => StripLineComments(s[2 + k..], fix)
         case None => [s[0]] + StripLineComments(s[1..], fix))
      case Corrected => StripLineComments(s[2 + CommentLength(s[2..])..], fix)
    else [s[0]] + StripLineComments(s[1..], fix)
  }

  /**
   `obfuscate_javascript`: shelter, strip comments, compact, restore. A script
   with none of the placeholders is only stripped and compacted.
   */
  function ObfuscateJavascript(js: string, fix: Fix): (r: string)
    ensures (forall j | 0 <= j < |Tokens| :: !Contains(js, Tokens[j])) ==>
      r == Compact(StripBlockComments(StripLineComments(js, fix)))
  {
    var p := ProtectFrom(js, 0);
    SheltersNothing(js, Compact(StripBlockComments(StripLineComments(js, fix))));
    RestoreFrom(Compact(StripBlockComments(StripLineComments(p.0, fix))), p.1, 0)
  }

  // ---------------------------------------------------------------------
  // Scripts without placeholders

  lemma {:induction false} ProtectNone(s: string, i: nat)
    requires i <= |Tokens|
    requires forall j | i <= j < |Tokens| :: !Contains(s, Tokens[j])
    ensures var r := ProtectFrom(s, i);
      r.0 == s && forall j | 0 <= j < |r.1| :: !r.1[j]
    decreases |Tokens| - i
  {
    if i < |Tokens| {
      ReplaceAllAbsent(s, Tokens[i], Key(i));
      ProtectNone(s, i + 1);
      var r := ProtectFrom(s, i);
      var tail := ProtectFrom(s, i + 1).1;
      assert r.1 == [false] + tail;
      assert forall j | 1 <= j < |r.1| :: r.1[j] == tail[j - 1];
    }
  }

  lemma {:induction false} RestoreNone(s: string, found: seq<bool>, i: nat)
    requires |found| == |Tokens| && i <= |Tokens|
    requires forall j | i <= j < |Tokens| :: !found[j]
    ensures RestoreFrom(s, found, i) == s
    decreases |Tokens| - i
  {
    if i < |Tokens| {
      RestoreNone(s, found, i + 1);
    }
  }

  /** Without placeholders, sheltering changes nothing and restoring puts nothing back. */
  lemma SheltersNothing(js: string, t: string)
    ensures (forall j | 0 <= j < |Tokens| :: !Contains(js, Tokens[j])) ==>
      ProtectFrom(js, 0).0 == js && RestoreFrom(t, ProtectFrom(js, 0).1, 0) == t
  {
    if forall j | 0 <= j < |Tokens| :: !Contains(js, Tokens[j]) {
      ProtectNone(js, 0);
      RestoreNone(t, ProtectFrom(js, 0).1, 0);
    }
  }

  // ---------------------------------------------------------------------
  // Scripts: a placeholder survives

  /** The shape of a placeholder: `{{`, a name without braces, `}}`. */
  predicate BraceToken(t: string) {
    && |t| >= 4 && t[0] == '{' && t[1] == '{' && t[|t| - 2] == '}' && t[|t| - 1] == '}'
    && forall i | 2 <= i < |t| - 2 :: t[i] != '{' && t[i] != '}'
  }


  lemma TokensShape(i: nat)
    requires i < |Tokens|
    ensures BraceToken(Tokens[i])
  {
  }

  lemma TokensDistinct(i: nat, j: nat)
    requires i < |Tokens| && j < |Tokens| && i != j
    ensures Tokens[i] != Tokens[j]
  {
    assert Tokens[0][7] == '1' && Tokens[1][7] == '2';
  }

  /** The key is one solid word that starts with `_` and holds neither `/` nor a brace. */
  lemma KeyShape(i: nat)
    requires i < |Tokens|
    ensures Solid(Key(i)) && Key(i)[0] == '_' && CharFree(Key(i), '/') && BraceFree(Key(i))
  {
    var k := Key(i);
    assert forall j | 0 <= j < |k| :: k[j] == if j < |KeyPrefix| then KeyPrefix[j] else if j == |KeyPrefix| then DigitChar(i) else '_';
  }

  lemma CharFreeJoin(a: string, k: string, b: string, c: char)
    requires CharFree(a, c) && CharFree(k, c) && CharFree(b, c)
    ensures CharFree(a + k + b, c)
  {
  }

  /** In `a + t + b` with brace-free sides, the braces are those of the placeholder `t`. */
  lemma BracePositions(a: string, t: string, b: string, k: nat)
    requires BraceFree(a) && BraceFree(b) && BraceToken(t) && k < |a + t + b|
    ensures (a + t + b)[k] == '{' ==> k == |a| || k == |a| + 1
    ensures (a + t + b)[k] == '}' ==> k == |a| + |t| - 2 || k == |a| + |t| - 1
  {
    var s := a + t + b;
    if k < |a| {
      assert s[k] == a[k];
    } else if k < |a| + |t| {
      assert s[k] == t[k - |a|];
    } else {
      assert s[k] == b[k - |a| - |t|];
    }
  }

  /** Between brace-free sides, the only placeholder-shaped text is the placeholder itself. */
  lemma OnlyItself(a: string, t: string, b: string, u: string)
    requires BraceFree(a) && BraceFree(b) && BraceToken(t) && BraceToken(u)
    ensures Contains(a + t + b, u) <==> u == t
  {
    var s := a + t + b;
    if Contains(s, u) {
      var j :| 0 <= j <= |s| && OccursAt(s, u, j);
      var e := j + |u| - 1;
      assert s[j] == u[0] && s[j + 1] == u[1] && s[e - 1] == u[|u| - 2] && s[e] == u[|u| - 1] by {
        assert s[j..j + |u|] == u;
      }
      BracePositions(a, t, b, j);
      BracePositions(a, t, b, j + 1);
      BracePositions(a, t, b, e - 1);
      BracePositions(a, t, b, e);
      assert u == s[|a|..|a| + |t|];
    }
    if u == t {
      assert s[|a|..|a| + |t|] == t;
      assert OccursAt(s, u, |a|);
    }
  }

  /** Text without `{` gets no key and keeps every flag down. */
  lemma ProtectAfter(s: string, i: nat)
    requires i <= |Tokens| && CharFree(s, '{')
    ensures var r := ProtectFrom(s, i);
      r.0 == s && forall j | 0 <= j < |r.1| :: !r.1[j]
  {
    forall j | i <= j < |Tokens|
      ensures !Contains(s, Tokens[j])
    {
      TokensShape(j);
      CharFreeAbsent(s, Tokens[j], 0);
    }
    ProtectNone(s, i);
  }

  /** One sheltering step: the flag says whether the placeholder was there, and the rest follows. */
  lemma ProtectStep(s: string, i: nat)
    requires i < |Tokens|
    ensures var r := ProtectFrom(s, i);
      var rest := ProtectFrom(ReplaceAll(s, Tokens[i], Key(i)), i + 1);
      r.0 == rest.0 && r.1 == [Contains(s, Tokens[i])] + rest.1
  {
  }

  lemma FlagsShift(head: bool, tail: seq<bool>, i: nat, idx: nat)
    requires head == (i == idx)
    requires forall j | 0 <= j < |tail| :: tail[j] == (i + 1 + j == idx)
    ensures forall j | 0 <= j < |tail| + 1 :: ([head] + tail)[j] == (i + j == idx)
  {
    assert forall j | 1 <= j < |tail| + 1 :: ([head] + tail)[j] == tail[j - 1];
  }

  /** The sheltering of one placeholder between brace-free sides: its key in its place, its flag alone up. */
  predicate ShelteredFrom(a: string, b: string, idx: nat, i: nat)
    requires i <= idx < |Tokens|
  {
    var r := ProtectFrom(a + Tokens[idx] + b, i);
    r.0 == a + Key(idx) + b && forall j | 0 <= j < |r.1| :: r.1[j] == (i + j == idx)
  }

  lemma {:induction false} ProtectOne(a: string, b: string, idx: nat, i: nat)
    requires i <= idx < |Tokens| && BraceFree(a) && BraceFree(b)
    ensures ShelteredFrom(a, b, idx, i)
    decreases idx - i
  {
    if i < idx {
      ProtectOne(a, b, idx, i + 1);
      ProtectBefore(a, b, idx, i);
    } else {
      ProtectAt(a, b, idx);
    }
  }

  lemma ProtectBefore(a: string, b: string, idx: nat, i: nat)
    requires i < idx < |Tokens| && BraceFree(a) && BraceFree(b)
    requires ShelteredFrom(a, b, idx, i + 1)
    ensures ShelteredFrom(a, b, idx, i)
  {
    var s := a + Tokens[idx] + b;
    ProtectStep(s, i);
    ProtectOther(a, b, idx, i);
    FlagsShift(false, ProtectFrom(s, i + 1).1, i, idx);
  }

  lemma ProtectAt(a: string, b: string, idx: nat)
    requires idx < |Tokens| && BraceFree(a) && BraceFree(b)
    ensures ShelteredFrom(a, b, idx, idx)
  {
    var s := a + Tokens[idx] + b;
    ProtectStep(s, idx);
    ProtectHere(a, b, idx);
    var t := a + Key(idx) + b;
    var tail := ProtectFrom(t, idx + 1).1;
    assert ProtectFrom(s, idx).1 == [true] + tail;
    FlagsShift(true, tail, idx, idx);
  }

  /** A placeholder other than the one present is absent, so its step changes nothing. */
  lemma ProtectOther(a: string, b: string, idx: nat, i: nat)
    requires i < idx < |Tokens| && BraceFree(a) && BraceFree(b)
    ensures var s := a + Tokens[idx] + b;
      !Contains(s, Tokens[i]) && ReplaceAll(s, Tokens[i], Key(i)) == s
  {
    var s := a + Tokens[idx] + b;
    TokensShape(idx);
    TokensShape(i);
    TokensDistinct(i, idx);
    OnlyItself(a, Tokens[idx], b, Tokens[i]);
    ReplaceAllAbsent(s, Tokens[i], Key(i));
  }

  /** The placeholder present becomes its key, and nothing later is found. */
  lemma ProtectHere(a: string, b: string, idx: nat)
    requires idx < |Tokens| && BraceFree(a) && BraceFree(b)
    ensures var s := a + Tokens[idx] + b;
      var t := a + Key(idx) + b;
      var r := ProtectFrom(t, idx + 1);
      && Contains(s, Tokens[idx]) && ReplaceAll(s, Tokens[idx], Key(idx)) == t
      && r.0 == t && forall j | 0 <= j < |r.1| :: !r.1[j]
  {
    TokensShape(idx);
    OnlyItself(a, Tokens[idx], b, Tokens[idx]);
    ReplaceAt(a, Tokens[idx], b, Key(idx));
    KeyShape(idx);
    CharFreeJoin(a, Key(idx), b, '{');
    ProtectAfter(a + Key(idx) + b, idx + 1);
  }

  lemma {:induction false} RestoreSkip(s: string, found: seq<bool>, i: nat, idx: nat)
    requires |found| == |Tokens| && i <= idx <= |Tokens|
    requires forall j | i <= j < idx :: !found[j]
    ensures RestoreFrom(s, found, i) == RestoreFrom(s, found, idx)
    decreases idx - i
  {
    if i < idx {
      RestoreSkip(s, found, i + 1, idx);
    }
  }

  /** Restoring a lone key between sides without `_` puts its placeholder back. */
  lemma RestoreOne(x: string, y: string, idx: nat, found: seq<bool>)
    requires idx < |Tokens| && |found| == |Tokens|
    requires forall j | 0 <= j < |Tokens| :: found[j] == (j == idx)
    requires CharFree(x, '_') && CharFree(y, '_')
    ensures RestoreFrom(x + Key(idx) + y, found, 0) == x + Tokens[idx] + y
  {
    var s := x + Key(idx) + y;
    RestoreSkip(s, found, 0, idx);
    KeyShape(idx);
    ReplaceAt(x, Key(idx), y, Tokens[idx]);
    RestoreNone(x + Tokens[idx] + y, found, idx + 1);
  }

  /** Text free of braces, `_` and `/`: no placeholder, key or comment can begin in it. */
  predicate Inert(s: string) {
    BraceFree(s) && CharFree(s, '_') && CharFree(s, '/')
  }

  /** A placeholder in inert surroundings comes out of the minifier unchanged, in its place. */
  lemma TokenSurvives(a: string, b: string, idx: nat, fix: Fix)
    requires idx < |Tokens| && Inert(a) && Inert(b)
    ensures ObfuscateJavascript(a + Tokens[idx] + b, fix) == Compact(a) + Tokens[idx] + Compact(b)
  {
    ProtectOne(a, b, idx, 0);
    var p := ProtectFrom(a + Tokens[idx] + b, 0);
    var s := a + Key(idx) + b;
    KeyShape(idx);
    CharFreeJoin(a, Key(idx), b, '/');
    CharFreeAbsent(s, "/*", 0);
    CompactAround(a, Key(idx), b);
    CompactKeepsFree(a, '_');
    CompactKeepsFree(b, '_');
    RestoreOne(Compact(a), Compact(b), idx, p.1);
  }

  // ---------------------------------------------------------------------
  // Scripts: ordinary line comments

  /** `//` starts a string when its first two characters are slashes. */
  lemma SlashSlash(s: string)
    ensures StartsWith(s, "//") <==> |s| >= 2 && s[0] == '/' && s[1] == '/'
  {
    if |s| >= 2 {
      assert s[..2] == [s[0], s[1]];
    }
  }

  /** Compacting keeps a leading `//`. */
  lemma CompactSlashes(x: string)
    ensures Compact("//" + x) == "//" + Compact(x)
  {
    assert "" + "//" + x == "//" + x;
    CompactAround("", "//", x);
  }

  /**
   As written, an ordinary line comment is neither removed nor ended: the
   line break after it becomes a space, so the code of the next line joins
   the comment and is commented out.
   */
  lemma LineCommentSwallowsCode(c: string, code: string)
    requires CharFree(c, '\n')
    requires CharFree(c, '{') && CharFree(c, '_') && CharFree(c, '*')
    requires CharFree(code, '{') && CharFree(code, '_') && CharFree(code, '*')
    ensures var r := ObfuscateJavascript("//" + c + "\n" + code, AsWritten);
      r == "//" + Compact(c + "\n" + code) && CharFree(r, '\n')
  {
    var x := c + "\n" + code;
    var s := "//" + x;
    assert s == "//" + c + "\n" + code;
    CharFreeJoin("//" + c, "\n", code, '{');
    CharFreeJoin("//" + c, "\n", code, '_');
    CharFreeJoin("//" + c, "\n", code, '*');
    forall j | 0 <= j < |Tokens|
      ensures !Contains(s, Tokens[j])
    {
      TokensShape(j);
      CharFreeAbsent(s, Tokens[j], 0);
    }
    CharFreeAbsent(s, "/*", 1);
    CompactSlashes(x);
  }

  /** A comment without line break or key is measured up to the line break that ends it. */
  lemma {:induction false} CommentLengthStops(c: string, rest: string)
    requires CharFree(c, '\n') && CharFree(c, '_')
    requires |rest| == 0 || rest[0] == '\n'
    ensures CommentLength(c + rest) == |c|
    decreases |c|
  {
    if |c| == 0 {
      assert c + rest == rest;
    } else {
      var t := c + rest;
      assert t[0] == c[0];
      if |t| >= |KeyPrefix| {
        assert t[..|KeyPrefix|][0] == t[0];
      }
      SuffixOfAppend(c, rest, 1);
      CommentLengthStops(c[1..], rest);
    }
  }

  /** Corrected, an ordinary line comment goes and its line break stays. */
  lemma CorrectedDropsLineComment(c: string, code: string)
    requires CharFree(c, '\n') && CharFree(c, '_')
    ensures StripLineComments("//" + c + "\n" + code, Corrected) == "\n" + StripLineComments(code, Corrected)
  {
    var s := "//" + c + "\n" + code;
    assert s[..2] == "//";
    assert s[2..] == c + ("\n" + code);
    CommentLengthStops(c, "\n" + code);
    var u := "\n" + code;
    assert s[2 + |c|..] == u;
    SlashSlash(u);
    assert u[1..] == code;
  }

  /** Putting a character before text without `//` makes no `//` unless both are slashes. */
  lemma ConsNoPair(ch: char, t: string)
    requires !Contains(t, "//")
    requires ch != '/' || |t| == 0 || t[0] != '/'
    ensures !Contains([ch] + t, "//")
  {
    var u := [ch] + t;
    assert u[1..] == t;
    forall j | 0 <= j <= |u|
      ensures !OccursAt(u, "//", j)
    {
      if j >= 1 {
        OccursShift(u, "//", j);
      } else if 2 <= |u| {
        assert u[0..2] == [ch, t[0]];
      }
    }
  }

  lemma StripHead(s: string, fix: Fix)
    requires |s| > 0 && !StartsWith(s, "//")
    ensures StripLineComments(s, fix) == [s[0]] + StripLineComments(s[1..], fix)
  {
  }

  /** The corrected stripper leaves no `//` at all. */
  lemma {:induction false} NoLineCommentLeft(s: string)
    ensures !Contains(StripLineComments(s, Corrected), "//")
    decreases |s|
  {
    if |s| == 0 {
      assert forall j | 0 <= j <= 0 :: !OccursAt("", "//", j);
    } else if StartsWith(s, "//") {
      NoLineCommentLeft(s[2 + CommentLength(s[2..])..]);
    } else {
      var t := s[1..];
      NoLineCommentLeft(t);
      StripHead(s, Corrected);
      SlashSlash(s);
      if |t| > 0 {
        SlashSlash(t);
        assert t[0] == s[1];
        if t[0] != '/' {
          StripHead(t, Corrected);
        }
      }
      ConsNoPair(s[0], StripLineComments(t, Corrected));
    }
  }

  // ---------------------------------------------------------------------
  // Image paths

  /**
   `update_image_paths`: both image statements in both quote styles, then
   the embedded configuration. `AsWritten` is the program; `Corrected`
   moves only the quoted value of each statement. A page with no image
   statement in either quote style and no embedded configuration keeps its
   paths.
   */
  function UpdateImagePaths(content: string, parse: string -> Option<Config>, dump: Config -> string, fix: Fix): (r: string)
    ensures && !Contains(content, Opening("image1Url", '\'')) && !Contains(content, Opening("image2Url", '\''))
            && !Contains(content, Opening("image1Url", '"')) && !Contains(content, Opening("image2Url", '"'))
            && !Contains(content, ConfigOpening)
            ==> r == content
  {
    var c1 := RewriteStatements(content, "image1Url", '\'', fix);
    var c2 := RewriteStatements(c1, "image2Url", '\'', fix);
    var c3 := RewriteStatements(c2, "image1Url", '"', fix);
    var c4 := RewriteStatements(c3, "image2Url", '"', fix);
    OpeningFreeNotContains(c4);
    RewriteEmbedded(c4, parse, dump, false)
  }
}

/**
 A page as one statement pattern's rewrite reads it: a run of pieces,
 each either one character copied as it is or one whole recognised
 statement. Scanning and rendering are inverse, the corrected rewrite is
 the rendering with every statement's value moved under `assets/`, and
 rewriting the result again changes nothing.
 */
module PageScan {
  import opened Wrappers
  import opened Strings
  import opened AssetPaths

  datatype Piece = Verbatim(c: char) | Stmt(path: string)

  /** The pieces the rewrite meets, scanning from the left as `re.sub` does. */
  function Scan(s: string, name: string, quote: char): seq<Piece>
    decreases |s|
  {
    if |s| == 0 then []
    else
      match StatementValue(s, name, quote)
      case Some(path) => [Stmt(path)] + Scan(s[|Statement(name, quote, path)|..], name, quote)
      case None => [Verbatim(s[0])] + Scan(s[1..], name, quote)
  }

  function RenderPiece(p: Piece, name: string, quote: char): string {
    match p
    case Verbatim(c) => [c]
    case Stmt(path) => Statement(name, quote, path)
  }

  function Render(ps: seq<Piece>, name: string, quote: char): string {
    if |ps| == 0 then "" else RenderPiece(ps[0], name, quote) + Render(ps[1..], name, quote)
  }

  /** A run of pieces that scanning its rendering gives back: no statement starts at a copied character. */
  predicate Stable(ps: seq<Piece>, name: string, quote: char) {
    |ps| > 0 ==>
      && (match ps[0]
          case Verbatim(_) => StatementValue(Render(ps, name, quote), name, quote).None?
          case Stmt(path) => |path| > 0 && CharFree(path, quote))
      && Stable(ps[1..], name, quote)
  }

  /** Every statement's value moved as the corrected rewrite moves it; copied characters kept. */
  function Moved(ps: seq<Piece>): seq<Piece> {
    if |ps| == 0 then []
    else
      var head := match ps[0]
        case Verbatim(_) => ps[0]
        case Stmt(path) => Stmt(FixUrl(path, false));
      [head] + Moved(ps[1..])
  }

  /**
   Moving keeps every copied character and every statement in its place;
   each statement's value ends up under `assets/`, a value already there
   kept and any other one put under `assets/images/`.
   */
  lemma {:induction false} MovedValues(ps: seq<Piece>)
    ensures |Moved(ps)| == |ps|
    ensures forall i :: 0 <= i < |ps| && ps[i].Verbatim? ==> Moved(ps)[i] == ps[i]
    ensures forall i :: 0 <= i < |ps| && ps[i].Stmt? ==>
      Moved(ps)[i].Stmt? && StartsWith(Moved(ps)[i].path, AssetsPrefix)
    ensures forall i :: 0 <= i < |ps| && ps[i].Stmt? && StartsWith(ps[i].path, AssetsPrefix) ==> Moved(ps)[i] == ps[i]
    ensures forall i :: 0 <= i < |ps| && ps[i].Stmt? && !StartsWith(ps[i].path, AssetsPrefix) ==>
      Moved(ps)[i] == Stmt(ImagesPrefix + ps[i].path)
  {
    if |ps| > 0 {
      MovedValues(ps[1..]);
      var qs := Moved(ps);
      assert qs[1..] == Moved(ps[1..]);
      forall i | 1 <= i < |ps|
        ensures qs[i] == Moved(ps[1..])[i - 1] && ps[i] == ps[1..][i - 1]
      {
      }
    }
  }

  /**
   The statement's opening starts with the only `c` in it, and the quote
   does not occur in the image folder's prefix: so no statement can start
   inside another's opening, and a moved value stays quote-free.
   */
  predicate Unambiguous(name: string, quote: char) {
    CharFree(name, 'c') && quote != 'c' && CharFree(ImagesPrefix, quote)
  }

  lemma OpeningStartsOnce(name: string, quote: char)
    requires Unambiguous(name, quote)
    ensures var o := Opening(name, quote);
      |o| > 1 && o[0] == 'c' && o[|o| - 1] == quote && forall i :: 0 < i < |o| ==> o[i] != 'c'
  {
    var o := Opening(name, quote);
    forall i | 0 < i < |o|
      ensures o[i] != 'c'
    {
      if 6 <= i < 6 + |name| {
        assert o[i] == name[i - 6];
      }
    }
  }

  /** Scanning and rendering give the page back. */
  lemma {:induction false} ScanRender(s: string, name: string, quote: char)
    ensures Render(Scan(s, name, quote), name, quote) == s
    decreases |s|
  {
    if |s| > 0 {
      var ps := Scan(s, name, quote);
      match StatementValue(s, name, quote)
      case Some(path) =>
        var n := |Statement(name, quote, path)|;
        StatementValueShape(s, name, quote);
        ScanRender(s[n..], name, quote);
        RenderCons(Stmt(path), Scan(s[n..], name, quote), name, quote);
        assert s == Statement(name, quote, path) + s[n..];
      case None =>
        ScanRender(s[1..], name, quote);
        RenderCons(Verbatim(s[0]), Scan(s[1..], name, quote), name, quote);
        assert s == [s[0]] + s[1..];
    }
  }

  lemma RenderCons(p: Piece, ps: seq<Piece>, name: string, quote: char)
    ensures Render([p] + ps, name, quote) == RenderPiece(p, name, quote) + Render(ps, name, quote)
  {
    assert ([p] + ps)[1..] == ps;
  }

  /** The pieces of any page are stable. */
  lemma {:induction false} ScanStable(s: string, name: string, quote: char)
    ensures Stable(Scan(s, name, quote), name, quote)
    decreases |s|
  {
    if |s| > 0 {
      var ps := Scan(s, name, quote);
      match StatementValue(s, name, quote)
      case Some(path) =>
        StatementValueShape(s, name, quote);
        ScanStable(s[|Statement(name, quote, path)|..], name, quote);
        assert ps[1..] == Scan(s[|Statement(name, quote, path)|..], name, quote);
      case None =>
        ScanRender(s, name, quote);
        ScanStable(s[1..], name, quote);
        assert ps[1..] == Scan(s[1..], name, quote);
    }
  }

  /** Rendering stable pieces and scanning the text gives the same pieces. */
  lemma {:induction false} RenderScan(ps: seq<Piece>, name: string, quote: char)
    requires Stable(ps, name, quote)
    ensures Scan(Render(ps, name, quote), name, quote) == ps
  {
    if |ps| > 0 {
      var rest := Render(ps[1..], name, quote);
      RenderScan(ps[1..], name, quote);
      match ps[0]
      case Verbatim(c) =>
        assert Render(ps, name, quote) == [c] + rest;
        assert Render(ps, name, quote)[1..] == rest;
      case Stmt(path) =>
        StatementAtFront(name, quote, path, rest);
        assert Render(ps, name, quote)[|Statement(name, quote, path)|..] == rest;
    }
  }

  /** The corrected rewrite is the rendering of the page's pieces with their values moved. */
  lemma {:induction false} RewriteMoved(s: string, name: string, quote: char)
    ensures RewriteStatements(s, name, quote, Corrected) == Render(Moved(Scan(s, name, quote)), name, quote)
    decreases |s|
  {
    if |s| > 0 {
      var ps := Scan(s, name, quote);
      match StatementValue(s, name, quote)
      case Some(path) =>
        var rest := s[|Statement(name, quote, path)|..];
        RewriteMoved(rest, name, quote);
        assert ps[1..] == Scan(rest, name, quote);
        assert Replacement(name, quote, path, Corrected) == Statement(name, quote, FixUrl(path, false));
      case None =>
        RewriteMoved(s[1..], name, quote);
        assert ps[1..] == Scan(s[1..], name, quote);
    }
  }

  /** Two texts that agree up to `n` find the same first occurrence when one lies inside that prefix. */
  lemma IndexOfAgree(a: string, b: string, t: string, n: nat, j: nat)
    requires n <= |a| && n <= |b| && a[..n] == b[..n]
    requires OccursAt(a, t, j) && j + |t| <= n
    ensures IndexOf(a, t).Some? && IndexOf(a, t) == IndexOf(b, t) && IndexOf(a, t).value <= j
  {
    IndexOfFirst(a, t);
    IndexOfFirst(b, t);
    forall i | 0 <= i && i + |t| <= n
      ensures OccursAt(a, t, i) <==> OccursAt(b, t, i)
    {
      assert a[i..i + |t|] == a[..n][i..i + |t|];
      assert b[i..i + |t|] == b[..n][i..i + |t|];
    }
    assert OccursAt(b, t, j);
    assert Contains(a, t) && Contains(b, t);
  }

  /** An opening whose first character does not recur cannot start inside its own first characters. */
  lemma NotInsideOpening(x: string, o: string, y: string)
    requires |o| > 0 && forall i :: 0 < i < |o| ==> o[i] != o[0]
    ensures 0 < |x| < |o| ==> !StartsWith(x + o + y, o)
  {
    var s := x + o + y;
    if 0 < |x| < |o| {
      assert s[|x|] == o[0];
      assert o[|x|] != o[0];
      assert |s| >= |o| ==> s[..|o|][|x|] != o[|x|];
    }
  }

  /**
   Changing what follows a statement's opening, to text that does not
   start with `;`, starts no statement at an earlier character.
   */
  lemma NoNewStatement(x: string, y1: string, y2: string, name: string, quote: char)
    requires Unambiguous(name, quote)
    requires |x| > 0 && |y1| > 0 && |y2| > 0 && y2[0] != ';'
    requires StatementValue(x + Opening(name, quote) + y1, name, quote).None?
    ensures StatementValue(x + Opening(name, quote) + y2, name, quote).None?
  {
    var o := Opening(name, quote);
    var s1 := x + o + y1;
    var s2 := x + o + y2;
    OpeningStartsOnce(name, quote);
    NotInsideOpening(x, o, y2);
    if StartsWith(s2, o) {
      assert s1[..|o|] == x[..|o|] == s2[..|o|];
      var t1 := s1[|o|..];
      var t2 := s2[|o|..];
      assert t1[..|x|] == t2[..|x|] by {
        assert t1[..|x|] == (x + o)[|o|..|o| + |x|];
        assert t2[..|x|] == (x + o)[|o|..|o| + |x|];
      }
      assert OccursAt(t1, [quote], |x| - 1) by {
        assert t1[|x| - 1] == o[|o| - 1];
      }
      IndexOfAgree(t1, t2, [quote], |x|, |x| - 1);
      var k := IndexOf(t1, [quote]).value;
      if k < |x| - 1 {
        assert s1[|o| + k + 1] == s2[|o| + k + 1];
      } else {
        assert s2[|o| + k + 1] == y2[0];
      }
    }
  }

  /** A moved statement's text is its opening followed by a value that starts with `a`. */
  lemma MovedStatementShape(name: string, quote: char, path: string, rest: string)
    ensures Statement(name, quote, FixUrl(path, false)) + rest
      == Opening(name, quote) + (FixUrl(path, false) + [quote] + ";" + rest)
    ensures (FixUrl(path, false) + [quote] + ";" + rest)[0] == 'a'
  {
    var v := FixUrl(path, false);
    assert v[..|AssetsPrefix|] == AssetsPrefix;
    assert v[0] == AssetsPrefix[0];
  }

  /** Moving one statement's value starts no statement in the text in front of it. */
  lemma MovedStatementNoNew(x: string, path: string, rest1: string, rest2: string, name: string, quote: char)
    requires Unambiguous(name, quote) && |x| > 0
    requires StatementValue(x + Statement(name, quote, path) + rest1, name, quote).None?
    ensures StatementValue(x + Statement(name, quote, FixUrl(path, false)) + rest2, name, quote).None?
  {
    var o := Opening(name, quote);
    var y1 := path + [quote] + ";" + rest1;
    var y2 := FixUrl(path, false) + [quote] + ";" + rest2;
    assert x + Statement(name, quote, path) + rest1 == x + o + y1;
    MovedStatementShape(name, quote, path, rest2);
    assert x + Statement(name, quote, FixUrl(path, false)) + rest2 == x + o + y2;
    NoNewStatement(x, y1, y2, name, quote);
  }

  /** With any text in front, moving the values starts no statement in front that was not there. */
  lemma {:induction false} MovedNoNewStatement(x: string, ps: seq<Piece>, name: string, quote: char)
    requires Unambiguous(name, quote) && |x| > 0
    requires StatementValue(x + Render(ps, name, quote), name, quote).None?
    ensures StatementValue(x + Render(Moved(ps), name, quote), name, quote).None?
    decreases |ps|
  {
    if |ps| > 0 {
      var r1 := Render(ps[1..], name, quote);
      var r2 := Render(Moved(ps[1..]), name, quote);
      MovedUnfold(ps, name, quote);
      match ps[0]
      case Verbatim(c) =>
        Regroup(x, [c], r1);
        MovedNoNewStatement(x + [c], ps[1..], name, quote);
        Regroup(x, [c], r2);
      case Stmt(path) =>
        Regroup(x, Statement(name, quote, path), r1);
        Regroup(x, Statement(name, quote, FixUrl(path, false)), r2);
        MovedStatementNoNew(x, path, r1, r2, name, quote);
    }
  }

  lemma Regroup(x: string, a: string, b: string)
    ensures x + (a + b) == x + a + b
  {
  }

  /** One step of rendering, before and after moving. */
  lemma MovedUnfold(ps: seq<Piece>, name: string, quote: char)
    requires |ps| > 0
    ensures Render(ps, name, quote) == RenderPiece(ps[0], name, quote) + Render(ps[1..], name, quote)
    ensures Moved(ps)[1..] == Moved(ps[1..])
    ensures Render(Moved(ps), name, quote) == RenderPiece(Moved(ps)[0], name, quote) + Render(Moved(ps[1..]), name, quote)
    ensures ps[0].Verbatim? ==> Moved(ps)[0] == ps[0]
    ensures ps[0].Stmt? ==> Moved(ps)[0] == Stmt(FixUrl(ps[0].path, false))
  {
    assert Moved(ps)[1..] == Moved(ps[1..]);
  }

  /** Moving the values of stable pieces keeps them stable. */
  lemma {:induction false} MovedStable(ps: seq<Piece>, name: string, quote: char)
    requires Unambiguous(name, quote) && Stable(ps, name, quote)
    ensures Stable(Moved(ps), name, quote)
  {
    if |ps| > 0 {
      var qs := Moved(ps);
      assert qs[1..] == Moved(ps[1..]);
      MovedStable(ps[1..], name, quote);
      match ps[0]
      case Verbatim(c) =>
        assert Render(ps, name, quote) == [c] + Render(ps[1..], name, quote);
        MovedNoNewStatement([c], ps[1..], name, quote);
        assert Render(qs, name, quote) == [c] + Render(qs[1..], name, quote);
      case Stmt(path) =>
        if !StartsWith(path, AssetsPrefix) {
          CharFreeConcat(ImagesPrefix, path, quote);
        }
    }
  }

  lemma {:induction false} MovedTwice(ps: seq<Piece>)
    ensures Moved(Moved(ps)) == Moved(ps)
  {
    if |ps| > 0 {
      MovedTwice(ps[1..]);
      assert Moved(ps)[1..] == Moved(ps[1..]);
      if ps[0].Stmt? {
        FixUrlIdempotent(ps[0].path, false);
      }
    }
  }

  /**
   Scanning the corrected page finds the original's pieces: the same
   characters copied, and every statement still there with its value
   moved under `assets/`.
   */
  lemma RewriteScan(s: string, name: string, quote: char)
    requires Unambiguous(name, quote)
    ensures Scan(RewriteStatements(s, name, quote, Corrected), name, quote) == Moved(Scan(s, name, quote))
  {
    var ps := Scan(s, name, quote);
    ScanStable(s, name, quote);
    RewriteMoved(s, name, quote);
    MovedStable(ps, name, quote);
    RenderScan(Moved(ps), name, quote);
  }

  /** Rewriting a corrected page again changes nothing. */
  lemma RewriteIdempotent(s: string, name: string, quote: char)
    requires Unambiguous(name, quote)
    ensures RewriteStatements(RewriteStatements(s, name, quote, Corrected), name, quote, Corrected)
      == RewriteStatements(s, name, quote, Corrected)
  {
    var r := RewriteStatements(s, name, quote, Corrected);
    RewriteScan(s, name, quote);
    RewriteMoved(r, name, quote);
    RewriteMoved(s, name, quote);
    MovedTwice(Scan(s, name, quote));
  }

  /** The four statement patterns the page scripts rewrite are unambiguous. */
  lemma ImageStatementsUnambiguous()
    ensures Unambiguous("image1Url", '\'') && Unambiguous("image2Url", '\'')
    ensures Unambiguous("image1Url", '"') && Unambiguous("image2Url", '"')
  {
    assert CharFree("image1Url", 'c') && CharFree("image2Url", 'c');
    assert CharFree(ImagesPrefix, '\'') && CharFree(ImagesPrefix, '"');
  }
}

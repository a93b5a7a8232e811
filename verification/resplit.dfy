/** Splitting the joined statements again gives the same statements. */
module Resplit {
  import opened Prelude
  import opened Lexer
  import opened Splitter
  import opened SplitterTheorem

  /** The statement texts of some pieces, in order. */
  function Bodies(ps: seq<Piece>): seq<string> {
    if ps == [] then []
    else (if Body(ps[0].raw) == [] then [] else [Body(ps[0].raw)]) + Bodies(ps[1..])
  }

  function Texts(ss: seq<RawStatement>): (r: seq<string>)
    ensures |r| == |ss| && forall i | 0 <= i < |r| :: r[i] == ss[i].text
  {
    seq(|ss|, i requires 0 <= i < |ss| => ss[i].text)
  }

  lemma {:induction false} BodiesConcat(a: seq<Piece>, b: seq<Piece>)
    ensures Bodies(a + b) == Bodies(a) + Bodies(b)
  {
    if a == [] {
      assert a + b == b;
    } else {
      assert (a + b)[1..] == a[1..] + b;
      BodiesConcat(a[1..], b);
    }
  }

  lemma {:induction false} TextsAreBodies(ps: seq<Piece>, path: string)
    ensures Texts(Statements(ps, path)) == Bodies(ps)
    decreases |ps|
  {
    if ps != [] {
      var n := |ps| - 1;
      TextsAreBodies(ps[..n], path);
      assert ps == ps[..n] + [ps[n]];
      BodiesConcat(ps[..n], [ps[n]]);
      LastStatement(ps[..n], ps[n], path);
    }
  }

  lemma LastStatement(ps: seq<Piece>, p: Piece, path: string)
    ensures Texts(Statements(ps + [p], path)) == Texts(Statements(ps, path)) + Bodies([p])
  {
    assert (ps + [p])[..|ps|] == ps && [p][1..] == [];
  }

  /** The statement texts, a semicolon on its own line between them. */
  function Join(texts: seq<string>): string {
    if texts == [] then [] else if |texts| == 1 then texts[0] else texts[0] + "\n;\n" + Join(texts[1..])
  }

  // ---- trivia ends where the scan is back in the default state ----

  lemma {:induction false} LineCommentEnds(s: string)
    requires FindNewline(s).Some?
    ensures var e := FindNewline(s).value;
            Run(s[..e + 1], Line, Peek(s[e + 1..], None)) == Default
  {
    var e := FindNewline(s).value;
    var head := s[..e + 1];
    if s[0] != '\n' {
      LineCommentEnds(s[1..]);
      assert head[1..] == s[1..][..e] && s[1..][e..] == s[e + 1..];
    } else {
      assert head[1..] == [];
    }
  }

  lemma {:induction false} BlockCommentEnds(s: string)
    requires FindClose(s).Some?
    ensures var e := FindClose(s).value + 2;
            Run(s[..e], Block, Peek(s[e..], None)) == Default
  {
    var e := FindClose(s).value + 2;
    var head, after := s[..e], Peek(s[e..], None);
    if s[0] == '*' && s[1] == '/' {
      assert head == "*/" && head[1..] == "/" && head[1..][1..] == [];
      assert Run(head, Block, after) == Run("/", Closing, after) == Run([], Default, after);
    } else {
      BlockCommentEnds(s[1..]);
      assert head[1..] == s[1..][..e - 1] && s[1..][e - 1..] == s[e..];
      assert Peek(head[1..], after) == Some(s[1]);
    }
  }

  /** One token of trivia: how long it is, and that the scan is back where it was. */
  lemma TriviaToken(s: string) returns (e: nat)
    requires Tidy(s, Default) && Trivia(s) < |s| && Trivia(s) > 0
    ensures 0 < e <= |s| && Trivia(s) == e + Trivia(s[e..]) && Run(s[..e], Default, Peek(s[e..], None)) == Default
  {
    if IsSpace(s[0]) {
      e := 1;
      assert s[..1][1..] == [];
    } else if StartsWith(s, '-', '-') {
      e := FindNewline(s).value + 1;
      LineCommentEnds(s);
      SlicesFrom(s, 1, e);
      assert s[..e][1..] == s[1..e];
      LineFromSecond(s, e);
    } else {
      e := FindClose(s[2..]).value + 4;
      BlockCommentEnds(s[2..]);
      SlicesFrom(s, 2, e);
      BlockFromThird(s, e);
    }
  }

  lemma SlicesFrom(s: string, i: nat, e: nat)
    requires i <= e <= |s|
    ensures s[i..][..e - i] == s[i..e] && s[i..][e - i..] == s[e..]
  {
  }

  lemma LineFromSecond(s: string, e: nat)
    requires StartsWith(s, '-', '-') && 1 < e <= |s| && Run(s[..e], Line, Peek(s[e..], None)) == Default
    ensures Run(s[..e], Default, Peek(s[e..], None)) == Default
  {
    var head, after := s[..e], Peek(s[e..], None);
    assert Peek(head[1..], after) == Some('-');
    assert Run(head, Line, after) == Run(head[1..], Line, after);
    assert Run(head, Default, after) == Run(head[1..], Line, after);
  }

  lemma BlockFromThird(s: string, e: nat)
    requires StartsWith(s, '/', '*') && Tidy(s, Default) && 3 < e <= |s| && Run(s[2..e], Block, Peek(s[e..], None)) == Default
    ensures Run(s[..e], Default, Peek(s[e..], None)) == Default
  {
    var head, after := s[..e], Peek(s[e..], None);
    assert head[1..][1..] == s[2..e];
    assert Peek(head[1..], after) == Some('*');
    assert Peek(head[1..][1..], after) == Some(s[2]);
    assert s[2] != '/';
    assert Run(head, Default, after) == Run(head[1..], Block, after) == Run(s[2..e], Block, after);
  }

  /** After its trivia a tidy text is read from the default state, with no trivia left. */
  lemma {:induction false} AfterTrivia(s: string)
    requires Tidy(s, Default) && Trivia(s) < |s|
    ensures var k := Trivia(s);
            Run(s[..k], Default, Peek(s[k..], None)) == Default && Trivia(s[k..]) == 0
    decreases |s|
  {
    var k := Trivia(s);
    if k == 0 {
      assert s[..0] == [] && s[0..] == s;
    } else {
      var e := TriviaToken(s);
      assert s == s[..e] + s[e..];
      TidySuffix(s[..e], s[e..], Default);
      AfterTrivia(s[e..]);
      var rest := s[e..][..k - e];
      assert s[..k] == s[..e] + rest && s[e..][k - e..] == s[k..];
      RunConcat(s[..e], rest, Default, Peek(s[k..], None));
      if rest != [] { assert rest[0] == s[e..][0]; } else { assert k == e; }
    }
  }

  // ---- what a returned statement is like ----

  /** Starts with no trivia, ends with no white space, and holds no cut. */
  predicate Whole(t: string) { t != [] && Trivia(t) == 0 && RStrip(t) == t && NoCut(t, Default, None) }

  /** Its end is outside literals and block comments. */
  predicate Closed(t: string) { Run(t, Default, None) == Default || Run(t, Default, None) == Line }

  lemma {:induction false} RStripSplits(s: string)
    ensures RStrip(s) + s[|RStrip(s)|..] == s && Blank(s[|RStrip(s)|..]) && RStrip(RStrip(s)) == RStrip(s)
    decreases |s|
  {
    if s != [] && IsSpace(s[|s| - 1]) {
      var p := s[..|s| - 1];
      RStripSplits(p);
      assert s[|RStrip(s)|..] == p[|RStrip(p)|..] + [s[|s| - 1]];
    }
  }

  /** White space read from a literal or a block comment stays there. */
  lemma {:induction false} SpaceStaysInside(w: string, st: State)
    requires Blank(w) && (st == Quote || st == Escape || st == Block)
    ensures Run(w, st, None) != Default && Run(w, st, None) != Line
  {
    if w != [] {
      assert w[0] in w;
      SpaceStaysInside(w[1..], Delta(st, w[0], Peek(w[1..], None)));
    }
  }

  lemma {:induction false} NotClosingBeforeSpace(t: string, st: State, c: char)
    requires t != [] && IsSpace(c)
    ensures Run(t, st, Some(c)) != Closing
  {
    if |t| == 1 { assert t[1..] == []; } else { NotClosingBeforeSpace(t[1..], Delta(st, t[0], Peek(t[1..], Some(c))), c); }
  }

  /** What follows the trivia is read from the default state, to the same end. */
  lemma RemainderIsRead(raw: string)
    requires Tidy(raw, Default) && NoCut(raw, Default, None) && Trivia(raw) < |raw|
    ensures var rem := raw[Trivia(raw)..];
            Trivia(rem) == 0 && NoCut(rem, Default, None) && Run(rem, Default, None) == Run(raw, Default, None)
  {
    var k := Trivia(raw);
    AfterTrivia(raw);
    assert raw == raw[..k] + raw[k..];
    ReadOn(raw[..k], raw[k..]);
  }

  lemma ReadOn(a: string, b: string)
    requires Run(a, Default, Peek(b, None)) == Default && NoCut(a + b, Default, None)
    ensures NoCut(b, Default, None) && Run(b, Default, None) == Run(a + b, Default, None)
  {
    RunConcat(a, b, Default, None);
  }

  lemma NoTriviaInPrefix(t: string, w: string)
    requires Trivia(t + w) == 0 && t != []
    ensures Trivia(t) == 0
  {
    var s := t + w;
    assert s[0] == t[0] && (|t| >= 2 ==> s[1] == t[1]);
    assert !StartsWith(s, '-', '-') && !StartsWith(s, '/', '*');
  }

  /** Dropping white space at the end leaves a text that ends outside literals if it did before. */
  lemma StrippedIsClosed(t: string, w: string)
    requires t != [] && Blank(w) && NoCut(t + w, Default, None)
    ensures NoCut(t, Default, None) && (Run(t + w, Default, None) == Default ==> Closed(t))
  {
    RunConcat(t, w, Default, None);
    if w == [] {
      assert t + w == t;
    } else {
      assert w[0] in w;
      InertAfter(t, Default, Some(w[0]));
      NotClosingBeforeSpace(t, Default, w[0]);
      if Run(t + w, Default, None) == Default && !Closed(t) {
        SpaceStaysInside(w, Run(t, Default, None));
      }
    }
  }

  /** The statement of a tidy piece is whole, and closed if the piece ends in the default state. */
  lemma BodyIsWhole(raw: string)
    requires Tidy(raw, Default) && NoCut(raw, Default, None) && Body(raw) != []
    ensures Whole(Body(raw)) && (Run(raw, Default, None) == Default ==> Closed(Body(raw)))
  {
    assert raw[|raw|..] == [];
    RemainderIsRead(raw);
    var rem, t := raw[Trivia(raw)..], Body(raw);
    RStripSplits(rem);
    NoTriviaInPrefix(t, rem[|t|..]);
    StrippedIsClosed(t, rem[|t|..]);
  }

  // ---- reading a joined text ----

  /** The first cut of x;y is the one between them. */
  lemma {:induction false} CutAt(x: string, y: string, st: State, start: int, line: int) returns (next: int)
    requires NoCut(x, st, None) && Run(x, st, None) == Default
    ensures Pieces(x + [';'] + y, st, start, line) == [Piece(start, x)] + Pieces(y, Default, next, next)
    decreases |x|
  {
    var s := x + [';'] + y;
    if x == [] {
      assert s[1..] == y;
      next := line;
    } else {
      assert s[1..] == x[1..] + [';'] + y;
      var st' := Delta(st, x[0], Peek(x[1..], None));
      assert Delta(st, s[0], Peek(s[1..], None)) == st';
      next := CutAt(x[1..], y, st', start, line + LineStep(x[0], st));
      assert [x[0]] + x[1..] == x;
      HeadExtended(start, x, y, next);
    }
  }

  lemma HeadExtended(start: int, x: string, y: string, next: int)
    requires x != []
    ensures var r := [Piece(start, x[1..])] + Pieces(y, Default, next, next);
            [Piece(start, [x[0]] + r[0].raw)] + r[1..] == [Piece(start, x)] + Pieces(y, Default, next, next)
  {
    assert [x[0]] + x[1..] == x;
  }

  lemma {:induction false} NoCutOnePiece(x: string, st: State, start: int, line: int)
    requires NoCut(x, st, None)
    ensures Pieces(x, st, start, line) == [Piece(start, x)]
    decreases |x|
  {
    if x != [] {
      NoCutOnePiece(x[1..], Delta(st, x[0], Peek(x[1..], None)), start, line + LineStep(x[0], st));
      assert [x[0]] + x[1..] == x;
    }
  }

  /** Nothing or one newline in front, and perhaps one behind. */
  predicate Margin(pre: string, post: string) { (pre == [] || pre == "\n") && (post == [] || post == "\n") }

  lemma BodyWithMargin(pre: string, t: string, post: string)
    requires Margin(pre, post) && Whole(t)
    ensures Body(pre + t + post) == t
  {
    var s := t + post;
    assert s[0] == t[0] && (StartsWith(s, '-', '-') ==> StartsWith(t, '-', '-')) && (StartsWith(s, '/', '*') ==> StartsWith(t, '/', '*'));
    assert Trivia(s) == 0;
    if pre == [] {
      assert pre + t + post == s && s[0..] == s;
    } else {
      assert pre + t + post == pre + s && (pre + s)[1..] == s;
      assert Trivia(pre + s) == 1;
    }
    if post == [] { assert s == t; } else { assert s[..|s| - 1] == t; }
  }

  lemma NoCutWithMargin(pre: string, t: string, post: string)
    requires Margin(pre, post) && Whole(t)
    ensures NoCut(pre + t, Default, None)
    ensures Closed(t) && post == "\n" ==>
              NoCut(pre + t + post, Default, None) && Run(pre + t + post, Default, None) == Default
  {
    RunConcat(pre, t, Default, None);
    assert Run(pre, Default, Peek(t, None)) == Default && NoCut(pre, Default, Peek(t, None)) by {
      if pre == "\n" { assert pre[1..] == []; }
    }
    if Closed(t) && post == "\n" {
      RunConcat(pre + t, post, Default, None);
      InertAfter(pre + t, Default, Some('\n'));
      assert post[1..] == [];
      RunConcat(pre, t, Default, None);
    }
  }

  /** Texts a splitter may have returned: all whole, all but the last closed. */
  predicate Splittable(texts: seq<string>) {
    (forall t | t in texts :: Whole(t)) && forall i | 0 <= i < |texts| - 1 :: Closed(texts[i])
  }

  lemma LastPiece(t: string, pre: string, start: int)
    requires Whole(t) && Margin(pre, [])
    ensures Bodies(Pieces(pre + t, Default, start, start)) == [t]
  {
    NoCutWithMargin(pre, t, []);
    NoCutOnePiece(pre + t, Default, start, start);
    BodyWithMargin(pre, t, []);
    assert pre + t + [] == pre + t;
    assert [Piece(start, pre + t)][1..] == [];
  }

  lemma FirstPiece(t: string, pre: string, more: string, start: int) returns (next: int)
    requires Whole(t) && Closed(t) && Margin(pre, [])
    ensures Bodies(Pieces(pre + (t + "\n;\n" + more), Default, start, start))
            == [t] + Bodies(Pieces("\n" + more, Default, next, next))
  {
    NoCutWithMargin(pre, t, "\n");
    BodyWithMargin(pre, t, "\n");
    var x, y := pre + t + "\n", "\n" + more;
    assert pre + (t + "\n;\n" + more) == x + [';'] + y;
    next := CutAt(x, y, Default, start, start);
    assert ([Piece(start, x)] + Pieces(y, Default, next, next))[1..] == Pieces(y, Default, next, next);
  }

  lemma {:induction false} JoinedPieces(texts: seq<string>, pre: string, start: int)
    requires Splittable(texts) && Margin(pre, []) && texts != []
    ensures Bodies(Pieces(pre + Join(texts), Default, start, start)) == texts
    decreases |texts|
  {
    var t := texts[0];
    assert t in texts;
    if |texts| == 1 {
      LastPiece(t, pre, start);
    } else {
      var rest := texts[1..];
      var next := FirstPiece(t, pre, Join(rest), start);
      assert forall i | 0 <= i < |rest| - 1 :: rest[i] == texts[i + 1];
      JoinedPieces(rest, "\n", next);
      assert texts == [t] + rest;
    }
  }

  // ---- the statements of a tidy text are splittable ----

  lemma {:induction false} BodiesAreSplittable(s: string, start: int)
    requires Tidy(s, Default)
    ensures Splittable(Bodies(Pieces(s, Default, start, start)))
    decreases |s|
  {
    var ps := Pieces(s, Default, start, start);
    HeadPiece(s, Default, start, start);
    var raw := ps[0].raw;
    if |ps| == 1 {
      assert ps[1..] == [];
      if Body(raw) != [] { BodyIsWhole(raw); }
    } else {
      var r, rest, next := AfterFirst(s, Default, start, start);
      TidyHead(s, raw, rest);
      BodiesAreSplittable(rest, next);
      assert ps[1..] == Pieces(rest, Default, next, next);
      if Body(raw) != [] {
        BodyIsWhole(raw);
        PutFirst(Body(raw), Bodies(ps[1..]));
      } else {
        assert Bodies(ps) == Bodies(ps[1..]);
      }
    }
  }

  /** Both sides of a cut are tidy. */
  lemma TidyHead(s: string, raw: string, rest: string)
    requires s == raw + [';'] + rest && Tidy(s, Default) && Run(raw, Default, None) == Default
    ensures Tidy(raw, Default) && Tidy(rest, Default)
  {
    var tail := [';'] + rest;
    assert s == raw + tail && tail[1..] == rest;
    TidyPrefix(raw, tail, Default);
    TidySuffix(raw, tail, Default);
    InertAfter(raw, Default, Some(';'));
  }

  lemma PutFirst(t: string, texts: seq<string>)
    requires Whole(t) && Closed(t) && Splittable(texts)
    ensures Splittable([t] + texts)
  {
    forall i | 0 <= i < |[t] + texts| - 1 ensures Closed(([t] + texts)[i]) {
      if i > 0 { assert ([t] + texts)[i] == texts[i - 1]; }
    }
  }

  /**
   * For every tidy text: joining the returned statement texts with newline, semicolon,
   * newline and splitting again returns the same texts.
   */
  lemma ResplitStable(text: string, path: string, offset: int)
    requires Tidy(text, Default)
    ensures var texts := Texts(Split(text, path, offset));
            Texts(Split(Join(texts), path, offset)) == texts
  {
    var start := 1 + offset;
    var ps := Pieces(text, Default, start, start);
    TextsAreBodies(ps, path);
    BodiesAreSplittable(text, start);
    var texts := Bodies(ps);
    TextsAreBodies(Pieces(Join(texts), Default, start, start), path);
    if texts == [] {
      assert Body([]) == [];
    } else {
      JoinedPieces(texts, [], start);
      assert [] + Join(texts) == Join(texts);
    }
  }

  lemma UntidyOnePiece(start: int)
    ensures Pieces("/*/'*/;a", Default, start, start) == [Piece(start, "/*/'*/;a")]
  {
    var s := "/*/'*/;a";
    assert s[1..] == "*/'*/;a" && "*/'*/;a"[1..] == "/'*/;a" && "/'*/;a"[1..] == "'*/;a" && "'*/;a"[1..] == "*/;a";
    assert "*/;a"[1..] == "/;a" && "/;a"[1..] == ";a" && ";a"[1..] == "a" && "a"[1..] == "";
    assert NoCut("a", Quote, None);
    assert NoCut(";a", Quote, None);
    assert NoCut("*/;a", Quote, None);
    assert NoCut("'*/;a", Default, None);
    assert NoCut("/'*/;a", Closing, None);
    assert NoCut("*/'*/;a", Block, None);
    assert NoCut(s, Default, None);
    NoCutOnePiece(s, Default, start, start);
  }

  lemma UntidyBody()
    ensures Body("/*/'*/;a") == ";a"
  {
    var s := "/*/'*/;a";
    assert s[2..] == "/'*/;a" && "/'*/;a"[1..] == "'*/;a" && "'*/;a"[1..] == "*/;a";
    assert FindClose("*/;a") == Some(0);
    assert FindClose("'*/;a") == Some(1);
    assert FindClose("/'*/;a") == Some(2);
    assert Skip(s).0 == 6 && Skip(";a").0 == 0;
    assert s[6..] == ";a" && Trivia(";a") == 0;
    assert Trivia(s) == 6;
  }

  lemma SemicolonPieces(start: int)
    ensures Bodies(Pieces(";a", Default, start, start)) == ["a"]
  {
    NoCutOnePiece("a", Default, start, start);
    assert ";a"[1..] == "a";
    var ps := [Piece(start, []), Piece(start, "a")];
    assert ps[1..] == [Piece(start, "a")] && [Piece(start, "a")][1..] == [];
    assert Pieces(";a", Default, start, start) == ps;
    assert Trivia("a") == 0 && "a"[0..] == "a" && Body("a") == "a";
    assert Body([]) == [] by { assert ""[0..] == ""; }
    assert Bodies([Piece(start, "a")]) == ["a"];
  }

  /** On untidy text the two scans disagree: the statement ";a" is returned, and splits into "a". */
  lemma UntidyResplitDiffers(path: string, offset: int)
    ensures Texts(Split("/*/'*/;a", path, offset)) == [";a"]
    ensures Texts(Split(Join([";a"]), path, offset)) == ["a"]
  {
    var start := 1 + offset;
    var s := "/*/'*/;a";
    UntidyOnePiece(start);
    UntidyBody();
    assert [Piece(start, s)][1..] == [];
    assert Bodies([Piece(start, s)]) == [";a"];
    TextsAreBodies([Piece(start, s)], path);
    SemicolonPieces(start);
    TextsAreBodies(Pieces(";a", Default, start, start), path);
  }
}

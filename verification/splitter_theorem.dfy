/** The splitter against the reference lexer, its line numbers, and splitting again. */
module SplitterTheorem {
  import opened Prelude
  import opened Lexer
  import opened Splitter

  // ---- pieces and cuts ----

  /** Where piece i starts in the text. */
  function Offset(ps: seq<Piece>, i: nat): nat
    requires i <= |ps|
  {
    if i == 0 then 0 else Offset(ps, i - 1) + |ps[i - 1].raw| + 1
  }

  /** The newlines of s that are stepped over after a backslash in a literal. */
  function Escaped(s: string, st: State): nat {
    if s == [] then 0
    else (if s[0] == '\n' && st == Escape then 1 else 0) + Escaped(s[1..], Delta(st, s[0], Peek(s[1..], None)))
  }

  lemma {:induction false} EscapedConcat(a: string, b: string, st: State)
    requires b == [] || (b[0] != '-' && b[0] != '*' && b[0] != '/')
    ensures Escaped(a + b, st) == Escaped(a, st) + Escaped(b, Run(a, st, None))
  {
    if a == [] {
      assert a + b == b;
    } else {
      assert (a + b)[1..] == a[1..] + b;
      assert Delta(st, a[0], Peek(a[1..] + b, None)) == Delta(st, a[0], Peek(a[1..], None));
      EscapedConcat(a[1..], b, Delta(st, a[0], Peek(a[1..], None)));
    }
  }

  /** The first piece runs to the first cut; the rest are the pieces after it. */
  ghost predicate HeadOf(s: string, st: State, line: int, ps: seq<Piece>) {
    && ps != [] && ps[0].raw <= s && NoCut(ps[0].raw, st, None)
    && var raw := ps[0].raw;
       if |ps| == 1 then raw == s
       else
         && |raw| < |s| && s[|raw|] == ';' && Run(raw, st, None) == Default
         && var next := line + Newlines(raw) - Escaped(raw, st);
            ps[1..] == Pieces(s[|raw| + 1..], Default, next, next)
  }

  /** A first character that is no cut joins the first piece. */
  lemma HeadStep(s: string, st: State, line: int, ps: seq<Piece>, start: int)
    requires s != [] && !(st == Default && s[0] == ';')
    requires HeadOf(s[1..], Delta(st, s[0], Peek(s[1..], None)), line + LineStep(s[0], st), ps)
    ensures HeadOf(s, st, line, [Piece(start, [s[0]] + ps[0].raw)] + ps[1..])
  {
    var inner := ps[0].raw;
    var raw := [s[0]] + inner;
    var st' := Delta(st, s[0], Peek(s[1..], None));
    assert raw[1..] == inner && raw <= s;
    if |ps| > 1 {
      assert s[1..][|inner| + 1..] == s[|raw| + 1..];
      assert s[|raw|] == s[1..][|inner|];
      assert Delta(st, raw[0], Peek(raw[1..], None)) == st' by { NextAgrees(s[1..], inner); }
    } else {
      assert raw == s;
    }
  }

  lemma NextAgrees(s: string, inner: string)
    requires inner <= s && |inner| < |s| && s[|inner|] == ';'
    ensures forall st: State, c: char :: Delta(st, c, Peek(s, None)) == Delta(st, c, Peek(inner, None))
  {
  }

  lemma HeadCut(s: string, start: int, line: int)
    requires s != [] && s[0] == ';'
    ensures HeadOf(s, Default, line, Pieces(s, Default, start, line))
  {
    assert s == [] + s;
    assert Pieces(s, Default, start, line)[1..] == Pieces(s[1..], Default, line, line);
  }

  lemma {:induction false} HeadPiece(s: string, st: State, start: int, line: int)
    ensures HeadOf(s, st, line, Pieces(s, st, start, line))
    decreases |s|
  {
    if s == [] {
    } else if st == Default && s[0] == ';' {
      HeadCut(s, start, line);
    } else {
      var st', line' := Delta(st, s[0], Peek(s[1..], None)), line + LineStep(s[0], st);
      var rest := Pieces(s[1..], st', start, line');
      HeadPiece(s[1..], st', start, line');
      HeadStep(s, st, line, rest, start);
      assert Pieces(s, st, start, line) == [Piece(start, [s[0]] + rest[0].raw)] + rest[1..];
    }
  }

  /** The raw pieces, joined by semicolons, are the text. */
  function JoinRaw(ps: seq<Piece>): string
    requires ps != []
  {
    if |ps| == 1 then ps[0].raw else ps[0].raw + [';'] + JoinRaw(ps[1..])
  }

  lemma AroundCut(s: string, raw: string)
    requires raw <= s && |raw| < |s|
    ensures s == raw + [s[|raw|]] + s[|raw| + 1..]
  {
  }

  lemma {:induction false} PiecesRejoin(s: string, st: State, start: int, line: int)
    ensures JoinRaw(Pieces(s, st, start, line)) == s
    decreases |s|
  {
    HeadPiece(s, st, start, line);
    var ps := Pieces(s, st, start, line);
    if |ps| > 1 {
      AroundCut(s, ps[0].raw);
      var next := line + Newlines(ps[0].raw) - Escaped(ps[0].raw, st);
      PiecesRejoin(s[|ps[0].raw| + 1..], Default, next, next);
    }
  }

  /** Position k is where one piece ends and the next begins. */
  ghost predicate IsCut(ps: seq<Piece>, k: int) {
    exists i :: 0 <= i < |ps| - 1 && k == Offset(ps, i) + |ps[i].raw|
  }

  lemma {:induction false} OffsetShift(ps: seq<Piece>, raw: string, i: nat)
    requires ps != [] && i < |ps|
    ensures var qs := [Piece(ps[0].line, raw + ps[0].raw)] + ps[1..];
            Offset(qs, i) + |qs[i].raw| == |raw| + Offset(ps, i) + |ps[i].raw|
  {
    if i > 0 { OffsetShift(ps, raw, i - 1); }
  }

  lemma {:induction false} OffsetTail(p: Piece, ps: seq<Piece>, i: nat)
    requires i <= |ps|
    ensures Offset([p] + ps, i + 1) == |p.raw| + 1 + Offset(ps, i)
  {
    if i > 0 { OffsetTail(p, ps, i - 1); }
  }

  lemma CutAfterEmpty(p: Piece, qs: seq<Piece>, k: nat)
    requires p.raw == [] && qs != []
    ensures IsCut([p] + qs, k) <==> k == 0 || IsCut(qs, k - 1)
  {
    var ps := [p] + qs;
    if k == 0 {
      assert 0 < |ps| - 1 && Offset(ps, 0) + |ps[0].raw| == 0;
    }
    if IsCut(ps, k) && k > 0 {
      var i :| 0 <= i < |ps| - 1 && k == Offset(ps, i) + |ps[i].raw|;
      assert i > 0;
      OffsetTail(p, qs, i - 1);
      assert ps[i] == qs[i - 1];
      assert 0 <= i - 1 < |qs| - 1 && k - 1 == Offset(qs, i - 1) + |qs[i - 1].raw|;
    }
    if k > 0 && IsCut(qs, k - 1) {
      var i :| 0 <= i < |qs| - 1 && k - 1 == Offset(qs, i) + |qs[i].raw|;
      OffsetTail(p, qs, i);
      assert ps[i + 1] == qs[i];
      assert 0 <= i + 1 < |ps| - 1 && k == Offset(ps, i + 1) + |ps[i + 1].raw|;
    }
  }

  lemma CutAfterOne(qs: seq<Piece>, c: char, k: nat)
    requires qs != []
    ensures IsCut([Piece(qs[0].line, [c] + qs[0].raw)] + qs[1..], k) <==> k > 0 && IsCut(qs, k - 1)
  {
    var ps := [Piece(qs[0].line, [c] + qs[0].raw)] + qs[1..];
    if IsCut(ps, k) {
      var i :| 0 <= i < |ps| - 1 && k == Offset(ps, i) + |ps[i].raw|;
      OffsetShift(qs, [c], i);
      assert 0 <= i < |qs| - 1 && k - 1 == Offset(qs, i) + |qs[i].raw|;
    }
    if k > 0 && IsCut(qs, k - 1) {
      var i :| 0 <= i < |qs| - 1 && k - 1 == Offset(qs, i) + |qs[i].raw|;
      OffsetShift(qs, [c], i);
      assert 0 <= i < |ps| - 1 && k == Offset(ps, i) + |ps[i].raw|;
    }
  }

  lemma RegionsTail(s: string, st: State, k: nat)
    requires 0 < k < |s|
    ensures Regions(s, st)[k] == Regions(s[1..], Delta(st, s[0], Peek(s[1..], None)))[k - 1]
  {
  }

  lemma FirstRegion(s: string, st: State)
    requires s != []
    ensures Regions(s, st)[0] == Code <==> st == Default
  {
  }

  /** The first character is a cut exactly when it is a semicolon in the default state. */
  lemma FirstCut(s: string, st: State, start: int, line: int)
    requires s != []
    ensures IsCut(Pieces(s, st, start, line), 0) <==> s[0] == ';' && st == Default
  {
    var t := s[1..];
    if st == Default && s[0] == ';' {
      CutAfterEmpty(Piece(start, []), Pieces(t, Default, line, line), 0);
    } else {
      CutAfterOne(Pieces(t, Delta(st, s[0], Peek(t, None)), start, line + LineStep(s[0], st)), s[0], 0);
    }
  }

  /** A later cut is a cut of the rest. */
  lemma LaterCut(s: string, st: State, start: int, line: int, k: nat)
    requires 0 < k < |s|
    ensures var st', line' := Delta(st, s[0], Peek(s[1..], None)), line + LineStep(s[0], st);
            IsCut(Pieces(s, st, start, line), k)
            <==> IsCut(Pieces(s[1..], st', if st == Default && s[0] == ';' then line else start, line'), k - 1)
  {
    var t := s[1..];
    if st == Default && s[0] == ';' {
      CutAfterEmpty(Piece(start, []), Pieces(t, Default, line, line), k);
    } else {
      CutAfterOne(Pieces(t, Delta(st, s[0], Peek(t, None)), start, line + LineStep(s[0], st)), s[0], k);
    }
  }

  /** The splitter cuts at the semicolons its scan reads outside literals and comments. */
  lemma {:induction false} CutsAreCodeSemicolons(s: string, st: State, start: int, line: int, k: nat)
    requires k < |s|
    ensures IsCut(Pieces(s, st, start, line), k) <==> s[k] == ';' && Regions(s, st)[k] == Code
    decreases |s|
  {
    if k == 0 {
      FirstRegion(s, st);
      FirstCut(s, st, start, line);
    } else {
      RegionsTail(s, st, k);
      LaterCut(s, st, start, line, k);
      var st', line' := Delta(st, s[0], Peek(s[1..], None)), line + LineStep(s[0], st);
      CutsAreCodeSemicolons(s[1..], st', if st == Default && s[0] == ';' then line else start, line', k - 1);
    }
  }

  /**
   * On tidy text the splitter cuts exactly at the semicolons the reference lexer
   * sees outside literals and comments, and the pieces make up the text.
   */
  lemma CutsMatchReference(text: string, start: int)
    requires Tidy(text, Default)
    ensures JoinRaw(Pieces(text, Default, start, start)) == text
    ensures forall k | 0 <= k < |text| ::
              IsCut(Pieces(text, Default, start, start), k) <==> text[k] == ';' && RefCode(text)[k] == Code
  {
    PiecesRejoin(text, Default, start, start);
    CodeAgrees(text);
    forall k | 0 <= k < |text|
      ensures IsCut(Pieces(text, Default, start, start), k) <==> text[k] == ';' && RefCode(text)[k] == Code
    {
      CutsAreCodeSemicolons(text, Default, start, start, k);
    }
  }

  /** A comment opened at slash-star-slash is closed too early, and its semicolon cuts. */
  lemma UntidyCutsInComment(start: int)
    ensures IsCut(Pieces("/*/;", Default, start, start), 3) && RefCode("/*/;")[3] == BlockComment
  {
    var s := "/*/;";
    assert s[1..] == "*/;" && s[1..][1..] == "/;" && s[1..][1..][1..] == ";";
    assert Delta(Default, '/', Some('*')) == Block && Delta(Block, '*', Some('/')) == Closing;
    assert Regions(";", Default)[0] == Code;
    assert Regions("/;", Closing)[1] == Code;
    assert Regions("*/;", Block)[2] == Code;
    assert Regions(s, Default)[3] == Code;
    CutsAreCodeSemicolons(s, Default, start, start, 3);
    assert s[2..] == "/;" && "/;"[1..] == ";" && ";"[1..] == "";
    assert RefBlock(";")[0] == BlockComment;
    assert RefBlock("/;")[1] == BlockComment;
  }

  // ---- line numbers ----

  /** Lines after a first piece and its semicolon: the newlines add up. */
  lemma LinesAdd(raw: string, more: string, st: State)
    requires Run(raw, st, None) == Default
    ensures var all := raw + [';'] + more;
            Newlines(all) - Escaped(all, st) == (Newlines(raw) - Escaped(raw, st)) + (Newlines(more) - Escaped(more, Default))
  {
    var tail := [';'] + more;
    assert raw + [';'] + more == raw + tail && tail[1..] == more;
    NewlinesConcat(raw, tail);
    EscapedConcat(raw, tail, st);
  }

  lemma Regroup(raw: string, b: string, more: string, after: string)
    ensures raw + [';'] + (b + more + after) == (raw + [';'] + b) + more + after
  {
  }

  /** The text around the first cut, and the pieces after it. */
  lemma AfterFirst(text: string, st: State, start: int, line: int) returns (raw: string, rest: string, next: int)
    requires |Pieces(text, st, start, line)| > 1
    ensures text == raw + [';'] + rest && raw == Pieces(text, st, start, line)[0].raw
    ensures Run(raw, st, None) == Default && next == line + Newlines(raw) - Escaped(raw, st)
    ensures Pieces(text, st, start, line) == [Piece(start, raw)] + Pieces(rest, Default, next, next)
  {
    HeadPiece(text, st, start, line);
    var ps := Pieces(text, st, start, line);
    raw := ps[0].raw;
    AroundCut(text, raw);
    rest := text[|raw| + 1..];
    next := line + Newlines(raw) - Escaped(raw, st);
    assert ps == [ps[0]] + ps[1..];
  }

  /** What is in front of piece i and behind it, and the line the splitter gives it. */
  lemma {:induction false} PieceAt(text: string, st: State, start: int, line: int, i: nat)
    returns (before: string, after: string)
    requires i < |Pieces(text, st, start, line)|
    ensures text == before + Pieces(text, st, start, line)[i].raw + after
    ensures if i == 0 then before == []
            else Pieces(text, st, start, line)[i].line == line + Newlines(before) - Escaped(before, st)
    decreases i
  {
    if i == 0 {
      HeadPiece(text, st, start, line);
      var raw := Pieces(text, st, start, line)[0].raw;
      before, after := [], text[|raw|..];
    } else {
      var raw, rest, next := AfterFirst(text, st, start, line);
      var b: string;
      b, after := PieceAt(rest, Default, next, next, i - 1);
      before := raw + [';'] + b;
      var more := Pieces(rest, Default, next, next)[i - 1].raw;
      assert rest == b + more + after;
      Regroup(raw, b, more, after);
      LinesAdd(raw, b, st);
    }
  }

  /** The trivia scan counts each newline it passes once. */
  lemma {:induction false} TriviaLinesExact(s: string)
    requires Trivia(s) < |s|
    ensures TriviaLines(s) == Newlines(s[..Trivia(s)])
    decreases |s|
  {
    var k := Skip(s).0;
    if k > 0 {
      SkipLinesExact(s);
      TriviaLinesExact(s[k..]);
      NewlinesSplit(s, k, Trivia(s));
    }
  }

  lemma SkipLinesExact(s: string)
    requires Skip(s).0 < |s|
    ensures Skip(s).1 == Newlines(s[..Skip(s).0])
  {
    if IsSpace(s[0]) {
      assert s[..1][1..] == [];
    } else if StartsWith(s, '-', '-') {
      FindNewlineFirst(s);
    }
  }

  lemma NewlinesSplit(s: string, e: nat, k: nat)
    requires e <= k <= |s|
    ensures Newlines(s[..k]) == Newlines(s[..e]) + Newlines(s[e..][..k - e])
  {
    assert s[..k] == s[..e] + s[e..][..k - e];
    NewlinesConcat(s[..e], s[e..][..k - e]);
  }

  lemma {:induction false} FindNewlineFirst(s: string)
    requires FindNewline(s).Some?
    ensures Newlines(s[..FindNewline(s).value + 1]) == 1
  {
    var e := FindNewline(s).value;
    if s[0] == '\n' {
      assert s[..1][1..] == [];
    } else {
      FindNewlineFirst(s[1..]);
      assert s[..e + 1][1..] == s[1..][..e];
    }
  }

  lemma {:induction false} StatementPiece(ps: seq<Piece>, path: string, j: nat) returns (i: nat)
    requires j < |Statements(ps, path)|
    ensures i < |ps| && Body(ps[i].raw) != [] && Statements(ps, path)[j] == StatementOf(ps[i], path)
    ensures j < |Statements(ps, path)| - 1 ==> i < |ps| - 1
  {
    var n := |ps| - 1;
    if j < |Statements(ps[..n], path)| {
      i := StatementPiece(ps[..n], path, j);
    } else {
      i := n;
    }
  }

  /** A piece with a statement: trivia, the statement, and white space. */
  lemma BodyInPiece(raw: string) returns (trivia: string, tail: string)
    requires Body(raw) != []
    ensures raw == trivia + Body(raw) + tail && Newlines(trivia) == TriviaLines(raw)
  {
    var k, body := Trivia(raw), Body(raw);
    assert raw[|raw|..] == [];
    TriviaLinesExact(raw);
    trivia, tail := raw[..k], raw[k..][|body|..];
    assert body <= raw[k..];
    assert raw[k..] == body + tail;
  }

  /**
   * Each statement stands in the text behind the earlier pieces and its own trivia,
   * and its line is the offset argument plus the newlines in front of it, less those
   * stepped over after a backslash in an earlier piece. So it is exact exactly when
   * there are none of those.
   */
  lemma StatementLineExactly(text: string, path: string, offset: int, j: nat)
    returns (before: string, trivia: string, after: string)
    requires j < |Split(text, path, offset)|
    ensures var t := Split(text, path, offset)[j];
            && t.text != [] && text == before + trivia + t.text + after
            && t.line == 1 + offset + Newlines(before + trivia) - Escaped(before, Default)
            && (t.line == 1 + offset + Newlines(before + trivia) <==> Escaped(before, Default) == 0)
  {
    var ps := Pieces(text, Default, 1 + offset, 1 + offset);
    var i := StatementPiece(ps, path, j);
    var rest: string;
    before, rest := PieceAt(text, Default, 1 + offset, 1 + offset, i);
    var tail: string;
    trivia, tail := BodyInPiece(ps[i].raw);
    after := tail + rest;
    Around(before, trivia, Body(ps[i].raw), tail, rest);
    NewlinesConcat(before, trivia);
  }

  /** s, read from st, is the open piece `raw` and the piece b behind it, all on one line. */
  predicate OpensWith(s: string, st: State, line: int, raw: string) {
    Pieces(s, st, line, line) == [Piece(line, raw), Piece(line, "b")]
  }

  /** One more character in front of the open piece. */
  lemma OneMore(s: string, st: State, line: int, raw: string)
    requires s != [] && raw != [] && s[0] == raw[0] && !(st == Default && s[0] == ';') && LineStep(s[0], st) == 0
    requires OpensWith(s[1..], Delta(st, s[0], Peek(s[1..], None)), line, raw[1..])
    ensures OpensWith(s, st, line, raw)
  {
    assert [s[0]] + raw[1..] == raw;
    assert [Piece(line, raw[1..]), Piece(line, "b")][1..] == [Piece(line, "b")];
  }

  lemma CutBeforeB(s: string, line: int)
    requires s == ";b"
    ensures OpensWith(s, Default, line, "")
  {
    assert s[1..] == "b" && "b"[1..] == "" && ['b'] + "" == "b";
    assert Pieces("b", Default, line, line) == [Piece(line, "b")];
  }

  /** The pieces of a quoted backslash-newline, a semicolon and a letter. */
  lemma EscapedPieces(line: int)
    ensures OpensWith("'\\\n';b", Default, line, "'\\\n'")
  {
    var s: string, r: string := "'\\\n';b", "'\\\n'";
    var s1, r1 := s[1..], r[1..];
    var s2, r2 := s1[1..], r1[1..];
    var s3, r3 := s2[1..], r2[1..];
    CutBeforeB(s3[1..], line);
    assert r3[1..] == "";
    OneMore(s3, Quote, line, r3);
    OneMore(s2, Escape, line, r2);
    OneMore(s1, Quote, line, r1);
    OneMore(s, Default, line, r);
  }

  lemma StatementsOfTwo(p: Piece, q: Piece, path: string)
    requires Body(p.raw) != [] && Body(q.raw) != []
    ensures Statements([p, q], path) == [StatementOf(p, path), StatementOf(q, path)]
  {
    assert [p, q][..1] == [p] && [p][..0] == [];
    assert Statements([p][..0], path) == [];
  }

  lemma EscapedBodies(line: int, path: string)
    ensures StatementOf(Piece(line, "'\\\n'"), path) == RawStatement(path, line, "'\\\n'")
    ensures StatementOf(Piece(line, "b"), path) == RawStatement(path, line, "b")
  {
    var x, y := "'\\\n'", "b";
    assert Skip(x) == (0, 0) && Skip(y) == (0, 0);
    assert x[0..] == x && y[0..] == y;
  }

  lemma OneNewline(s: string)
    requires s == "'\\\n';"
    ensures Newlines(s) == 1
  {
    assert s == "'\\" + ("\n" + "';") && "\n"[1..] == "";
    NewlinesConcat("'\\", "\n" + "';");
    NewlinesConcat("\n", "';");
    NoNewlines("'\\");
    NoNewlines("';");
  }

  lemma {:induction false} NoNewlines(s: string)
    requires forall i | 0 <= i < |s| :: s[i] != '\n'
    ensures Newlines(s) == 0
  {
    if s != [] { NoNewlines(s[1..]); }
  }

  /** A line lost: the statement b stands behind a newline, and is given the first line. */
  lemma EscapedNewlineLosesLine(path: string, offset: int)
    ensures Split("'\\\n';b", path, offset) == [RawStatement(path, 1 + offset, "'\\\n'"), RawStatement(path, 1 + offset, "b")]
    ensures Newlines("'\\\n';") == 1
  {
    EscapedPieces(1 + offset);
    EscapedBodies(1 + offset, path);
    StatementsOfTwo(Piece(1 + offset, "'\\\n'"), Piece(1 + offset, "b"), path);
    OneNewline("'\\\n';");
  }

  lemma Around(before: string, trivia: string, body: string, tail: string, rest: string)
    ensures before + (trivia + body + tail) + rest == before + trivia + body + (tail + rest)
  {
  }
}

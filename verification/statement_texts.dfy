/** The returned statements against the reference lexer: where each one starts in its piece, and ends. */
module StatementTexts {
  import opened Prelude
  import opened Sequences
  import opened Lexer
  import opened Splitter
  import opened SplitterTheorem

  predicate IsComment(r: Region) { r.LineComment? || r.BlockComment? }

  /** Character i is in a comment, or the first of the two that open one. */
  predicate InComment(s: string, i: nat)
    requires i < |s|
  {
    IsComment(RefCode(s)[i]) || (RefCode(s)[i] == Code && i + 1 < |s| && IsComment(RefCode(s)[i + 1]))
  }

  /** Character i is neither white space nor comment. */
  predicate IsContent(s: string, i: nat)
    requires i < |s|
  {
    !IsSpace(s[i]) && !InComment(s, i)
  }

  predicate HasContent(p: Piece) { exists i: nat :: i < |p.raw| && IsContent(p.raw, i) }

  /**
   * t is the statement of piece p: it runs from the first character that is neither white
   * space nor comment, which is read outside literals, to the last that is no white space.
   */
  ghost predicate States(t: RawStatement, p: Piece, path: string, k: nat) {
    && t.sourcePath == path && t.text != [] && k + |t.text| <= |p.raw| && t.text == p.raw[k..k + |t.text|]
    && IsContent(p.raw, k) && RefCode(p.raw)[k] == Code && (forall i: nat | i < k :: !IsContent(p.raw, i))
    && !IsSpace(t.text[|t.text| - 1]) && (forall i | k + |t.text| <= i < |p.raw| :: IsSpace(p.raw[i]))
    && t.line == p.line + Newlines(p.raw[..k])
  }

  // ---- comments, as the reference lexer reads them ----

  lemma {:induction false} LineRegions(s: string)
    ensures var e := FindNewline(s);
            if e.None? then forall i | 0 <= i < |s| :: RefLine(s)[i] == LineComment
            else (forall i | 0 <= i <= e.value :: RefLine(s)[i] == LineComment)
                 && RefLine(s)[e.value + 1..] == RefCode(s[e.value + 1..])
    decreases |s|
  {
    if s != [] && s[0] != '\n' {
      LineRegions(s[1..]);
      var e := FindNewline(s);
      assert RefLine(s) == [LineComment] + RefLine(s[1..]);
      if e.Some? { Shifted(LineComment, RefLine(s[1..]), s, e.value); }
    }
  }

  /** What follows position e of the tail follows position e + 1. */
  lemma Shifted(x: Region, tail: seq<Region>, s: string, e: nat)
    requires 1 <= e < |s| && |tail| == |s|
    ensures ([x] + tail)[e + 1..] == tail[e..] && s[1..][e..] == s[e + 1..]
  {
  }

  lemma {:induction false} BlockRegions(s: string)
    ensures var e := FindClose(s);
            if e.None? then forall i | 0 <= i < |s| :: RefBlock(s)[i] == BlockComment
            else (forall i | 0 <= i < e.value + 2 :: RefBlock(s)[i] == BlockComment)
                 && RefBlock(s)[e.value + 2..] == RefCode(s[e.value + 2..])
    decreases |s|
  {
    if |s| >= 2 && s[0] == '*' && s[1] == '/' {
      assert RefBlock(s) == [BlockComment, BlockComment] + RefCode(s[2..]);
    } else if s != [] {
      BlockRegions(s[1..]);
      var e := FindClose(s);
      assert RefBlock(s) == [BlockComment] + RefBlock(s[1..]);
      if e.Some? { Shifted(BlockComment, RefBlock(s[1..]), s, e.value + 1); }
    }
  }

  lemma NewlineAfterDashes(s: string)
    requires StartsWith(s, '-', '-')
    ensures var e := FindNewline(s[2..]);
            FindNewline(s) == if e.None? then None else Some(e.value + 2)
  {
    assert s[1..][1..] == s[2..];
  }

  /** The first k characters are no content, and behind them the reference lexer is back in code. */
  ghost predicate Passes(s: string, k: nat) {
    k <= |s| && (forall i: nat | i < k :: !IsContent(s, i)) && (k < |s| ==> RefCode(s)[k..] == RefCode(s[k..]))
  }

  lemma LinePasses(s: string)
    requires StartsWith(s, '-', '-')
    ensures Passes(s, Skip(s).0)
  {
    var t := s[2..];
    LineRegions(t);
    NewlineAfterDashes(s);
    assert RefCode(s) == [Code, LineComment] + RefLine(t);
    forall i: nat | i < Skip(s).0 ensures !IsContent(s, i) {
      if i >= 2 { assert RefCode(s)[i] == RefLine(t)[i - 2]; }
    }
    var e := FindNewline(t);
    if e.Some? {
      assert RefCode(s)[e.value + 3..] == RefLine(t)[e.value + 1..];
      assert t[e.value + 1..] == s[e.value + 3..];
    }
  }

  lemma BlockPasses(s: string)
    requires StartsWith(s, '/', '*')
    ensures Passes(s, Skip(s).0)
  {
    var t := s[2..];
    BlockRegions(t);
    assert RefCode(s) == [Code, BlockComment] + RefBlock(t);
    forall i: nat | i < Skip(s).0 ensures !IsContent(s, i) {
      if i >= 2 { assert RefCode(s)[i] == RefBlock(t)[i - 2]; }
    }
    var e := FindClose(t);
    if e.Some? {
      assert RefCode(s)[e.value + 4..] == RefBlock(t)[e.value + 2..];
      assert t[e.value + 2..] == s[e.value + 4..];
    }
  }

  /** One turn of the trivia scan passes white space or a comment; it stops at content alone. */
  lemma SkipMeaning(s: string)
    requires s != []
    ensures Passes(s, Skip(s).0)
    ensures Skip(s).0 == 0 <==> IsContent(s, 0)
  {
    if IsSpace(s[0]) {
      assert RefCode(s) == [Code] + RefCode(s[1..]);
    } else if StartsWith(s, '-', '-') {
      LinePasses(s);
      assert RefCode(s)[1] == LineComment;
    } else if StartsWith(s, '/', '*') {
      BlockPasses(s);
      assert RefCode(s)[1] == BlockComment;
    } else {
      assert |s| > 1 ==> !IsComment(RefCode(s)[1]);
      assert s[0..] == s;
    }
  }

  lemma ContentBehind(s: string, k: nat, i: nat)
    requires Passes(s, k) && k <= i < |s|
    ensures RefCode(s)[i] == RefCode(s[k..])[i - k] && (IsContent(s, i) <==> IsContent(s[k..], i - k))
  {
    assert RefCode(s)[k..][i - k] == RefCode(s)[i];
    assert RefCode(s)[k..][i + 1 - k] == RefCode(s)[i + 1];
  }

  /** The trivia scan stops at the first content, which is read outside literals, or at the end. */
  lemma {:induction false} TriviaMeaning(s: string)
    ensures forall i: nat | i < Trivia(s) :: !IsContent(s, i)
    ensures Trivia(s) < |s| ==> IsContent(s, Trivia(s)) && RefCode(s)[Trivia(s)] == Code
    decreases |s|
  {
    if s != [] {
      SkipMeaning(s);
      var k := Skip(s).0;
      if k > 0 {
        TriviaMeaning(s[k..]);
        assert Trivia(s) == k + Trivia(s[k..]);
        forall i: nat | i < Trivia(s) ensures !IsContent(s, i) {
          if i >= k { ContentBehind(s, k, i); }
        }
        if Trivia(s) < |s| { ContentBehind(s, k, Trivia(s)); }
      }
    }
  }

  // ---- the statements ----

  lemma {:induction false} RStripMeaning(s: string)
    ensures RStrip(s) != [] ==> !IsSpace(RStrip(s)[|RStrip(s)| - 1])
    ensures forall i | |RStrip(s)| <= i < |s| :: IsSpace(s[i])
    decreases |s|
  {
    if s != [] && IsSpace(s[|s| - 1]) { RStripMeaning(s[..|s| - 1]); }
  }

  /** A piece gives a statement exactly when it has content. */
  lemma BodyMeaning(p: Piece)
    ensures Body(p.raw) != [] <==> HasContent(p)
  {
    var k := Trivia(p.raw);
    TriviaMeaning(p.raw);
    RStripMeaning(p.raw[k..]);
    assert p.raw[|p.raw|..] == [];
    assert k < |p.raw| ==> p.raw[k..][0] == p.raw[k];
  }

  /** The body runs to the last character that is no white space. */
  lemma BodySlice(raw: string)
    requires Body(raw) != []
    ensures var k, t := Trivia(raw), Body(raw);
            && k + |t| <= |raw| && k < |raw| && t == raw[k..k + |t|] && !IsSpace(t[|t| - 1])
            && forall i | k + |t| <= i < |raw| :: IsSpace(raw[i])
  {
    var k, t := Trivia(raw), Body(raw);
    assert raw[|raw|..] == [];
    RStripMeaning(raw[k..]);
    assert raw[k..][..|t|] == raw[k..k + |t|];
    forall i | k + |t| <= i < |raw| ensures IsSpace(raw[i]) { assert raw[i] == raw[k..][i - k]; }
  }

  lemma StatementStates(p: Piece, path: string)
    requires Body(p.raw) != []
    ensures States(StatementOf(p, path), p, path, Trivia(p.raw))
  {
    BodySlice(p.raw);
    TriviaMeaning(p.raw);
    TriviaLinesExact(p.raw);
  }

  /** There is a statement for each piece with content, in order, and it states that piece. */
  ghost predicate StateAll(statements: seq<RawStatement>, ps: seq<Piece>, path: string) {
    var held := Filter(ps, HasContent);
    |statements| == |held| && forall i | 0 <= i < |held| :: IsStatement(statements[i], held[i], path)
  }

  ghost predicate IsStatement(t: RawStatement, p: Piece, path: string) { exists k: nat :: States(t, p, path, k) }

  lemma {:induction false} StatementsStateAll(ps: seq<Piece>, path: string)
    ensures StateAll(Statements(ps, path), ps, path)
    decreases |ps|
  {
    if ps != [] {
      var n := |ps| - 1;
      assert ps == ps[..n] + [ps[n]];
      StatementsStateAll(ps[..n], path);
      FilterSnoc(ps[..n], ps[n], HasContent);
      BodyMeaning(ps[n]);
      if HasContent(ps[n]) {
        StatementStates(ps[n], path);
        assert IsStatement(StatementOf(ps[n], path), ps[n], path);
      }
    }
  }

  /** The splitter returns the statements of the pieces with content, for every text. */
  lemma SplitMeaning(text: string, path: string, offset: int)
    ensures StateAll(Split(text, path, offset), Pieces(text, Default, 1 + offset, 1 + offset), path)
  {
    StatementsStateAll(Pieces(text, Default, 1 + offset, 1 + offset), path);
  }

  /** A statement is determined by its piece. */
  lemma StatesOnce(t: RawStatement, u: RawStatement, p: Piece, path: string, k: nat, l: nat)
    requires States(t, p, path, k) && States(u, p, path, l)
    ensures k == l && t == u
  {
    assert k < |p.raw| && l < |p.raw|;
    assert u.text[|u.text| - 1] == p.raw[k + |u.text| - 1] && t.text[|t.text| - 1] == p.raw[k + |t.text| - 1];
  }
}

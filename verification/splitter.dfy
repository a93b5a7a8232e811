/** Splitting SQL text into statements, and finding the line each one starts on. */
module Splitter {
  import opened Prelude
  import opened Lexer

  datatype RawStatement = RawStatement(sourcePath: string, line: int, text: string)

  // ---- leading trivia ----

  function Newlines(s: string): nat {
    if s == [] then 0 else (if s[0] == '\n' then 1 else 0) + Newlines(s[1..])
  }

  lemma NewlinesConcat(a: string, b: string)
    ensures Newlines(a + b) == Newlines(a) + Newlines(b)
  {
    if a == [] {
      assert a + b == b;
    } else {
      assert (a + b)[1..] == a[1..] + b;
      NewlinesConcat(a[1..], b);
    }
  }

  function FindNewline(s: string): (r: Option<nat>)
    ensures r.Some? ==> r.value < |s| && s[r.value] == '\n'
  {
    if s == [] then None
    else if s[0] == '\n' then Some(0)
    else var r := FindNewline(s[1..]); if r.None? then None else Some(r.value + 1)
  }

  /** The first star-slash. */
  function FindClose(s: string): (r: Option<nat>)
    ensures r.Some? ==> r.value + 1 < |s|
  {
    if |s| < 2 then None
    else if s[0] == '*' && s[1] == '/' then Some(0)
    else var r := FindClose(s[1..]); if r.None? then None else Some(r.value + 1)
  }

  predicate StartsWith(s: string, a: char, b: char) { |s| >= 2 && s[0] == a && s[1] == b }

  /** What one turn of the trivia scan skips: how many characters, and how many newlines it counts. */
  function Skip(s: string): (r: (nat, nat))
    ensures r.0 <= |s| && (r.0 == 0 ==> r.1 == 0)
  {
    if s == [] then (0, 0)
    else if IsSpace(s[0]) then (1, if s[0] == '\n' then 1 else 0)
    else if StartsWith(s, '-', '-') then
      var e := FindNewline(s);
      if e.None? then (|s|, 0) else (e.value + 1, 1)
    else if StartsWith(s, '/', '*') then
      var e := FindClose(s[2..]);
      if e.None? then (|s|, 0) else (e.value + 4, Newlines(s[..e.value + 4]))
    else (0, 0)
  }

  /** How many characters of white space and comments s starts with. */
  function Trivia(s: string): (k: nat)
    ensures k <= |s|
    decreases |s|
  {
    var k := Skip(s).0;
    if k == 0 then 0 else k + Trivia(s[k..])
  }

  /** The newlines the trivia scan counts; it counts none in a comment that never ends. */
  function TriviaLines(s: string): nat
    decreases |s|
  {
    var (k, lines) := Skip(s);
    if k == 0 then 0 else lines + TriviaLines(s[k..])
  }

  /** One turn of the trivia scan. */
  method SkipOne(rest: string) returns (skipped: nat, newlines: nat)
    requires rest != []
    ensures (skipped, newlines) == Skip(rest)
  {
    var ch := rest[0];
    skipped, newlines := 0, 0;
    if IsSpace(ch) {
      if ch == '\n' { newlines := 1; }
      skipped := 1;
    } else if StartsWith(rest, '-', '-') {
      var end := FindNewline(rest);
      if end.None? {
        skipped := |rest|;
      } else {
        newlines := 1;
        skipped := end.value + 1;
      }
    } else if StartsWith(rest, '/', '*') {
      var end := FindClose(rest[2..]);
      if end.None? {
        skipped := |rest|;
      } else {
        skipped := end.value + 4;
        newlines := Newlines(rest[..skipped]);
      }
    }
  }

  method StripLeadingTrivia(text: string) returns (newlines: nat, remainder: string)
    ensures newlines == TriviaLines(text) && remainder == text[Trivia(text)..]
  {
    newlines, remainder := 0, text;
    var i := 0;
    while i < |text|
      invariant 0 <= i <= |text| && remainder == text[i..]
      invariant newlines + TriviaLines(remainder) == TriviaLines(text)
      invariant i + Trivia(remainder) == Trivia(text)
      decreases |text| - i
    {
      var skipped, counted := SkipOne(remainder);
      if skipped == 0 { return; }
      SliceAgain(text, i, skipped);
      newlines, remainder, i := newlines + counted, remainder[skipped..], i + skipped;
    }
  }

  lemma SliceAgain(text: string, i: nat, k: nat)
    requires i + k <= |text|
    ensures text[i..][k..] == text[i + k..]
  {
  }

  // ---- raw pieces ----

  /** The text between two cuts and the line the splitter gives its start. */
  datatype Piece = Piece(line: int, raw: string)

  /** Does this character move the splitter to the next line? Stepped-over ones do not. */
  function LineStep(c: char, st: State): int { if c == '\n' && st != Escape then 1 else 0 }

  /** The pieces of s, read from state st, with the open piece starting on `start` and s on `line`. */
  function Pieces(s: string, st: State, start: int, line: int): (r: seq<Piece>)
    ensures r != [] && r[0].line == start
  {
    if s == [] then [Piece(start, [])]
    else if st == Default && s[0] == ';' then [Piece(start, [])] + Pieces(s[1..], Default, line, line)
    else
      var r := Pieces(s[1..], Delta(st, s[0], Peek(s[1..], None)), start, line + LineStep(s[0], st));
      [Piece(start, [s[0]] + r[0].raw)] + r[1..]
  }

  function RStrip(s: string): (r: string)
    ensures r <= s
    decreases |s|
  {
    if s != [] && IsSpace(s[|s| - 1]) then RStrip(s[..|s| - 1]) else s
  }

  /** The statement inside a raw piece, possibly empty. */
  function Body(raw: string): string { RStrip(raw[Trivia(raw)..]) }

  function StatementOf(p: Piece, path: string): RawStatement {
    RawStatement(path, p.line + TriviaLines(p.raw), Body(p.raw))
  }

  /** The pieces that hold a statement, as statements. */
  function Statements(ps: seq<Piece>, path: string): seq<RawStatement> {
    if ps == [] then []
    else
      var n := |ps| - 1;
      Statements(ps[..n], path) + if Body(ps[n].raw) == [] then [] else [StatementOf(ps[n], path)]
  }

  function Split(text: string, path: string, offset: int): seq<RawStatement> {
    Statements(Pieces(text, Default, 1 + offset, 1 + offset), path)
  }

  method AppendStatement(statements: seq<RawStatement>, ghost done: seq<Piece>, path: string, startLine: int,
                         raw: string)
    returns (r: seq<RawStatement>)
    requires statements == Statements(done, path)
    ensures r == Statements(done + [Piece(startLine, raw)], path)
  {
    var newlines, remainder := StripLeadingTrivia(raw);
    var stripped := RStrip(remainder);
    assert (done + [Piece(startLine, raw)])[..|done|] == done;
    if stripped == [] { return statements; }
    r := statements + [RawStatement(path, startLine + newlines, stripped)];
  }

  /** Prefixing the open piece. */
  function Extend(done: seq<Piece>, open: string, ps: seq<Piece>): seq<Piece>
    requires ps != []
  {
    done + [Piece(ps[0].line, open + ps[0].raw)] + ps[1..]
  }

  lemma ExtendOne(done: seq<Piece>, open: string, s: string, st: State, start: int, line: int)
    requires s != [] && !(st == Default && s[0] == ';')
    ensures Extend(done, open, Pieces(s, st, start, line))
            == Extend(done, open + [s[0]], Pieces(s[1..], Delta(st, s[0], Peek(s[1..], None)), start, line + LineStep(s[0], st)))
  {
    var r := Pieces(s[1..], Delta(st, s[0], Peek(s[1..], None)), start, line + LineStep(s[0], st));
    assert open + ([s[0]] + r[0].raw) == (open + [s[0]]) + r[0].raw;
  }

  lemma ExtendCut(done: seq<Piece>, open: string, s: string, start: int, line: int)
    requires s != [] && s[0] == ';'
    ensures Extend(done, open, Pieces(s, Default, start, line))
            == Extend(done + [Piece(start, open)], [], Pieces(s[1..], Default, line, line))
  {
    var r := Pieces(s[1..], Default, line, line);
    assert open + [] == open && [] + r[0].raw == r[0].raw;
    assert Pieces(s, Default, start, line)[1..] == r;
    assert r == [r[0]] + r[1..];
  }

  lemma ExtendEnd(done: seq<Piece>, open: string, st: State, start: int, line: int)
    ensures Extend(done, open, Pieces([], st, start, line)) == done + [Piece(start, open)]
  {
    assert open + [] == open;
  }

  /** The four states the loop itself uses. */
  predicate LoopState(st: State) { st != Escape && st != Closing }

  /** All the pieces: those done, the open one with what is read of it, and what the rest adds. */
  ghost function Pending(done: seq<Piece>, open: string, rest: string, st: State, start: int, line: int): seq<Piece> {
    Extend(done, open, Pieces(rest, st, start, line))
  }

  /** One turn of the loop that does not cut: the next state, and how far it moves. */
  function Turn(rest: string, st: State): (State, nat)
    requires rest != []
  {
    var st' := Delta(st, rest[0], Peek(rest[1..], None));
    if st' == Escape then (Quote, 2) else if st' == Closing then (Default, 2) else (st', 1)
  }

  lemma TurnMoves(rest: string, st: State)
    requires rest != [] && LoopState(st)
    ensures LoopState(Turn(rest, st).0) && Turn(rest, st).1 <= |rest| + 1
    ensures Turn(rest, st).1 == 2 && |rest| == 1 ==> st == Quote && rest[0] == '\\'
  {
  }

  /** How many of the characters it moves past are there. */
  function Taken(rest: string, moved: nat): (k: nat)
    ensures k <= |rest|
  {
    if moved <= |rest| then moved else |rest|
  }

  /** Reading one character that does not cut. */
  lemma ReadOne(done: seq<Piece>, open: string, c: char, rest: string, st: State, start: int, line: int)
    requires !(st == Default && c == ';')
    ensures Pending(done, open, [c] + rest, st, start, line)
            == Pending(done, open + [c], rest, Delta(st, c, Peek(rest, None)), start, line + LineStep(c, st))
  {
    var s := [c] + rest;
    assert s[1..] == rest;
    ExtendOne(done, open, s, st, start, line);
  }

  lemma AtEnd(done: seq<Piece>, open: string, st: State, start: int, line: int)
    ensures Pending(done, open, [], st, start, line) == done + [Piece(start, open)]
  {
    ExtendEnd(done, open, st, start, line);
  }

  /** A turn away from a cut leaves the pieces as they are. */
  lemma TurnKept(done: seq<Piece>, open: string, rest: string, st: State, start: int, line: int)
    requires rest != [] && LoopState(st) && !(st == Default && rest[0] == ';')
    ensures var (st', moved) := Turn(rest, st);
            var k := Taken(rest, moved);
            Pending(done, open + rest[..k], rest[k..], st', start, line + if rest[0] == '\n' then 1 else 0)
            == Pending(done, open, rest, st, start, line)
  {
    var c, tail := rest[0], rest[1..];
    var mid := Delta(st, c, Peek(tail, None));
    assert rest == [c] + tail && rest[..1] == [c];
    ReadOne(done, open, c, tail, st, start, line);
    if mid == Escape || mid == Closing {
      if tail == [] {
        AtEnd(done, open + [c], mid, start, line);
        AtEnd(done, open + [c], Turn(rest, st).0, start, line);
      } else {
        assert tail == [tail[0]] + tail[1..] && rest[..2] == [c] + [tail[0]] && rest[2..] == tail[1..];
        assert open + [c] + [tail[0]] == open + rest[..2];
        ReadOne(done, open + [c], tail[0], tail[1..], mid, start, line);
      }
    }
  }

  lemma CutKept(done: seq<Piece>, open: string, rest: string, start: int, line: int)
    requires rest != [] && rest[0] == ';'
    ensures Pending(done + [Piece(start, open)], [], rest[1..], Default, line, line)
            == Pending(done, open, rest, Default, start, line)
  {
    ExtendCut(done, open, rest, start, line);
  }

  lemma PendingAtStart(text: string, line: int)
    ensures Pending([], [], text, Default, line, line) == Pieces(text, Default, line, line)
  {
    var all := Pieces(text, Default, line, line);
    assert [] + all[0].raw == all[0].raw && all == [all[0]] + all[1..];
  }

  /** The scan is at i, possibly one past the end, with the open piece started at from. */
  ghost predicate Spans(text: string, from: nat, i: nat, open: string, rest: string) {
    && from <= i <= |text| + 1 && from <= |text|
    && if i <= |text| then open == text[from..i] && rest == text[i..] else open == text[from..] && rest == []
  }

  lemma SpanGrows(text: string, from: nat, i: nat, open: string, rest: string, moved: nat)
    requires Spans(text, from, i, open, rest) && i < |text| && 1 <= moved <= |rest| + 1
    ensures Spans(text, from, i + moved, open + rest[..Taken(rest, moved)], rest[Taken(rest, moved)..])
  {
    var k := Taken(rest, moved);
    assert text[from..i] + text[i..][..k] == text[from..i + k] && text[i..][k..] == text[i + k..];
  }

  lemma SpanCut(text: string, from: nat, i: nat, open: string, rest: string)
    requires Spans(text, from, i, open, rest) && i < |text|
    ensures rest != [] && rest[0] == text[i] && (i + 1 < |text| <==> |rest| > 1) && (|rest| > 1 ==> rest[1] == text[i + 1])
    ensures Spans(text, i + 1, i + 1, [], rest[1..])
  {
  }

  lemma SpanEnds(text: string, from: nat, i: nat, open: string, rest: string)
    requires Spans(text, from, i, open, rest) && i >= |text|
    ensures open == text[from..] && rest == []
  {
  }

  /** The splitting loop: four states, escapes, comments and lines. */
  method SplitSqlText(text: string, path: string, offset: int) returns (statements: seq<RawStatement>)
    ensures statements == Split(text, path, offset)
  {
    statements := [];
    var segmentStart, segmentStartLine, line := 0, 1 + offset, 1 + offset;
    var state := Default;
    var i, n := 0, |text|;
    ghost var done: seq<Piece>, open: string, rest := [], [], text;
    PendingAtStart(text, 1 + offset);
    while i < n
      invariant 0 <= segmentStart && Spans(text, segmentStart, i, open, rest) && LoopState(state)
      invariant Pending(done, open, rest, state, segmentStartLine, line) == Pieces(text, Default, 1 + offset, 1 + offset)
      invariant statements == Statements(done, path)
      decreases n + 1 - i
    {
      var ch := text[i];
      SpanCut(text, segmentStart, i, open, rest);
      ghost var turn, i0 := Turn(rest, state), i;
      ghost var k := Taken(rest, turn.1);
      TurnMoves(rest, state);
      if state == Default && ch == ';' {
        CutKept(done, open, rest, segmentStartLine, line);
      } else {
        TurnKept(done, open, rest, state, segmentStartLine, line);
        SpanGrows(text, segmentStart, i, open, rest, turn.1);
      }
      if ch == '\n' { line := line + 1; }
      if state == Default {
        if ch == '\'' {
          state := Quote;
        } else if i + 1 < n && ch == '-' && text[i + 1] == '-' {
          state := Line;
        } else if i + 1 < n && ch == '/' && text[i + 1] == '*' {
          state := Block;
        } else if ch == ';' {
          statements := AppendStatement(statements, done, path, segmentStartLine, text[segmentStart..i]);
          done, open, rest := done + [Piece(segmentStartLine, open)], [], rest[1..];
          segmentStart := i + 1;
          segmentStartLine := line;
        }
      } else if state == Quote {
        if ch == '\\' {
          i := i + 1;
        } else if ch == '\'' {
          state := Default;
        }
      } else if state == Line {
        if ch == '\n' { state := Default; }
      } else if state == Block {
        if i + 1 < n && ch == '*' && text[i + 1] == '/' {
          state := Default;
          i := i + 1;
        }
      }
      i := i + 1;
      if segmentStart <= i0 {
        assert state == turn.0 && i == i0 + turn.1;
        open, rest := open + rest[..k], rest[k..];
      }
    }
    SpanEnds(text, segmentStart, i, open, rest);
    AtEnd(done, open, state, segmentStartLine, line);
    statements := AppendStatement(statements, done, path, segmentStartLine, text[segmentStart..]);
  }
}

/** The lexical states of SQL text: the splitter's own scan and a reference lexer. */
module Lexer {
  import opened Prelude

  /** The states of the scan; Escape and Closing are the characters it steps over. */
  datatype State = Default | Quote | Escape | Line | Block | Closing

  /** One character, and the one after it if there is one. */
  function Delta(st: State, c: char, next: Option<char>): State {
    match st
    case Default =>
      if c == '\'' then Quote
      else if c == '-' && next == Some('-') then Line
      else if c == '/' && next == Some('*') then Block
      else Default
    case Quote => if c == '\\' then Escape else if c == '\'' then Default else Quote
    case Escape => Quote
    case Line => if c == '\n' then Default else Line
    case Block => if c == '*' && next == Some('/') then Closing else Block
    case Closing => Default
  }

  function Peek(s: string, after: Option<char>): Option<char> { if s == [] then after else Some(s[0]) }

  /** The state after reading s, when the character after it is `after`. */
  function Run(s: string, st: State, after: Option<char>): State {
    if s == [] then st else Run(s[1..], Delta(st, s[0], Peek(s[1..], after)), after)
  }

  /** No character of s is a semicolon read in the default state. */
  predicate NoCut(s: string, st: State, after: Option<char>) {
    s != [] ==> !(st == Default && s[0] == ';') && NoCut(s[1..], Delta(st, s[0], Peek(s[1..], after)), after)
  }

  /** The scan never opens a block comment at the three characters slash, star, slash. */
  predicate Tidy(s: string, st: State) {
    s != [] ==>
      !(st == Default && s[0] == '/' && |s| >= 3 && s[1] == '*' && s[2] == '/')
      && Tidy(s[1..], Delta(st, s[0], Peek(s[1..], None)))
  }

  predicate SlashStarSlashAt(s: string, i: nat) {
    i + 3 <= |s| && s[i] == '/' && s[i + 1] == '*' && s[i + 2] == '/'
  }

  lemma {:induction false} WithoutSlashStarSlash(s: string, st: State)
    requires forall i: nat :: !SlashStarSlashAt(s, i)
    ensures Tidy(s, st)
  {
    if s != [] {
      forall i: nat ensures !SlashStarSlashAt(s[1..], i) { assert !SlashStarSlashAt(s, i + 1); }
      WithoutSlashStarSlash(s[1..], Delta(st, s[0], Peek(s[1..], None)));
      assert !SlashStarSlashAt(s, 0);
    }
  }

  lemma {:induction false} RunConcat(a: string, b: string, st: State, after: Option<char>)
    ensures Run(a + b, st, after) == Run(b, Run(a, st, Peek(b, after)), after)
    ensures NoCut(a + b, st, after) <==> NoCut(a, st, Peek(b, after)) && NoCut(b, Run(a, st, Peek(b, after)), after)
  {
    if a == [] {
      assert a + b == b;
    } else {
      assert (a + b)[1..] == a[1..] + b;
      RunConcat(a[1..], b, Delta(st, a[0], Peek(a[1..] + b, after)), after);
    }
  }

  /** A following character that continues no token changes nothing. */
  lemma {:induction false} InertAfter(s: string, st: State, after: Option<char>)
    requires after != Some('-') && after != Some('*') && after != Some('/')
    ensures Run(s, st, after) == Run(s, st, None) && NoCut(s, st, after) == NoCut(s, st, None)
  {
    if s != [] { InertAfter(s[1..], Delta(st, s[0], Peek(s[1..], after)), after); }
  }

  lemma {:induction false} TidyPrefix(a: string, b: string, st: State)
    requires Tidy(a + b, st) && (b == [] || (b[0] != '-' && b[0] != '*' && b[0] != '/'))
    ensures Tidy(a, st)
  {
    if a != [] {
      assert (a + b)[1..] == a[1..] + b;
      assert Delta(st, a[0], Peek(a[1..] + b, None)) == Delta(st, a[0], Peek(a[1..], None));
      TidyPrefix(a[1..], b, Delta(st, a[0], Peek(a[1..], None)));
      assert |a| >= 3 ==> (a + b)[1] == a[1] && (a + b)[2] == a[2];
    }
  }

  lemma {:induction false} TidySuffix(a: string, b: string, st: State)
    requires Tidy(a + b, st)
    ensures Tidy(b, Run(a, st, Peek(b, None)))
  {
    if a == [] {
      assert a + b == b;
    } else {
      assert (a + b)[1..] == a[1..] + b;
      TidySuffix(a[1..], b, Delta(st, a[0], Peek(a[1..] + b, None)));
    }
  }

  // ---- the reference lexer ----

  datatype Region = Code | Literal | LineComment | BlockComment

  function RegionOf(st: State): Region {
    match st
    case Default => Code
    case Quote => Literal
    case Escape => Literal
    case Line => LineComment
    case Block => BlockComment
    case Closing => BlockComment
  }

  /** The region in which the scan reads each character, and the one it ends in. */
  function Regions(s: string, st: State): (r: seq<Region>)
    ensures |r| == |s| + 1 && r[0] == RegionOf(st)
  {
    if s == [] then [RegionOf(st)] else [RegionOf(st)] + Regions(s[1..], Delta(st, s[0], Peek(s[1..], None)))
  }

  /** Outside literals and comments. */
  function RefCode(s: string): (r: seq<Region>)
    ensures |r| == |s| + 1 && r[0] == Code
    decreases s
  {
    if s == [] then [Code]
    else if s[0] == '\'' then [Code] + RefLiteral(s[1..])
    else if |s| >= 2 && s[0] == '-' && s[1] == '-' then [Code, LineComment] + RefLine(s[2..])
    else if |s| >= 2 && s[0] == '/' && s[1] == '*' then [Code, BlockComment] + RefBlock(s[2..])
    else [Code] + RefCode(s[1..])
  }

  /** Inside a literal; a backslash takes the next character with it. */
  function RefLiteral(s: string): (r: seq<Region>)
    ensures |r| == |s| + 1 && r[0] == Literal
    decreases s
  {
    if s == [] then [Literal]
    else if s[0] == '\\' then (if |s| == 1 then [Literal, Literal] else [Literal, Literal] + RefLiteral(s[2..]))
    else if s[0] == '\'' then [Literal] + RefCode(s[1..])
    else [Literal] + RefLiteral(s[1..])
  }

  function RefLine(s: string): (r: seq<Region>)
    ensures |r| == |s| + 1 && r[0] == LineComment
    decreases s
  {
    if s == [] then [LineComment]
    else if s[0] == '\n' then [LineComment] + RefCode(s[1..])
    else [LineComment] + RefLine(s[1..])
  }

  /** Inside a block comment, up to and including the first star-slash. */
  function RefBlock(s: string): (r: seq<Region>)
    ensures |r| == |s| + 1 && r[0] == BlockComment
    decreases s
  {
    if s == [] then [BlockComment]
    else if |s| >= 2 && s[0] == '*' && s[1] == '/' then [BlockComment, BlockComment] + RefCode(s[2..])
    else [BlockComment] + RefBlock(s[1..])
  }

  /** Two sequences that start alike agree exactly when their tails do. */
  lemma TailsAgree<T>(x: T, a: seq<T>, b: seq<T>)
    ensures [x] + a == [x] + b <==> a == b
  {
    if [x] + a == [x] + b { assert a == ([x] + a)[1..] == ([x] + b)[1..] == b; }
  }

  lemma {:induction false} QuoteAgrees(s: string)
    ensures Regions(s, Quote) == RefLiteral(s) <==> Tidy(s, Quote)
    decreases s
  {
    if s != [] {
      if s[0] == '\\' {
        var t := s[1..];
        assert Regions(s, Quote) == [Literal] + Regions(t, Escape);
        if |s| > 1 {
          assert t[1..] == s[2..];
          assert Regions(t, Escape) == [Literal] + Regions(s[2..], Quote);
          assert RefLiteral(s) == [Literal] + ([Literal] + RefLiteral(s[2..]));
          QuoteAgrees(s[2..]);
          TailsAgree(Literal, Regions(s[2..], Quote), RefLiteral(s[2..]));
          TailsAgree(Literal, Regions(t, Escape), [Literal] + RefLiteral(s[2..]));
        }
      } else if s[0] == '\'' {
        CodeAgrees(s[1..]);
        TailsAgree(Literal, Regions(s[1..], Default), RefCode(s[1..]));
      } else {
        QuoteAgrees(s[1..]);
        TailsAgree(Literal, Regions(s[1..], Quote), RefLiteral(s[1..]));
      }
    }
  }

  lemma {:induction false} LineAgrees(s: string)
    ensures Regions(s, Line) == RefLine(s) <==> Tidy(s, Line)
    decreases s
  {
    if s != [] {
      if s[0] == '\n' {
        CodeAgrees(s[1..]);
        TailsAgree(LineComment, Regions(s[1..], Default), RefCode(s[1..]));
      } else {
        LineAgrees(s[1..]);
        TailsAgree(LineComment, Regions(s[1..], Line), RefLine(s[1..]));
      }
    }
  }

  lemma {:induction false} BlockAgrees(s: string)
    ensures Regions(s, Block) == RefBlock(s) <==> Tidy(s, Block)
    decreases s
  {
    if s != [] {
      if |s| >= 2 && s[0] == '*' && s[1] == '/' {
        var t := s[1..];
        assert t[1..] == s[2..];
        assert Regions(s, Block) == [BlockComment] + Regions(t, Closing);
        assert Regions(t, Closing) == [BlockComment] + Regions(s[2..], Default);
        assert RefBlock(s) == [BlockComment] + ([BlockComment] + RefCode(s[2..]));
        CodeAgrees(s[2..]);
        TailsAgree(BlockComment, Regions(s[2..], Default), RefCode(s[2..]));
        TailsAgree(BlockComment, Regions(t, Closing), [BlockComment] + RefCode(s[2..]));
      } else {
        BlockAgrees(s[1..]);
        TailsAgree(BlockComment, Regions(s[1..], Block), RefBlock(s[1..]));
      }
    }
  }

  lemma LineOpens(s: string)
    requires |s| >= 2 && s[0] == '-' && s[1] == '-'
    ensures Regions(s, Default) == RefCode(s) <==> Regions(s[2..], Line) == RefLine(s[2..])
    ensures Tidy(s, Default) <==> Tidy(s[2..], Line)
  {
    var t := s[1..];
    assert t[1..] == s[2..];
    assert Regions(t, Line) == [LineComment] + Regions(s[2..], Line);
    assert RefCode(s) == [Code] + ([LineComment] + RefLine(s[2..]));
    TailsAgree(LineComment, Regions(s[2..], Line), RefLine(s[2..]));
    TailsAgree(Code, Regions(t, Line), [LineComment] + RefLine(s[2..]));
  }

  /** At slash-star-slash the scan leaves the comment at once; the reference lexer stays in it. */
  lemma BlockClosesAtOnce(s: string)
    requires |s| >= 3 && s[0] == '/' && s[1] == '*' && s[2] == '/'
    ensures Regions(s, Default) != RefCode(s) && !Tidy(s, Default)
  {
    var t := s[1..];
    assert t[1..] == s[2..];
    assert Regions(t, Block) == [BlockComment] + Regions(s[2..], Closing);
    assert Regions(s[2..], Closing)[1] == Code;
    assert RefBlock(s[2..])[1] == BlockComment;
    assert Regions(s, Default)[3] == Code && RefCode(s)[3] == BlockComment;
  }

  lemma BlockStarts(s: string)
    requires |s| >= 2 && s[0] == '/' && s[1] == '*' && !(|s| >= 3 && s[2] == '/')
    ensures s[1..][1..] == s[2..] && Peek(s[1..], None) == Some('*')
    ensures Delta(Default, '/', Some('*')) == Block && Delta(Block, '*', Peek(s[2..], None)) == Block
  {
  }

  lemma BlockStartsTidy(s: string)
    requires |s| >= 2 && s[0] == '/' && s[1] == '*' && !(|s| >= 3 && s[2] == '/')
    ensures Tidy(s, Default) <==> Tidy(s[2..], Block)
  {
    BlockStarts(s);
    assert Tidy(s, Default) <==> Tidy(s[1..], Block);
  }

  lemma BlockOpens(s: string)
    requires |s| >= 2 && s[0] == '/' && s[1] == '*' && !(|s| >= 3 && s[2] == '/')
    ensures Regions(s, Default) == RefCode(s) <==> Regions(s[2..], Block) == RefBlock(s[2..])
    ensures Tidy(s, Default) <==> Tidy(s[2..], Block)
  {
    var t := s[1..];
    var u := s[2..];
    BlockStartsTidy(s);
    BlockStarts(s);
    assert Regions(s, Default) == [Code] + Regions(t, Block);
    assert Regions(t, Block) == [BlockComment] + Regions(u, Block);
    assert RefCode(s) == [Code] + ([BlockComment] + RefBlock(u));
    TailsAgree(Code, Regions(t, Block), [BlockComment] + RefBlock(u));
    TailsAgree(BlockComment, Regions(u, Block), RefBlock(u));
  }

  /**
   * The scan and the reference lexer put every character in the same region, and
   * end in the same one, exactly when no comment is opened at slash-star-slash.
   */
  lemma {:induction false} CodeAgrees(s: string)
    ensures Regions(s, Default) == RefCode(s) <==> Tidy(s, Default)
    decreases s
  {
    if s != [] {
      var t := s[1..];
      if s[0] == '\'' {
        QuoteAgrees(t);
        TailsAgree(Code, Regions(t, Quote), RefLiteral(t));
      } else if |s| >= 2 && s[0] == '-' && s[1] == '-' {
        LineAgrees(s[2..]);
        LineOpens(s);
      } else if |s| >= 2 && s[0] == '/' && s[1] == '*' {
        if |s| >= 3 && s[2] == '/' {
          BlockClosesAtOnce(s);
        } else {
          BlockAgrees(s[2..]);
          BlockOpens(s);
        }
      } else {
        CodeAgrees(t);
        TailsAgree(Code, Regions(t, Default), RefCode(t));
      }
    }
  }
}

/**
 Splitting and word scanning as pure functions over one text
 (internal/sqlscan/sqlscan.go).  Pieces describes the statements that Split cuts
 out; Scan is the one-pass lexer: it reads the whole text once and yields its
 significant words and its top-level semicolons.
 */
module Statements {
  import opened Wrappers
  import opened Lexer
  import opened Locality
  import opened Trimming

  datatype Item = Word(text: string) | Semicolon

  /** One step of the one-pass lexer: what it emits, where the current word began, the new cursor. */
  datatype Advance = Advance(items: seq<Item>, word: nat, pos: nat)

  /** The word that began at w, if any, when the scan has reached p. */
  function Pending(src: string, w: nat, p: nat): seq<Item>
    requires w <= p <= |src|
  {
    if w < p then [Word(src[w..p])] else []
  }

  /** The cursor after the construct or the plain byte at p. */
  function NextPos(src: string, p: nat): (q: nat)
    requires p < |src|
    ensures p < q <= |src|
  {
    p + if SkipLen(src, p) > 0 then SkipLen(src, p) else 1
  }

  function Step(src: string, w: nat, p: nat): (a: Advance)
    requires w <= p < |src|
    ensures w <= a.word <= a.pos == NextPos(src, p)
  {
    var n := SkipLen(src, p);
    if n > 0 then Advance(Pending(src, w, p), p + n, p + n)
    else if IsWordByte(src[p]) then Advance([], w, p + 1)
    else if src[p] == ';' then Advance(Pending(src, w, p) + [Semicolon], p + 1, p + 1)
    else Advance(Pending(src, w, p), p + 1, p + 1)
  }

  /** The one-pass lexer: w is where the current word began, p is the cursor. */
  function Scan(src: string, w: nat, p: nat): seq<Item>
    requires w <= p <= |src|
    decreases |src| - p
  {
    if p == |src| then Pending(src, w, p)
    else
      var a := Step(src, w, p);
      a.items + Scan(src, a.word, a.pos)
  }

  predicate IsSeparator(src: string, p: nat)
    requires p < |src|
  {
    src[p] == ';' && SkipLen(src, p) == 0
  }

  /** The first top-level semicolon at or after the token position p, or the end of the text. */
  function StatementEnd(src: string, p: nat): (e: nat)
    requires p <= |src|
    ensures p <= e <= |src|
    ensures e < |src| ==> src[e] == ';'
    decreases |src| - p
  {
    if p == |src| || IsSeparator(src, p) then p else StatementEnd(src, NextPos(src, p))
  }

  function Nonempty(t: string): seq<string> {
    if t == "" then [] else [t]
  }

  /** The trimmed statement that starts at s. */
  function Statement(src: string, s: nat): string
    requires s <= |src|
  {
    Trim(src[s..StatementEnd(src, s)])
  }

  /** The trimmed, nonempty statements of src from the statement start s on. */
  function Pieces(src: string, s: nat): seq<string>
    requires s <= |src|
    decreases |src| - s
  {
    var e := StatementEnd(src, s);
    Nonempty(Statement(src, s)) + if e < |src| then Pieces(src, e + 1) else []
  }

  /** How the lex of a text ends: between tokens, in a line comment, or in an unterminated construct. */
  datatype End = Outside | InLineComment | Inside

  /** Outside unless a construct opens at p and never closes. */
  function EndAt(src: string, p: nat): End
    requires p < |src|
  {
    match Opens(src, p)
    case None => Outside
    case Some(c) =>
      if Closes(c, src[p..]).Some? then Outside
      else if c.LineComment? then InLineComment
      else Inside
  }

  function Ends(src: string, p: nat): End
    requires p <= |src|
    decreases |src| - p
  {
    if p == |src| then Outside
    else if EndAt(src, p) != Outside then EndAt(src, p)
    else Ends(src, NextPos(src, p))
  }

  // ---- One step at a time ----

  lemma ScanOne(src: string, w: nat, p: nat)
    requires w <= p < |src|
    ensures Scan(src, w, p) == var a := Step(src, w, p); a.items + Scan(src, a.word, a.pos)
  {
    hide Step, NextPos;
  }

  lemma EndOne(src: string, p: nat)
    requires p < |src|
    ensures StatementEnd(src, p) == if IsSeparator(src, p) then p else StatementEnd(src, NextPos(src, p))
    ensures Ends(src, p) == if EndAt(src, p) != Outside then EndAt(src, p) else Ends(src, NextPos(src, p))
  {
    hide IsSeparator, NextPos, EndAt;
  }

  lemma AtTheEnd(src: string, w: nat)
    requires w <= |src|
    ensures Scan(src, w, |src|) == Pending(src, w, |src|)
    ensures StatementEnd(src, |src|) == |src| && Ends(src, |src|) == Outside
  {
    hide Pending;
  }

  // ---- Dropping a finished prefix ----

  lemma StepDrop(src: string, t: string, a: nat, w: nat, p: nat)
    requires a <= w <= p < |src| && StartsToken(src, a) && t == src[a..]
    ensures Step(src, w, p) == var s := Step(t, w - a, p - a); Advance(s.items, s.word + a, s.pos + a)
    ensures NextPos(src, p) == NextPos(t, p - a) + a
    ensures EndAt(src, p) == EndAt(t, p - a)
    ensures IsSeparator(src, p) == IsSeparator(t, p - a)
  {
    OpensDrop(src, a, p);
    assert t[p - a..] == src[p..];
    assert t[w - a..p - a] == src[w..p];
    hide Opens, Closes;
  }

  lemma {:induction false} ScanDrop(src: string, t: string, a: nat, w: nat, p: nat)
    requires a <= w <= p <= |src| && StartsToken(src, a) && t == src[a..]
    ensures Scan(t, w - a, p - a) == Scan(src, w, p)
    decreases |src| - p
  {
    hide *;
    if p < |src| {
      StepDrop(src, t, a, w, p);
      ScanOne(src, w, p);
      ScanOne(t, w - a, p - a);
      var s := Step(src, w, p);
      ScanDrop(src, t, a, s.word, s.pos);
    } else {
      AtTheEnd(src, w);
      AtTheEnd(t, w - a);
      PendingDrop(src, t, a, w);
    }
  }

  lemma PendingDrop(src: string, t: string, a: nat, w: nat)
    requires a <= w <= |src| && t == src[a..]
    ensures Pending(t, w - a, |t|) == Pending(src, w, |src|)
  {
    assert t[w - a..|t|] == src[w..|src|];
  }

  lemma {:induction false} EndDrop(src: string, t: string, a: nat, p: nat)
    requires a <= p <= |src| && StartsToken(src, a) && t == src[a..]
    ensures StatementEnd(t, p - a) == StatementEnd(src, p) - a
    ensures Ends(t, p - a) == Ends(src, p)
    decreases |src| - p
  {
    hide *;
    if p < |src| {
      StepDrop(src, t, a, p, p);
      EndOne(src, p);
      EndOne(t, p - a);
      EndDrop(src, t, a, NextPos(src, p));
    } else {
      AtTheEnd(src, p);
      AtTheEnd(t, p - a);
    }
  }

  lemma StatementDrop(src: string, t: string, a: nat, s: nat)
    requires a <= s <= |src| && StartsToken(src, a) && t == src[a..]
    ensures StatementEnd(t, s - a) == StatementEnd(src, s) - a
    ensures Statement(t, s - a) == Statement(src, s)
  {
    hide StatementEnd, Trim, Ends, StartsToken;
    EndDrop(src, t, a, s);
    assert t[s - a..StatementEnd(src, s) - a] == src[s..StatementEnd(src, s)];
  }

  /** The pieces after the statement that starts at s. */
  function Rest(src: string, s: nat): seq<string>
    requires s <= |src|
  {
    if StatementEnd(src, s) < |src| then Pieces(src, StatementEnd(src, s) + 1) else []
  }

  lemma PiecesUnfold(src: string, s: nat)
    requires s <= |src|
    ensures Pieces(src, s) == Nonempty(Statement(src, s)) + Rest(src, s)
  {
    hide StatementEnd, Statement, Nonempty;
  }

  lemma {:induction false} PiecesDrop(src: string, t: string, a: nat, s: nat)
    requires a <= s <= |src| && StartsToken(src, a) && t == src[a..]
    ensures Pieces(t, s - a) == Pieces(src, s)
    decreases |src| - s
  {
    hide StatementEnd, Statement, Nonempty, StartsToken, Pieces;
    StatementDrop(src, t, a, s);
    PiecesUnfold(src, s);
    PiecesUnfold(t, s - a);
    var e := StatementEnd(src, s);
    if e < |src| {
      PiecesDrop(src, t, a, e + 1);
      assert e - a + 1 == e + 1 - a;
    }
  }

  // ---- Cutting a text ----

  /** How a construct that reaches the cut ends in the cut text. */
  lemma EndAtCut(src: string, t: string, p: nat)
    requires p < |t| <= |src| && t == src[..|t|] && CutPoint(src, |t|)
    ensures SkipLen(t, p) == if p + SkipLen(src, p) <= |t| then SkipLen(src, p) else |t| - p
    ensures p + SkipLen(src, p) > |t| ==> EndAt(t, p) != Outside
    ensures p + SkipLen(src, p) < |t| ==> EndAt(src, p) == EndAt(t, p)
    ensures p + SkipLen(src, p) == |t| && EndAt(src, p) == Outside && EndAt(t, p) != Outside ==> |t| < |src| && IsNewline(src[|t|])
  {
    hide Opens, CutPoint;
    SkipCut(src, |t|, p);
    OpensCut(src, |t|, p);
    assert t[p..] == src[p..][..|t| - p];
    if Opens(src, p).Some? {
      CutPointDrop(src, p, |t|);
      ClosesCut(Opens(src, p).value, src[p..], |t| - p);
    }
  }

  lemma CutPointDrop(src: string, p: nat, b: nat)
    requires p <= b && CutPoint(src, b)
    ensures CutPoint(src[p..], b - p)
  {
  }

  lemma NothingOpen(src: string, p: nat)
    requires p < |src|
    ensures SkipLen(src, p) == 0 ==> EndAt(src, p) == Outside
  {
    hide Opens, Closes;
  }

  /** A token that ends at or before the cut is read the same way from the cut text. */
  lemma StepCut(src: string, t: string, w: nat, p: nat)
    requires w <= p < |t| <= |src| && t == src[..|t|] && CutPoint(src, |t|)
    ensures IsSeparator(src, p) == IsSeparator(t, p)
    ensures NextPos(src, p) <= |t| ==> Step(src, w, p) == Step(t, w, p) && NextPos(src, p) == NextPos(t, p)
    ensures NextPos(src, p) > |t| ==> Step(t, w, p) == Advance(Pending(src, w, p), |t|, |t|) && NextPos(t, p) == |t|
    ensures NextPos(src, p) > |t| ==> Step(src, w, p) == Advance(Pending(src, w, p), NextPos(src, p), NextPos(src, p))
    ensures NextPos(src, p) > |t| ==> EndAt(t, p) != Outside
    ensures NextPos(src, p) < |t| ==> EndAt(src, p) == EndAt(t, p)
    ensures NextPos(src, p) == |t| && EndAt(src, p) == Outside && EndAt(t, p) != Outside ==> |t| < |src| && IsNewline(src[|t|])
  {
    hide SkipLen, EndAt, CutPoint, IsNewline;
    EndAtCut(src, t, p);
    NothingOpen(src, p);
    NothingOpen(t, p);
    assert t[w..p] == src[w..p] && t[p] == src[p];
  }

  lemma EndAtSkipsAll(src: string, p: nat)
    requires p < |src|
    ensures EndAt(src, p) != Outside ==> NextPos(src, p) == |src|
    ensures IsSeparator(src, p) ==> NextPos(src, p) == p + 1 && EndAt(src, p) == Outside
  {
    hide Opens, Closes;
  }

  /** Everything before the first top-level semicolon lexes as if the text ended there. */
  lemma {:induction false} ScanCutAtEnd(src: string, t: string, w: nat, p: nat)
    requires w <= p <= |src| && t == src[..StatementEnd(src, p)]
    ensures Scan(src, w, p) ==
            Scan(t, w, p) + (if |t| < |src| then [Semicolon] + Scan(src, |t| + 1, |t| + 1) else [])
    ensures StatementEnd(t, p) == |t|
    ensures Ends(t, p) == if |t| < |src| then Outside else Ends(src, p)
    decreases |src| - p
  {
    hide *;
    if |t| == |src| {
      assert t == src && Scan(src, w, p) + [] == Scan(src, w, p);
    } else {
      if p == |src| {
        AtTheEnd(src, w);
      }
      EndOne(src, p);
      ScanOne(src, w, p);
      if IsSeparator(src, p) {
        CutAtSeparator(src, t, w);
      } else {
        var a := Step(src, w, p);
        SemicolonCuts(src, |t|);
        EndAtSkipsAll(src, p);
        StepCut(src, t, w, p);
        EndOne(t, p);
        ScanOne(t, w, p);
        ScanCutAtEnd(src, t, a.word, a.pos);
        var rest := [Semicolon] + Scan(src, |t| + 1, |t| + 1);
        assert a.items + (Scan(t, a.word, a.pos) + rest) == a.items + Scan(t, a.word, a.pos) + rest;
      }
    }
  }

  lemma SemicolonCuts(src: string, b: nat)
    requires b < |src| && src[b] == ';'
    ensures CutPoint(src, b) && !IsNewline(src[b])
  {
  }

  lemma PendingCut(src: string, t: string, w: nat)
    requires w <= |t| <= |src| && t == src[..|t|]
    ensures Pending(t, w, |t|) == Pending(src, w, |t|)
  {
    assert t[w..|t|] == src[w..|t|];
  }

  lemma CutAtSeparator(src: string, t: string, w: nat)
    requires w <= |t| < |src| && t == src[..|t|] && IsSeparator(src, |t|)
    ensures Scan(src, w, |t|) == Scan(t, w, |t|) + ([Semicolon] + Scan(src, |t| + 1, |t| + 1))
    ensures StatementEnd(t, |t|) == |t| && Ends(t, |t|) == Outside
  {
    hide *;
    ScanOne(src, w, |t|);
    SeparatorStep(src, w, |t|);
    AtTheEnd(t, w);
    PendingCut(src, t, w);
    var rest := Scan(src, |t| + 1, |t| + 1);
    assert Pending(src, w, |t|) + [Semicolon] + rest == Pending(src, w, |t|) + ([Semicolon] + rest);
  }

  lemma SeparatorStep(src: string, w: nat, p: nat)
    requires w <= p < |src| && IsSeparator(src, p)
    ensures Step(src, w, p) == Advance(Pending(src, w, p) + [Semicolon], p + 1, p + 1)
  {
    hide SkipLen;
  }

  // ---- Blanks ----

  lemma BlankStep(src: string, w: nat, p: nat)
    requires w <= p < |src| && IsBlank(src[p])
    ensures Step(src, w, p) == Advance(Pending(src, w, p), p + 1, p + 1)
    ensures NextPos(src, p) == p + 1 && EndAt(src, p) == Outside && !IsSeparator(src, p)
  {
    assert Opens(src, p) == None;
    hide Opens, Closes;
  }

  lemma {:induction false} LeadingBlanks(src: string, p: nat, b: nat)
    requires p <= b <= |src| && Blanks(src, p, b)
    ensures Scan(src, p, p) == Scan(src, b, b)
    ensures StatementEnd(src, p) == StatementEnd(src, b)
    ensures Ends(src, p) == Ends(src, b)
    decreases b - p
  {
    hide *;
    if p < b {
      BlanksTail(src, p, b);
      BlankStep(src, p, p);
      ScanOne(src, p, p);
      EndOne(src, p);
      NothingPending(src, p);
      LeadingBlanks(src, p + 1, b);
      assert [] + Scan(src, p + 1, p + 1) == Scan(src, p + 1, p + 1);
    }
  }

  lemma BlanksTail(s: string, i: nat, j: nat)
    requires i < j <= |s| && Blanks(s, i, j)
    ensures IsBlank(s[i]) && Blanks(s, i + 1, j)
  {
    hide IsBlank;
  }

  lemma NothingPending(src: string, p: nat)
    requires p <= |src|
    ensures Pending(src, p, p) == []
  {
  }

  /** A construct that reaches into trailing blanks was either a line comment or never closes. */
  lemma CutInBlanks(src: string, t: string, p: nat)
    requires p < |t| <= |src| && t == src[..|t|] && Blanks(src, |t|, |src|)
    ensures EndAt(t, p) == Inside <==> EndAt(src, p) == Inside
    ensures NextPos(src, p) > |t| ==> EndAt(t, p) != Outside
    ensures NextPos(src, p) > |t| && EndAt(t, p) == InLineComment ==> EndAt(src, p) != Inside
    ensures EndAt(src, p) == Inside ==> NextPos(t, p) == |t|
  {
    OpensCut(src, |t|, p);
    SkipCut(src, |t|, p);
    assert t[p..] == src[p..][..|t| - p];
    if Opens(src, p).Some? {
      var c := Opens(src, p).value;
      ClosesCut(c, src[p..], |t| - p);
      ClosesAtMark(c, src, p);
    }
    hide Opens;
  }

  /** The bytes that close a construct other than a line comment. */
  predicate IsMark(c: char) {
    c == '\'' || c == '"' || c == '/' || c == '$'
  }

  /** A closed construct other than a line comment ends in a quote, a slash or a dollar. */
  lemma ClosesAtMark(c: Construct, src: string, p: nat)
    requires p < |src| && Opens(src, p) == Some(c)
    ensures !c.LineComment? && Closes(c, src[p..]).Some? ==>
            1 < Closes(c, src[p..]).value && IsMark(src[p + Closes(c, src[p..]).value - 1])
  {
    hide Opens, Closes, IsMark;
    var rest := src[p..];
    if !c.LineComment? && Closes(c, rest).Some? {
      var n := Closes(c, rest).value;
      match c
      case BlockComment => BlockEndsInMark(rest);
      case Literal => QuoteEndsInMark(c, rest);
      case Identifier => QuoteEndsInMark(c, rest);
      case EscapeString => EscapeEndsInMark(rest);
      case DollarQuoted(tag) =>
        DollarOpens(src, p, tag);
        TagEndsInMark(tag, rest);
      assert rest[n - 1] == src[p + n - 1];
    }
  }

  lemma BlockEndsInMark(rest: string)
    requires rest != "" && Closes(BlockComment, rest).Some?
    ensures var n := Closes(BlockComment, rest).value; 1 < n && IsMark(rest[n - 1])
  {
    hide BlockEnd;
  }

  lemma QuoteEndsInMark(c: Construct, rest: string)
    requires (c.Literal? || c.Identifier?) && rest != "" && Closes(c, rest).Some?
    ensures var n := Closes(c, rest).value; 1 < n && IsMark(rest[n - 1])
  {
    hide QuoteEnd;
  }

  lemma EscapeEndsInMark(rest: string)
    requires rest != "" && Closes(EscapeString, rest).Some?
    ensures var n := Closes(EscapeString, rest).value; 1 < n && IsMark(rest[n - 1])
  {
    hide EscapeEnd;
    var n := Closes(EscapeString, rest).value;
    assert rest[1..][n - 2] == rest[n - 1];
  }

  lemma DollarOpens(src: string, p: nat, tag: string)
    requires p < |src| && Opens(src, p) == Some(DollarQuoted(tag))
    ensures TagFrom(src[p..], 1) == Some(tag)
  {
    hide TagFrom;
  }

  lemma TagEndsInMark(tag: string, rest: string)
    requires rest != "" && TagFrom(rest, 1) == Some(tag) && Closes(DollarQuoted(tag), rest).Some?
    ensures var n := Closes(DollarQuoted(tag), rest).value; 1 < n && IsMark(rest[n - 1])
  {
    TagEndsInDollar(rest, 1);
    hide TagFrom, IndexFrom;
    var n := Closes(DollarQuoted(tag), rest).value;
    assert rest[n - |tag|..n][|tag| - 1] == rest[n - 1];
  }

  lemma {:induction false} TagEndsInDollar(rest: string, i: nat)
    requires 1 <= i
    ensures TagFrom(rest, i).Some? ==> var tag := TagFrom(rest, i).value; |tag| > 1 && tag[|tag| - 1] == '$'
    decreases |rest| - i
  {
    if i < |rest| && rest[i] != '$' {
      TagEndsInDollar(rest, i + 1);
    }
  }

  lemma {:induction false} TrailingBlanks(src: string, t: string, w: nat, p: nat)
    requires w <= p <= |t| <= |src| && t == src[..|t|] && Blanks(src, |t|, |src|)
    ensures Scan(src, w, p) == Scan(t, w, p)
    ensures Ends(src, p) == Inside <==> Ends(t, p) == Inside
    ensures StatementEnd(src, p) == |src| ==> StatementEnd(t, p) == |t|
    decreases |t| - p
  {
    hide Step, NextPos, EndAt, IsSeparator, IsBlank;
    if |t| == |src| {
      assert t == src;
    } else if p == |t| {
      assert t[w..p] == src[w..p];
      BlankStep(src, w, p);
      LeadingBlanks(src, p + 1, |src|);
    } else {
      assert CutPoint(src, |t|) by { BlankIsInert(src[|t|]); }
      StepCut(src, t, w, p);
      CutInBlanks(src, t, p);
      EndAtSkipsAll(src, p);
      EndAtSkipsAll(t, p);
      if NextPos(src, p) <= |t| {
        TrailingBlanks(src, t, Step(src, w, p).word, NextPos(src, p));
      } else {
        LeadingBlanks(src, NextPos(src, p), |src|);
      }
    }
  }

  lemma BlankIsInert(c: char)
    requires IsBlank(c)
    ensures Inert(c)
  {
  }
}

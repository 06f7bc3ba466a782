/**
 The two passes of the source agree with one pass: scanning every trimmed piece
 of Split from position 0 finds exactly the words that the one-pass lexer finds
 in that region of the whole text.
 */
module TwoPass {
  import opened Lexer
  import opened Trimming
  import opened Statements
  import opened Classifier

  function Words(items: seq<Item>): seq<string> {
    if items == [] then []
    else (if items[0].Word? then [items[0].text] else []) + Words(items[1..])
  }

  /** The words of each statement of a one-pass scan; the last group is still open. */
  function Groups(items: seq<Item>): (gs: seq<seq<string>>)
    ensures |gs| > 0
  {
    if items == [] then [[]]
    else
      var gs := Groups(items[1..]);
      match items[0]
      case Semicolon => [[]] + gs
      case Word(text) => [[text] + gs[0]] + gs[1..]
  }

  /** The significant words of a statement that is scanned on its own. */
  function WordsOf(stmt: string): seq<string> {
    Words(Scan(stmt, 0, 0))
  }

  function DropEmpty(gs: seq<seq<string>>): seq<seq<string>> {
    if gs == [] then []
    else (if gs[0] == [] then [] else [gs[0]]) + DropEmpty(gs[1..])
  }

  function MapWords(stmts: seq<string>): seq<seq<string>> {
    if stmts == [] then [] else [WordsOf(stmts[0])] + MapWords(stmts[1..])
  }

  /** The one-pass specification of ReadOnly: every statement of the token stream reads. */
  predicate AllRead(gs: seq<seq<string>>) {
    forall i :: 0 <= i < |gs| ==> Verdict(gs[i]) == Read
  }

  predicate IsReadOnly(sql: string) {
    AllRead(Groups(Scan(sql, 0, 0)))
  }

  // ---- Token lists ----

  lemma {:induction false} WordsAppend(a: seq<Item>, b: seq<Item>)
    ensures Words(a + b) == Words(a) + Words(b)
  {
    if a == [] {
      assert a + b == b;
    } else {
      assert (a + b)[1..] == a[1..] + b;
      WordsAppend(a[1..], b);
    }
  }

  lemma {:induction false} GroupsAppend(a: seq<Item>, b: seq<Item>)
    requires Semicolon !in a
    ensures Groups(a + b) == [Words(a) + Groups(b)[0]] + Groups(b)[1..]
  {
    if a == [] {
      assert a + b == b;
      assert Words(a) + Groups(b)[0] == Groups(b)[0];
      assert Groups(b) == [Groups(b)[0]] + Groups(b)[1..];
    } else {
      assert a[0].Word?;
      assert (a + b)[1..] == a[1..] + b;
      GroupsAppend(a[1..], b);
      assert [a[0].text] + (Words(a[1..]) + Groups(b)[0]) == [a[0].text] + Words(a[1..]) + Groups(b)[0];
    }
  }

  /** The first statement of a token stream and the rest of it. */
  lemma GroupsSplit(a: seq<Item>, b: seq<Item>)
    requires Semicolon !in a
    ensures Groups(a) == [Words(a)]
    ensures Groups(a + ([Semicolon] + b)) == [Words(a)] + Groups(b)
  {
    GroupsAppend(a, []);
    assert a + [] == a;
    GroupsAppend(a, [Semicolon] + b);
    assert ([Semicolon] + b)[1..] == b;
    assert Groups([Semicolon] + b) == [[]] + Groups(b);
    assert Words(a) + [] == Words(a);
  }

  lemma {:induction false} NoSemicolon(src: string, w: nat, p: nat)
    requires w <= p <= |src| && StatementEnd(src, p) == |src|
    ensures Semicolon !in Scan(src, w, p)
    decreases |src| - p
  {
    if p < |src| {
      StepEmitsWords(src, w, p);
      hide Step, NextPos, IsSeparator;
      NoSemicolon(src, Step(src, w, p).word, NextPos(src, p));
    }
  }

  lemma StepEmitsWords(src: string, w: nat, p: nat)
    requires w <= p < |src| && !IsSeparator(src, p)
    ensures Semicolon !in Step(src, w, p).items
  {
    hide SkipLen;
  }

  // ---- Trimming ----

  /** Trimming removes no token, and keeps how the text ends unless a line comment loses its newline. */
  lemma ScanTrim(x: string)
    ensures Scan(Trim(x), 0, 0) == Scan(x, 0, 0)
    ensures StatementEnd(x, 0) == |x| ==> StatementEnd(Trim(x), 0) == |Trim(x)|
    ensures Ends(x, 0) == Inside <==> Ends(Trim(x), 0) == Inside
  {
    hide Scan, StatementEnd, Ends, Trim;
    var lo, hi := TrimIsSlice(x);
    var y := x[lo..];
    LeadingBlanks(x, 0, lo);
    assert StartsToken(x, lo);
    ScanDrop(x, y, lo, lo, lo);
    EndDrop(x, y, lo, lo);
    var t := y[..hi - lo];
    assert t == x[lo..hi] == Trim(x);
    forall i | |t| <= i < |y| ensures IsBlank(y[i]) {
      assert y[i] == x[lo + i];
    }
    TrailingBlanks(y, t, 0, 0);
  }

  // ---- The agreement ----

  /** The statements of the one-pass scan after the one that starts at s. */
  function GroupsAfter(src: string, s: nat): seq<seq<string>>
    requires s <= |src|
  {
    var e := StatementEnd(src, s);
    if e < |src| then Groups(Scan(src, e + 1, e + 1)) else []
  }

  /** One statement of the one-pass scan, read again from its trimmed piece. */
  lemma StatementAgreement(src: string, s: nat)
    requires s <= |src| && StartsToken(src, s)
    ensures Groups(Scan(src, s, s)) == [WordsOf(Statement(src, s))] + GroupsAfter(src, s)
  {
    hide Scan, StatementEnd, Ends, Groups, Words, Trim;
    var e := StatementEnd(src, s);
    var u := src[..e];
    var x := src[s..e];
    ScanCutAtEnd(src, u, s, s);
    NoSemicolon(u, s, s);
    assert x == u[s..];
    ScanDrop(u, x, s, s, s);
    ScanTrim(x);
    if e < |src| {
      GroupsSplit(Scan(u, s, s), Scan(src, e + 1, e + 1));
    } else {
      GroupsSplit(Scan(u, s, s), []);
      assert Scan(u, s, s) + [] == Scan(u, s, s);
    }
  }

  /** A piece that was blank has no words, so leaving it out loses nothing. */
  lemma FirstPiece(t: string, rest: seq<string>)
    ensures DropEmpty(MapWords(Nonempty(t) + rest)) == DropEmpty([WordsOf(t)] + MapWords(rest))
  {
    if t == "" {
      assert Nonempty(t) + rest == rest;
      assert ([WordsOf(t)] + MapWords(rest))[1..] == MapWords(rest);
      assert [] + DropEmpty(MapWords(rest)) == DropEmpty(MapWords(rest));
    } else {
      assert (Nonempty(t) + rest)[1..] == rest;
    }
  }

  lemma DropEmptyTail(g: seq<string>, a: seq<seq<string>>, b: seq<seq<string>>)
    requires DropEmpty(a) == DropEmpty(b)
    ensures DropEmpty([g] + a) == DropEmpty([g] + b)
  {
    assert ([g] + a)[1..] == a && ([g] + b)[1..] == b;
  }

  lemma PiecesStep(src: string, s: nat)
    requires s <= |src| && StartsToken(src, s)
    requires DropEmpty(MapWords(Rest(src, s))) == DropEmpty(GroupsAfter(src, s))
    ensures DropEmpty(MapWords(Pieces(src, s))) == DropEmpty(Groups(Scan(src, s, s)))
  {
    hide *;
    PiecesUnfold(src, s);
    StatementAgreement(src, s);
    FirstPiece(Statement(src, s), Rest(src, s));
    DropEmptyTail(WordsOf(Statement(src, s)), MapWords(Rest(src, s)), GroupsAfter(src, s));
  }

  lemma {:induction false} PiecesAgreement(src: string, s: nat)
    requires s <= |src| && StartsToken(src, s)
    ensures DropEmpty(MapWords(Pieces(src, s))) == DropEmpty(Groups(Scan(src, s, s)))
    decreases |src| - s
  {
    hide Scan, StatementEnd, Statement, Groups, Pieces;
    if StatementEnd(src, s) < |src| {
      PiecesAgreement(src, StatementEnd(src, s) + 1);
    }
    PiecesStep(src, s);
  }

  /** Split and re-scan finds the words of the one-pass lexer, statement by statement. */
  lemma TwoPassAgreement(sql: string)
    ensures DropEmpty(MapWords(Pieces(sql, 0))) == DropEmpty(Groups(Scan(sql, 0, 0)))
  {
    PiecesAgreement(sql, 0);
  }

  lemma {:induction false} AllReadDropEmpty(gs: seq<seq<string>>)
    ensures AllRead(gs) <==> AllRead(DropEmpty(gs))
  {
    hide Verdict;
    if gs != [] {
      AllReadDropEmpty(gs[1..]);
      assert AllRead(gs) <==> Verdict(gs[0]) == Read && AllRead(gs[1..]) by { AllReadCons(gs[0], gs[1..]); assert gs == [gs[0]] + gs[1..]; }
      AllReadCons(gs[0], DropEmpty(gs[1..]));
      assert Verdict([]) == Read by { EmptyReads(); }
      assert [] + DropEmpty(gs[1..]) == DropEmpty(gs[1..]);
    }
  }

  lemma NothingIsRead()
    ensures AllRead(MapWords([]))
  {
  }

  lemma EmptyReads()
    ensures Verdict([]) == Read
  {
  }

  lemma AllReadCons(g: seq<string>, gs: seq<seq<string>>)
    ensures AllRead([g] + gs) <==> Verdict(g) == Read && AllRead(gs)
  {
    hide Verdict;
    if AllRead([g] + gs) {
      assert ([g] + gs)[0] == g;
      forall i | 0 <= i < |gs| ensures Verdict(gs[i]) == Read {
        assert ([g] + gs)[i + 1] == gs[i];
      }
    }
  }

  /** The verdict on the pieces, as the source computes it, is the one-pass verdict. */
  lemma PiecewiseVerdict(sql: string)
    ensures AllRead(MapWords(Pieces(sql, 0))) <==> IsReadOnly(sql)
  {
    TwoPassAgreement(sql);
    AllReadDropEmpty(MapWords(Pieces(sql, 0)));
    AllReadDropEmpty(Groups(Scan(sql, 0, 0)));
  }

  /** A text that passes as read-only has no data-modifying word outside its literals and comments. */
  lemma ReadOnlyHasNoWriteWord(sql: string, w: string)
    requires IsReadOnly(sql) && Word(w) in Scan(sql, 0, 0)
    ensures !IsWriteKeyword(w)
  {
    var gs := Groups(Scan(sql, 0, 0));
    var i := WordIsInAGroup(Scan(sql, 0, 0), w);
    if IsWriteKeyword(w) {
      WriteWordMeansWrite(gs[i], w);
    }
  }

  lemma {:induction false} WordIsInAGroup(items: seq<Item>, w: string) returns (i: nat)
    requires Word(w) in items
    ensures i < |Groups(items)| && w in Groups(items)[i]
  {
    if items[0] == Word(w) {
      i := 0;
    } else {
      assert Word(w) in items[1..];
      i := WordIsInAGroup(items[1..], w);
      if items[0] == Semicolon {
        i := i + 1;
      }
    }
  }

  // ---- Texts of one word ----

  lemma PlainByte(s: string, w: nat, p: nat)
    requires w <= p < |s| && forall c :: c in s ==> IsWordByte(c)
    ensures Step(s, w, p) == Advance([], w, p + 1)
  {
    assert s[p] in s;
    if p + 1 < |s| { assert s[p + 1] in s; }
    assert Opens(s, p).None?;
    hide Opens, Closes;
  }

  lemma {:induction false} PlainWordFrom(s: string, p: nat)
    requires p <= |s| && s != "" && forall c :: c in s ==> IsWordByte(c)
    ensures Scan(s, 0, p) == [Word(s)]
    decreases |s| - p
  {
    hide Scan, Step, IsWordByte;
    if p == |s| {
      AtTheEnd(s, 0);
      assert s[0..|s|] == s;
    } else {
      PlainByte(s, 0, p);
      ScanOne(s, 0, p);
      PlainWordFrom(s, p + 1);
      assert [] + Scan(s, 0, p + 1) == Scan(s, 0, p + 1);
    }
  }

  /** A text of word bytes alone is one statement of one word. */
  lemma WordIsStatement(s: string)
    requires s != "" && forall c :: c in s ==> IsWordByte(c)
    ensures IsReadOnly(s) <==> Verdict([s]) == Read
  {
    hide Scan, Verdict, IsWordByte;
    PlainWordFrom(s, 0);
    assert [Word(s)][1..] == [] && [s] + [] == [s];
    assert Groups([Word(s)]) == [[s]] && [[s]][0] == [s];
  }

  lemma BeginReads()
    ensures IsReadOnly("BEGIN")
  {
    hide IsReadOnly, Verdict;
    WordIsStatement("BEGIN");
    assert Lower("BEGIN") == "begin";
    BeginIsRead("BEGIN");
  }

  lemma BeginIsRead(w: string)
    requires Lower(w) == "begin"
    ensures Verdict([w]) == Read
  {
    hide IsExplainOption;
    assert Body([w]) == [w];
    assert forall i :: 0 <= i < |[w]| ==> !IsHarmful(w, [w][i]);
  }
}

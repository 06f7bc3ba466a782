/**
 How Split behaves on composed texts: joining two texts with a semicolon splits
 into the pieces of both exactly when the first one ends outside every construct,
 and re-splitting the joined pieces of a text gives the same pieces back.
 */
module Compose {
  import opened Lexer
  import opened Trimming
  import opened Statements
  import opened Classifier
  import opened TwoPass

  // ---- A semicolon behind a text ----

  /** The first statement end of a text, when the text is continued with a semicolon. */
  lemma {:induction false} EndBeforeSemicolon(src: string, a: string, p: nat)
    requires p <= |a| < |src| && a == src[..|a|] && src[|a|] == ';'
    ensures StatementEnd(a, p) < |a| ==> StatementEnd(src, p) == StatementEnd(a, p)
    ensures StatementEnd(a, p) == |a| && Ends(a, p) == Outside ==> StatementEnd(src, p) == |a|
    ensures StatementEnd(a, p) == |a| && Ends(a, p) != Outside ==> StatementEnd(src, p) > |a|
    decreases |a| - p
  {
    if p == |a| {
      assert IsSeparator(src, p) by { SemicolonSeparates(src, p); }
    } else {
      hide NextPos, EndAt, IsSeparator;
      StepCut(src, a, p, p);
      EndAtSkipsAll(src, p);
      EndAtSkipsAll(a, p);
      if NextPos(src, p) <= |a| {
        EndBeforeSemicolon(src, a, NextPos(src, p));
      }
    }
  }

  lemma SemicolonSeparates(src: string, p: nat)
    requires p < |src| && src[p] == ';'
    ensures IsSeparator(src, p)
  {
  }

  /** Ends only depends on the last statement. */
  lemma {:induction false} EndsOfLastStatement(a: string, p: nat)
    requires p <= |a| && StatementEnd(a, p) < |a|
    ensures Ends(a, p) == Ends(a, StatementEnd(a, p) + 1)
    decreases |a| - p
  {
    hide NextPos, EndAt, IsSeparator;
    EndAtSkipsAll(a, p);
    if !IsSeparator(a, p) {
      EndsOfLastStatement(a, NextPos(a, p));
    }
  }

  /** Statements that end inside a do not notice that the text goes on. */
  lemma SamePiece(src: string, a: string, s: nat)
    requires s <= |a| < |src| && a == src[..|a|] && src[|a|] == ';'
    requires StatementEnd(a, s) < |a| || Ends(a, s) == Outside
    ensures StatementEnd(src, s) == StatementEnd(a, s) && Statement(src, s) == Statement(a, s)
  {
    hide StatementEnd, Ends, Trim;
    EndBeforeSemicolon(src, a, s);
    assert a[s..StatementEnd(a, s)] == src[s..StatementEnd(a, s)];
  }

  lemma AfterSemicolon(src: string, a: string, b: string)
    requires src == a + ";" + b
    ensures Pieces(src, |a| + 1) == Pieces(b, 0)
  {
    hide Pieces;
    assert src[|a| + 1..] == b;
    assert src[|a|] == ';';
    PiecesDrop(src, b, |a| + 1, |a| + 1);
  }

  lemma {:induction false} PiecesCompose(src: string, a: string, b: string, s: nat)
    requires s <= |a| && src == a + ";" + b && Ends(a, s) == Outside
    ensures Pieces(src, s) == Pieces(a, s) + Pieces(b, 0)
    decreases |a| - s
  {
    hide Pieces, StatementEnd, Statement, Nonempty, Ends;
    assert a == src[..|a|];
    assert src[|a|] == ';';
    SamePiece(src, a, s);
    AfterSemicolon(src, a, b);
    if StatementEnd(a, s) < |a| {
      EndsOfLastStatement(a, s);
      PiecesCompose(src, a, b, StatementEnd(a, s) + 1);
    }
    assert Rest(src, s) == Rest(a, s) + Pieces(b, 0);
    JoinFirst(src, a, s, Pieces(b, 0));
  }

  lemma JoinFirst(src: string, a: string, s: nat, more: seq<string>)
    requires s <= |a| && s <= |src| && Statement(src, s) == Statement(a, s)
    ensures Rest(src, s) == Rest(a, s) + more <==> Pieces(src, s) == Pieces(a, s) + more
  {
    hide *;
    PiecesUnfold(src, s);
    PiecesUnfold(a, s);
    var t := Nonempty(Statement(a, s));
    assert t + Rest(a, s) + more == t + (Rest(a, s) + more);
    assert (t + Rest(src, s))[|t|..] == Rest(src, s);
    assert (t + (Rest(a, s) + more))[|t|..] == Rest(a, s) + more;
  }

  // ---- The converse: an open construct swallows the semicolon ----

  lemma {:induction false} TrimLeftAppend(x: string, y: string)
    requires TrimLeft(x) != "" && y != "" && y[0] < '\U{80}'
    ensures TrimLeft(x + y) == TrimLeft(x) + y
    decreases |x|
  {
    var n := LeadingSpace(x);
    assert LeadingSpace(x + y) == n;
    if n > 0 {
      assert (x + y)[n..] == x[n..] + y;
      TrimLeftAppend(x[n..], y);
    }
  }

  /** Text that is swallowed makes the trimmed piece longer. */
  lemma SwallowedIsLonger(x: string, y: string)
    requires TrimLeft(x) != "" && y != "" && y[0] == ';'
    ensures |Trim(x + y)| > |Trim(x)|
  {
    TrimLeftAppend(x, y);
    var u := TrimLeft(x);
    var k := TrimRightIsPrefix(u);
    var h := TrimRightIsPrefix(u + y);
    assert (u + y)[|u|] == ';';
    assert !IsBlank(';');
  }

  lemma OpenTextIsNotBlank(a: string, s: nat)
    requires s <= |a| && Ends(a, s) != Outside
    ensures TrimLeft(a[s..]) != "" && Trim(a[s..]) != ""
  {
    var x := a[s..];
    var lo, hi := TrimIsSlice(x);
    if Trim(x) == "" {
      assert forall i :: s <= i < |a| ==> a[i] == x[i - s];
      assert Blanks(a, s, |a|);
      LeadingBlanks(a, s, |a|);
    }
  }

  lemma SwallowedPiece(src: string, a: string, s: nat)
    requires s <= |a| < |src| && a == src[..|a|] && src[|a|] == ';'
    requires StatementEnd(a, s) == |a| && Ends(a, s) != Outside
    ensures Statement(a, s) != "" && Statement(src, s) != "" && Statement(src, s) != Statement(a, s)
  {
    EndBeforeSemicolon(src, a, s);
    OpenTextIsNotBlank(a, s);
    hide StatementEnd, Ends, Trim, TrimLeft;
    var e := StatementEnd(src, s);
    var y := src[|a|..e];
    assert a[s..|a|] == a[s..];
    assert src[s..e] == a[s..] + y;
    SwallowedIsLonger(a[s..], y);
  }

  lemma {:induction false} PiecesDoNotCompose(src: string, a: string, b: string, s: nat)
    requires s <= |a| && src == a + ";" + b && Ends(a, s) != Outside
    ensures Pieces(src, s) != Pieces(a, s) + Pieces(b, 0)
    decreases |a| - s
  {
    hide Pieces, StatementEnd, Statement, Ends;
    assert a == src[..|a|];
    assert src[|a|] == ';';
    if StatementEnd(a, s) < |a| {
      SamePiece(src, a, s);
      EndsOfLastStatement(a, s);
      PiecesDoNotCompose(src, a, b, StatementEnd(a, s) + 1);
      JoinFirst(src, a, s, Pieces(b, 0));
    } else {
      SwallowedPiece(src, a, s);
      PiecesUnfold(src, s);
      PiecesUnfold(a, s);
      assert Pieces(src, s)[0] != (Pieces(a, s) + Pieces(b, 0))[0];
    }
  }

  /** Split distributes over a semicolon exactly when the text before it is closed. */
  lemma SplitComposes(a: string, b: string)
    ensures Pieces(a + ";" + b, 0) == Pieces(a, 0) + Pieces(b, 0) <==> Ends(a, 0) == Outside
  {
    if Ends(a, 0) == Outside {
      PiecesCompose(a + ";" + b, a, b, 0);
    } else {
      PiecesDoNotCompose(a + ";" + b, a, b, 0);
    }
  }

  lemma {:induction false} AllReadAppend(p: seq<string>, q: seq<string>)
    ensures AllRead(MapWords(p + q)) <==> AllRead(MapWords(p)) && AllRead(MapWords(q))
  {
    hide AllRead, WordsOf, Verdict;
    if p == [] {
      assert p + q == q;
      assert AllRead(MapWords([])) by { NothingIsRead(); }
    } else {
      assert (p + q)[1..] == p[1..] + q;
      AllReadAppend(p[1..], q);
      AllReadCons(WordsOf(p[0]), MapWords(p[1..] + q));
      AllReadCons(WordsOf(p[0]), MapWords(p[1..]));
    }
  }

  /** The verdict on a closed text followed by another is the conjunction of both verdicts. */
  lemma VerdictComposes(a: string, b: string)
    requires Ends(a, 0) == Outside
    ensures IsReadOnly(a + ";" + b) <==> IsReadOnly(a) && IsReadOnly(b)
  {
    hide *;
    SplitComposes(a, b);
    PiecewiseVerdict(a);
    PiecewiseVerdict(b);
    PiecewiseVerdict(a + ";" + b);
    AllReadAppend(Pieces(a, 0), Pieces(b, 0));
  }

  // ---- When a verdict composes ----

  /** Bytes that can close no construct. */
  predicate IsPlain(c: char) {
    IsWordByte(c) || c == ';'
  }

  predicate PlainFrom(src: string, k: nat) {
    forall i :: k <= i < |src| ==> IsPlain(src[i])
  }

  lemma SwallowsPlain(src: string, k: nat, p: nat)
    requires p < k < |src| && PlainFrom(src, k) && NextPos(src, p) > k
    ensures NextPos(src, p) == |src|
  {
    if Opens(src, p).Some? {
      var c := Opens(src, p).value;
      ClosesAtMark(c, src, p);
      hide Opens;
      assert NewlineFrom(src[p..], 0).Some? ==>
          src[p..][NewlineFrom(src[p..], 0).value] == src[p + NewlineFrom(src[p..], 0).value];
    }
  }

  /** What follows an open construct only adds to the token stream, and adds nothing when it closes nothing. */
  lemma {:induction false} OpenScan(src: string, a: string, w: nat, p: nat) returns (more: seq<Item>)
    requires w <= p <= |a| < |src| && a == src[..|a|] && src[|a|] == ';' && Ends(a, p) != Outside
    ensures Scan(src, w, p) == Scan(a, w, p) + more
    ensures PlainFrom(src, |a|) ==> more == []
    decreases |a| - p
  {
    hide Step, NextPos, EndAt, IsSeparator, PlainFrom;
    StepCut(src, a, w, p);
    EndAtSkipsAll(src, p);
    if NextPos(src, p) > |a| {
      var q := NextPos(src, p);
      more := Scan(src, q, q);
      assert Scan(a, |a|, |a|) == [] && Pending(src, w, p) + [] == Pending(src, w, p);
      if PlainFrom(src, |a|) {
        SwallowsPlain(src, |a|, p);
      }
    } else {
      var s := Step(src, w, p);
      more := OpenScan(src, a, s.word, s.pos);
      assert s.items + (Scan(a, s.word, s.pos) + more) == s.items + Scan(a, s.word, s.pos) + more;
    }
  }

  /** Further tokens never make a refused token stream acceptable. */
  lemma {:induction false} RefusalSurvives(x: seq<Item>, y: seq<Item>)
    ensures var g, h := Groups(x), Groups(x + y);
            && (AllRead(h) ==> AllRead(g))
            && |g| <= |h| && g[0] <= h[0]
    ensures AllRead(Groups(x + y)[1..]) ==> AllRead(Groups(x)[1..])
    decreases |x|
  {
    hide AllRead, Verdict;
    if x == [] {
      NoWordsRead(Groups(x + y));
    } else {
      assert (x + y)[1..] == x[1..] + y && (x + y)[0] == x[0];
      RefusalSurvives(x[1..], y);
      var g, h := Groups(x[1..]), Groups(x[1..] + y);
      if x[0] == Semicolon {
        AllReadCons([], g);
        AllReadCons([], h);
        assert ([[]] + g)[1..] == g && ([[]] + h)[1..] == h;
      } else {
        var t := x[0].text;
        assert [[t] + g[0]] + g[1..] == Groups(x) && [[t] + h[0]] + h[1..] == Groups(x + y);
        AllReadCons([t] + g[0], g[1..]);
        AllReadCons([t] + h[0], h[1..]);
        assert Groups(x)[1..] == g[1..] && Groups(x + y)[1..] == h[1..];
        LongerIsNoBetter([t] + g[0], [t] + h[0]);
      }
    }
  }

  lemma NoWordsRead(h: seq<seq<string>>)
    ensures Groups([]) == [[]] && AllRead([[]]) && AllRead([[]][1..])
  {
  }

  lemma LongerIsNoBetter(g: seq<string>, h: seq<string>)
    requires g <= h
    ensures Verdict(h) == Read ==> Verdict(g) == Read
  {
    hide Verdict;
    assert h == g + h[|g|..];
    if Verdict(g) == Write {
      WriteSurvives(g, h[|g|..]);
    }
  }

  /** A text that ends inside a construct swallows a write that follows it. */
  lemma SwallowedWrite(a: string)
    requires Ends(a, 0) != Outside
    ensures IsReadOnly(a + ";" + "delete") == IsReadOnly(a) && !IsReadOnly("delete")
  {
    var src := a + ";" + "delete";
    assert a == src[..|a|] && PlainFrom(src, |a|);
    DeleteIsRefused();
    hide Ends, Scan, Groups, AllRead, PlainFrom;
    var more := OpenScan(src, a, 0, 0);
    assert Scan(a, 0, 0) + [] == Scan(a, 0, 0);
  }

  lemma DeleteIsRefused()
    ensures !IsReadOnly("delete")
  {
    hide IsReadOnly, IsWriteKeyword, Verdict;
    DeleteIsWrite();
    WordIsStatement("delete");
    assert ["delete"][0] == "delete";
    WriteWordMeansWrite(["delete"], "delete");
  }

  lemma DeleteIsWrite()
    ensures IsWriteKeyword("delete")
  {
    assert Lower("delete") == "delete";
  }

  /**
   The verdict on a text followed by another is the conjunction of both verdicts, for
   every text that may follow, exactly when the first one is closed or refused already.
   */
  lemma VerdictComposesExactly(a: string)
    ensures (forall b: string :: IsReadOnly(a + ";" + b) <==> IsReadOnly(a) && IsReadOnly(b)) <==>
            (Ends(a, 0) == Outside || !IsReadOnly(a))
  {
    hide *;
    if Ends(a, 0) == Outside {
      forall b: string ensures IsReadOnly(a + ";" + b) <==> IsReadOnly(a) && IsReadOnly(b) {
        VerdictComposes(a, b);
      }
    } else if IsReadOnly(a) {
      SwallowedWrite(a);
      assert !(IsReadOnly(a + ";" + "delete") <==> IsReadOnly(a) && IsReadOnly("delete"));
    } else {
      forall b: string ensures !IsReadOnly(a + ";" + b) {
        RefusedStays(a, b);
      }
    }
  }

  lemma RefusedStays(a: string, b: string)
    requires Ends(a, 0) != Outside && !IsReadOnly(a)
    ensures !IsReadOnly(a + ";" + b)
  {
    hide Ends, Scan, Groups, AllRead;
    var src := a + ";" + b;
    assert a == src[..|a|];
    var more := OpenScan(src, a, 0, 0);
    RefusalSurvives(Scan(a, 0, 0), more);
  }

  // ---- A newline behind a text ----

  lemma {:induction false} NewlineIsFound(rest: string, i: nat, j: nat)
    requires i <= j < |rest| && IsNewline(rest[j])
    ensures NewlineFrom(rest, i).Some?
    decreases j - i
  {
    if i < j && !IsNewline(rest[i]) {
      NewlineIsFound(rest, i + 1, j);
    }
  }

  lemma NoOpenLineComment(src: string, p: nat)
    requires p < |src| && src[|src| - 1] == '\n'
    ensures EndAt(src, p) != InLineComment
  {
    var rest := src[p..];
    NewlineIsFound(rest, 0, |rest| - 1);
    hide Opens;
  }

  lemma {:induction false} EndsAfterNewline(src: string, p: nat)
    requires p <= |src| && |src| > 0 && src[|src| - 1] == '\n'
    ensures Ends(src, p) != InLineComment
    decreases |src| - p
  {
    hide NextPos, EndAt;
    if p < |src| {
      NoOpenLineComment(src, p);
      EndsAfterNewline(src, NextPos(src, p));
    }
  }

  lemma {:induction false} EndBeforeNewline(src: string, a: string, p: nat)
    requires p <= |a| && src == a + "\n"
    ensures StatementEnd(src, p) == if StatementEnd(a, p) < |a| then StatementEnd(a, p) else |src|
    decreases |a| - p
  {
    assert a == src[..|a|];
    if p == |a| {
      BlankStep(src, p, p);
    } else {
      hide NextPos, EndAt, IsSeparator;
      StepCut(src, a, p, p);
      EndAtSkipsAll(src, p);
      if NextPos(src, p) <= |a| {
        EndBeforeNewline(src, a, NextPos(src, p));
      }
    }
  }

  lemma StatementBeforeNewline(src: string, a: string, s: nat)
    requires s <= |a| && src == a + "\n"
    ensures Statement(src, s) == Statement(a, s)
  {
    hide StatementEnd, Trim;
    EndBeforeNewline(src, a, s);
    var e := StatementEnd(a, s);
    if e < |a| {
      assert src[s..e] == a[s..e];
    } else {
      assert src[s..|src|] == a[s..e] + "\n";
      TrimNewline(a[s..e]);
    }
  }

  lemma {:induction false} PiecesBeforeNewline(src: string, a: string, s: nat)
    requires s <= |a| && src == a + "\n"
    ensures Pieces(src, s) == Pieces(a, s)
    decreases |a| - s
  {
    hide Pieces, StatementEnd, Statement, Nonempty;
    EndBeforeNewline(src, a, s);
    StatementBeforeNewline(src, a, s);
    if StatementEnd(a, s) < |a| {
      PiecesBeforeNewline(src, a, StatementEnd(a, s) + 1);
    }
    JoinFirst(src, a, s, []);
    assert Rest(a, s) + [] == Rest(a, s);
    assert Pieces(a, s) + [] == Pieces(a, s);
  }

  /** A newline closes a line comment and nothing else. */
  lemma NewlineCloses(a: string)
    ensures Pieces(a + "\n", 0) == Pieces(a, 0)
    ensures Ends(a + "\n", 0) == Outside <==> Ends(a, 0) != Inside
  {
    var src := a + "\n";
    PiecesBeforeNewline(src, a, 0);
    EndsAfterNewline(src, 0);
    assert a == src[..|a|];
    TrailingBlanks(src, a, 0, 0);
    hide Ends;
  }

  // ---- Splitting is undone by joining ----

  function Join(ps: seq<string>): string {
    if |ps| == 0 then ""
    else if |ps| == 1 then ps[0]
    else ps[0] + "\n" + ";" + Join(ps[1..])
  }

  /** A piece splits into itself, and only the last one can end in an open construct. */
  lemma PieceIsStable(src: string, s: nat)
    requires s <= |src| && StartsToken(src, s)
    ensures var t := Statement(src, s);
            && Pieces(t, 0) == Nonempty(t)
            && (StatementEnd(src, s) < |src| ==> Ends(t, 0) != Inside)
  {
    hide Scan, Ends, Trim, StatementEnd, Nonempty;
    var e := StatementEnd(src, s);
    var u := src[..e];
    var x := src[s..e];
    ScanCutAtEnd(src, u, s, s);
    assert x == u[s..];
    EndDrop(u, x, s, s);
    ScanTrim(x);
    var lo, hi := TrimIsSlice(x);
    var t := Trim(x);
    assert t[0..|t|] == t;
    PiecesUnfold(t, 0);
    assert Nonempty(t) + [] == Nonempty(t);
  }

  lemma JoinCons(t: string, ps: seq<string>)
    ensures Join([t] + ps) == if ps == [] then t else t + "\n" + ";" + Join(ps)
  {
    assert ([t] + ps)[1..] == ps;
  }

  lemma {:induction false} SplitJoinFrom(src: string, s: nat)
    requires s <= |src| && StartsToken(src, s)
    ensures Pieces(Join(Pieces(src, s)), 0) == Pieces(src, s)
    decreases |src| - s
  {
    hide Pieces, StatementEnd, Statement, Ends, Join;
    var t := Statement(src, s);
    if StatementEnd(src, s) < |src| {
      SplitJoinFrom(src, StatementEnd(src, s) + 1);
    } else {
      EmptyPieces();
    }
    PieceIsStable(src, s);
    if Rest(src, s) != [] && t != "" {
      NewlineCloses(t);
      SplitComposes(t + "\n", Join(Rest(src, s)));
    }
    PiecesUnfold(src, s);
    JoinCons(t, Rest(src, s));
    assert t == "" ==> Nonempty(t) + Rest(src, s) == Rest(src, s);
  }

  lemma EmptyPieces()
    ensures Join([]) == "" && Pieces("", 0) == []
  {
  }

  /** Re-splitting the joined pieces of any text gives its pieces back. */
  lemma SplitJoinRoundTrip(sql: string)
    ensures Pieces(Join(Pieces(sql, 0)), 0) == Pieces(sql, 0)
  {
    SplitJoinFrom(sql, 0);
  }
}

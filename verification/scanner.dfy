/**
 The imperative scanner of internal/sqlscan: index loops for the spans, the two
 scanning loops over a mutable cursor, and the classifier with its early return.
 Each method is proved against the pure functions of Lexer, Statements, TwoPass
 and Classifier.
 */
module Sqlscan {
  import opened Wrappers
  import opened Lexer
  import opened Trimming
  import opened Statements
  import opened Classifier
  import opened TwoPass

  /** An unterminated construct consumes the remainder. */
  function LenOr(r: Option<nat>, rest: string): nat {
    match r
    case Some(n) => n
    case None => |rest|
  }

  method LineCommentLen(rest: string) returns (n: nat)
    ensures n == LenOr(NewlineFrom(rest, 0), rest)
  {
    n := 0;
    while n < |rest| && !IsNewline(rest[n])
      invariant n <= |rest|
      invariant NewlineFrom(rest, 0) == NewlineFrom(rest, n)
    {
      n := n + 1;
    }
  }

  method BlockCommentLen(rest: string) returns (n: nat)
    ensures n == LenOr(BlockEnd(rest, 0, 0), rest)
  {
    var depth := 0;
    var i := 0;
    while i < |rest|
      invariant i <= |rest|
      invariant BlockEnd(rest, 0, 0) == BlockEnd(rest, i, depth)
    {
      if Pair(rest, i, '/', '*') {
        depth := depth + 1;
        i := i + 2;
      } else if Pair(rest, i, '*', '/') {
        depth := depth - 1;
        i := i + 2;
        if depth == 0 {
          return i;
        }
      } else {
        i := i + 1;
      }
    }
    n := |rest|;
  }

  /** singleQuoteLen and quotedIdentLen differ only in the quote byte. */
  method QuoteLen(rest: string, q: char) returns (n: nat)
    ensures n == LenOr(QuoteEnd(rest, 1, q), rest)
  {
    var i := 1;
    while i < |rest|
      invariant 1 <= i
      invariant QuoteEnd(rest, 1, q) == QuoteEnd(rest, i, q)
    {
      if rest[i] != q {
        i := i + 1;
        continue;
      }
      if i + 1 < |rest| && rest[i + 1] == q {
        i := i + 2;
        continue;
      }
      return i + 1;
    }
    n := |rest|;
  }

  method EscapeStringLen(rest: string) returns (n: nat)
    ensures n == LenOr(EscapeEnd(rest, 1), rest)
  {
    var i := 1;
    while i < |rest|
      invariant 1 <= i
      invariant EscapeEnd(rest, 1) == EscapeEnd(rest, i)
    {
      if rest[i] == '\\' {
        i := i + 1;
      } else if rest[i] == '\'' {
        if i + 1 < |rest| && rest[i + 1] == '\'' {
          i := i + 2;
          continue;
        }
        return i + 1;
      }
      i := i + 1;
    }
    n := |rest|;
  }

  method DollarTag(rest: string) returns (tag: Option<string>)
    ensures tag == if |rest| > 0 && rest[0] == '$' then TagFrom(rest, 1) else None
  {
    if |rest| == 0 || rest[0] != '$' {
      return None;
    }
    var i := 1;
    while i < |rest|
      invariant 1 <= i <= |rest|
      invariant TagFrom(rest, 1) == TagFrom(rest, i)
    {
      var c := rest[i];
      if c == '$' {
        return Some(rest[..i + 1]);
      }
      if !IsWordByte(c) || (i == 1 && '0' <= c <= '9') {
        return None;
      }
      i := i + 1;
    }
    tag := None;
  }

  method DollarQuoteLen(rest: string, tag: string) returns (n: nat)
    requires 0 < |tag| <= |rest|
    ensures n == LenOr(Plus(IndexFrom(rest, tag, |tag|), |tag|), rest)
  {
    hide IndexFrom;
    var i := |tag|;
    while i + |tag| <= |rest| && rest[i..i + |tag|] != tag
      invariant |tag| <= i <= |rest|
      invariant IndexFrom(rest, tag, |tag|) == IndexFrom(rest, tag, i)
    {
      IndexStep(rest, tag, i);
      i := i + 1;
    }
    IndexStep(rest, tag, i);
    n := if i + |tag| <= |rest| then i + |tag| else |rest|;
  }

  lemma IndexStep(rest: string, tag: string, i: nat)
    requires tag != ""
    ensures IndexFrom(rest, tag, i) ==
            if i + |tag| > |rest| then None
            else if rest[i..i + |tag|] == tag then Some(i)
            else IndexFrom(rest, tag, i + 1)
  {
  }

  class Scanner {
    const src: string
    var pos: nat

    constructor (src: string)
      ensures this.src == src && pos == 0
    {
      this.src := src;
      pos := 0;
    }

    predicate AtTokenStart()
      requires pos <= |src|
      reads this
    {
      pos == 0 || !IsWordByte(src[pos - 1])
    }

    method SkippableLen() returns (n: nat)
      requires pos < |src|
      ensures n == SkipLen(src, pos)
    {
      var rest := src[pos..];
      if Pair(rest, 0, '-', '-') {
        n := LineCommentLen(rest);
      } else if Pair(rest, 0, '/', '*') {
        n := BlockCommentLen(rest);
      } else if rest[0] == '\'' {
        n := QuoteLen(rest, '\'');
      } else if rest[0] == '"' {
        n := QuoteLen(rest, '"');
      } else if (rest[0] == 'e' || rest[0] == 'E') && |rest| > 1 && rest[1] == '\'' && AtTokenStart() {
        n := EscapeStringLen(rest[1..]);
        n := 1 + n;
      } else {
        if AtTokenStart() {
          var tag := DollarTag(rest);
          if tag.Some? {
            n := DollarQuoteLen(rest, tag.value);
            return;
          }
        }
        n := 0;
      }
    }
  }

  lemma PiecesAt(src: string, s: nat, e: nat)
    requires s <= e <= |src| && StatementEnd(src, s) == e
    ensures Pieces(src, s) == Nonempty(Trim(src[s..e])) + if e < |src| then Pieces(src, e + 1) else []
  {
    hide StatementEnd, Nonempty, Trim, Pieces;
    PiecesUnfold(src, s);
  }

  lemma EndAdvance(src: string, p: nat)
    requires p < |src|
    ensures SkipLen(src, p) == 0 && src[p] == ';' ==> StatementEnd(src, p) == p
    ensures !(SkipLen(src, p) == 0 && src[p] == ';') ==>
            StatementEnd(src, p) == StatementEnd(src, p + if SkipLen(src, p) > 1 then SkipLen(src, p) else 1)
  {
    hide SkipLen;
  }

  lemma AtEnd(src: string)
    ensures StatementEnd(src, |src|) == |src|
  {
  }

  lemma NextPiece(stmts: seq<string>, stmt: string, more: seq<string>)
    ensures stmts + (Nonempty(stmt) + more) == (if stmt != "" then stmts + [stmt] else stmts) + more
    ensures stmts + (Nonempty(stmt) + []) == if stmt != "" then stmts + [stmt] else stmts
  {
  }

  method Split(sql: string) returns (stmts: seq<string>)
    ensures stmts == Pieces(sql, 0)
  {
    hide *;
    stmts := [];
    var start: nat := 0;
    var s := new Scanner(sql);
    while s.pos < |s.src|
      invariant s.src == sql
      invariant start <= s.pos <= |sql|
      invariant StatementEnd(sql, start) == StatementEnd(sql, s.pos)
      invariant Pieces(sql, 0) == stmts + Pieces(sql, start)
      decreases |sql| - s.pos
    {
      var n := s.SkippableLen();
      EndAdvance(sql, s.pos);
      if n == 0 && s.src[s.pos] == ';' {
        PiecesAt(sql, start, s.pos);
        var stmt := Trim(s.src[start..s.pos]);
        NextPiece(stmts, stmt, Pieces(sql, s.pos + 1));
        if stmt != "" {
          stmts := stmts + [stmt];
        }
        s.pos := s.pos + 1;
        start := s.pos;
        continue;
      }
      s.pos := s.pos + if n > 1 then n else 1;
    }
    AtEnd(sql);
    PiecesAt(sql, start, |sql|);
    assert s.src[start..] == sql[start..|sql|];
    var stmt := Trim(s.src[start..]);
    NextPiece(stmts, stmt, []);
    if stmt != "" {
      stmts := stmts + [stmt];
    }
  }

  lemma StepWords(src: string, w: nat, p: nat)
    requires w <= p < |src|
    ensures SkipLen(src, p) == 0 && IsWordByte(src[p]) ==> Statements.Step(src, w, p) == Advance([], w, p + 1)
    ensures SkipLen(src, p) > 0 || !IsWordByte(src[p]) ==>
            var a := Statements.Step(src, w, p);
            a.word == a.pos == NextPos(src, p) && Words(a.items) == Words(Pending(src, w, p))
  {
    hide SkipLen, Pending;
    WordsAppend(Pending(src, w, p), [Semicolon]);
  }

  lemma ScanUnfold(src: string, w: nat, p: nat)
    requires w <= p < |src|
    ensures var a := Statements.Step(src, w, p);
            Words(Scan(src, w, p)) == Words(a.items) + Words(Scan(src, a.word, a.pos))
  {
    hide Words, SkipLen, NextPos;
    var a := Statements.Step(src, w, p);
    WordsAppend(a.items, Scan(src, a.word, a.pos));
  }

  lemma WordsAtEnd(src: string, w: nat)
    requires w <= |src|
    ensures Words(Scan(src, w, |src|)) == if w < |src| then [src[w..]] else []
  {
    assert src[w..|src|] == src[w..];
  }

  /** A word byte yields nothing; anything else yields the pending word and moves on. */
  lemma WordsAdvance(src: string, w: nat, p: nat)
    requires w <= p < |src|
    ensures SkipLen(src, p) == 0 && IsWordByte(src[p]) ==> Words(Scan(src, w, p)) == Words(Scan(src, w, p + 1))
    ensures SkipLen(src, p) > 0 || !IsWordByte(src[p]) ==>
            var q := NextPos(src, p);
            Words(Scan(src, w, p)) == (if w < p then [src[w..p]] else []) + Words(Scan(src, q, q))
  {
    hide *;
    ScanUnfold(src, w, p);
    StepWords(src, w, p);
    PendingWords(src, w, p);
  }

  lemma PendingWords(src: string, w: nat, p: nat)
    requires w <= p <= |src|
    ensures Words([]) == [] && Words(Pending(src, w, p)) == if w < p then [src[w..p]] else []
  {
  }

  /** The iterator behind significantWords: Next yields one word and stops there. */
  class WordScanner {
    const s: Scanner
    var start: int

    ghost predicate Valid()
      reads this, s
    {
      s.pos <= |s.src| && -1 <= start <= s.pos && (start >= 0 ==> start < s.pos)
    }

    /** The words not yet yielded. */
    ghost function Remaining(): seq<string>
      reads this, s
      requires Valid()
    {
      Words(Scan(s.src, if start < 0 then s.pos else start, s.pos))
    }

    constructor (stmt: string)
      ensures Valid() && fresh(s) && Remaining() == WordsOf(stmt)
    {
      s := new Scanner(stmt);
      start := -1;
    }

    method Next() returns (w: Option<string>)
      requires Valid()
      modifies this, s
      ensures Valid()
      ensures w == None <==> old(Remaining()) == []
      ensures w.Some? ==> old(Remaining()) == [w.value] + Remaining() && w.value != ""
      ensures w == None ==> Remaining() == []
    {
      hide SkipLen, Scan, Words;
      while s.pos < |s.src|
        invariant Valid() && Remaining() == old(Remaining())
        decreases |s.src| - s.pos
      {
        var n := s.SkippableLen();
        WordsAdvance(s.src, if start < 0 then s.pos else start, s.pos);
        if n > 0 || !IsWordByte(s.src[s.pos]) {
          if start >= 0 {
            WordsAdvance(s.src, s.pos, s.pos);
            w := Some(s.src[start..s.pos]);
            start := -1;
            return;
          }
          s.pos := s.pos + if n > 0 then n else 1;
        } else {
          if start < 0 {
            start := s.pos;
          }
          s.pos := s.pos + 1;
        }
      }
      WordsAtEnd(s.src, if start < 0 then s.pos else start);
      WordsAtEnd(s.src, s.pos);
      w := None;
      if start >= 0 {
        w := Some(s.src[start..]);
        start := -1;
      }
    }
  }

  /**
   What the classifier knows after some words of all: rest is still unread, head is the
   head of the statement that runs ("" while the EXPLAIN prefix is being skipped), and
   pre are the words of the body read so far, none of them harmful.
   */
  ghost predicate Reading(all: seq<string>, rest: seq<string>, head: string, sawExplain: bool, pre: seq<string>) {
    if head == "" then pre == [] && Body(all) == if sawExplain then DropOptions(rest) else Body(rest)
    else Body(all) == pre + rest && Body(all) != [] && Body(all)[0] == head && !HasHarm(head, pre)
  }

  lemma ReadingStarts(all: seq<string>)
    ensures Reading(all, all, "", false, [])
  {
  }

  lemma ReadPrefixWord(all: seq<string>, w: string, rest: seq<string>, sawExplain: bool)
    requires Reading(all, [w] + rest, "", sawExplain, []) && w != ""
    ensures if (!sawExplain && EqualFold(w, "explain")) || (sawExplain && IsExplainOption(w))
            then Reading(all, rest, "", true, [])
            else Reading(all, [w] + rest, w, sawExplain, [])
  {
    assert ([w] + rest)[1..] == rest;
    assert [] + ([w] + rest) == [w] + rest;
  }

  lemma ReadBodyWord(all: seq<string>, w: string, rest: seq<string>, head: string, sawExplain: bool, pre: seq<string>)
    requires Reading(all, [w] + rest, head, sawExplain, pre) && head != ""
    ensures if IsWriteKeyword(w) || (StartsQuery(head) && EqualFold(w, "into"))
            then Verdict(all) == Write
            else Reading(all, rest, head, sawExplain, pre + [w])
  {
    hide Body, IsWriteKeyword, StartsQuery, EqualFold;
    assert pre + ([w] + rest) == pre + [w] + rest;
    assert (pre + ([w] + rest))[|pre|] == w;
    assert IsHarmful(head, w) <==> IsWriteKeyword(w) || (StartsQuery(head) && EqualFold(w, "into"));
  }

  lemma ReadingEnds(all: seq<string>, head: string, sawExplain: bool, pre: seq<string>)
    requires Reading(all, [], head, sawExplain, pre)
    ensures Verdict(all) == Read <==> head == "" || Lower(head) == "with" || IsReadKeyword(Lower(head)) || IsControlKeyword(Lower(head))
  {
    assert pre + [] == pre;
    assert head == "" ==> Body(all) == [];
  }

  /** The classifier loop returns Write at the first harmful word, without reading the rest. */
  method Classify(stmt: string) returns (k: Kind)
    ensures k == Verdict(WordsOf(stmt))
  {
    hide Reading, IsExplainOption, IsWriteKeyword, EqualFold, Verdict, WordsOf, Scan, Words;
    var head := "";
    var headStartsCTEOrSelect := false;
    var sawExplain := false;
    ghost var pre: seq<string> := [];
    var words := new WordScanner(stmt);
    ghost var all := words.Remaining();
    ReadingStarts(all);
    while true
      invariant words.Valid() && fresh(words) && fresh(words.s)
      invariant Reading(all, words.Remaining(), head, sawExplain, pre)
      invariant head == "" ==> pre == []
      invariant head != "" ==> headStartsCTEOrSelect == StartsQuery(head)
      decreases |words.Remaining()|
    {
      var w := words.Next();
      if w == None {
        break;
      }
      ghost var rest := words.Remaining();
      if head == "" {
        ReadPrefixWord(all, w.value, rest, sawExplain);
        if !sawExplain && EqualFold(w.value, "explain") {
          sawExplain := true;
          continue;
        }
        if sawExplain && IsExplainOption(w.value) {
          continue;
        }
        head := w.value;
        headStartsCTEOrSelect := EqualFold(w.value, "select") || EqualFold(w.value, "with");
      }
      ReadBodyWord(all, w.value, rest, head, sawExplain, pre);
      if IsWriteKeyword(w.value) {
        return Write;
      }
      if headStartsCTEOrSelect && EqualFold(w.value, "into") {
        return Write;
      }
      pre := pre + [w.value];
    }
    ReadingEnds(all, head, sawExplain, pre);
    if head == "" {
      return Read;
    }
    var h := Lower(head);
    if h == "with" {
      k := Read;
    } else if IsReadKeyword(h) || IsControlKeyword(h) {
      k := Read;
    } else {
      k := Write;
    }
  }

  method ReadOnly(sql: string) returns (ok: bool)
    ensures ok == IsReadOnly(sql)
  {
    hide *;
    var stmts := Split(sql);
    PiecewiseVerdict(sql);
    NothingIsRead();
    var i := 0;
    assert stmts[0..] == stmts;
    while i < |stmts|
      invariant i <= |stmts|
      invariant IsReadOnly(sql) <==> AllRead(MapWords(stmts[i..]))
    {
      var k := Classify(stmts[i]);
      MapWordsCons(stmts[i..]);
      assert stmts[i..][1..] == stmts[i + 1..];
      if k == Write {
        return false;
      }
      i := i + 1;
    }
    assert stmts[i..] == [];
    ok := true;
  }

  lemma MapWordsCons(stmts: seq<string>)
    requires stmts != []
    ensures AllRead(MapWords(stmts)) <==> Verdict(WordsOf(stmts[0])) == Read && AllRead(MapWords(stmts[1..]))
  {
    AllReadCons(WordsOf(stmts[0]), MapWords(stmts[1..]));
  }
}

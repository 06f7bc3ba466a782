/**
 The lexical structure of a text written out: words, separators, semicolons, literals,
 quoted identifiers, escape strings, comments and dollar quotes laid out one behind the
 other.  Every text is such a layout, up to an end that opens a construct and never
 closes it, and the one-pass lexer reads exactly its words and semicolons.
 */
module Rendering {
  import opened Wrappers
  import opened Lexer
  import opened Spans
  import opened Trimming
  import opened Statements
  import TwoPass

  datatype Seg =
    | Bare(word: string)
    | Semi
    | Separator(c: char)
    | Quote(q: char, value: string)
    | Escape(e: char, atoms: seq<Atom>)
    | Block(comment: Comment)
    | Line(text: string)
    | Dollar(tag: string, body: string)

  function Text(g: Seg): string {
    match g
    case Bare(word) => word
    case Semi => ";"
    case Separator(c) => [c]
    case Quote(q, value) => Quoted(q, value)
    case Escape(e, atoms) => [e, '\''] + RenderAtoms(atoms) + ['\'']
    case Block(comment) => "/*" + Render(comment)
    case Line(text) => "--" + text
    case Dollar(tag, body) => tag + body + tag
  }

  /** The codes of 0 to 9, A to Z, a to z and the underscore. */
  predicate IsWordCode(c: char) {
    var n := c as int;
    48 <= n <= 57 || 65 <= n <= 90 || 97 <= n <= 122 || n == 95
  }

  predicate AfterWord(src: string, p: nat) {
    0 < p <= |src| && IsWordCode(src[p - 1])
  }

  predicate Has(src: string, p: nat, c: char) {
    p < |src| && src[p] == c
  }

  /** A dollar at p opens a dollar quote. */
  ghost predicate StartsTag(src: string, p: nat) {
    !AfterWord(src, p) && exists tag :: IsTag(tag) && Spells(src, p, tag)
  }

  /** g stands at p, and what is before and behind it leaves it what it is. */
  ghost predicate Placed(src: string, p: nat, g: Seg) {
    && Spells(src, p, Text(g))
    && var q := p + |Text(g)|;
    match g
    case Bare(word) =>
      && word != "" && (forall c :: c in word ==> IsWordCode(c))
      && !AfterWord(src, p) && !(q < |src| && IsWordCode(src[q]))
      && !((word == "e" || word == "E") && Has(src, q, '\''))
    case Semi => true
    case Separator(c) =>
      && !IsWordCode(c) && c != ';' && c != '\'' && c != '"'
      && !(c == '-' && Has(src, q, '-')) && !(c == '/' && Has(src, q, '*'))
      && !(c == '$' && StartsTag(src, p))
    case Quote(d, _) => (d == '\'' || d == '"') && !Has(src, q, d)
    case Escape(e, atoms) => (e == 'e' || e == 'E') && WellFormed(atoms) && !AfterWord(src, p) && !Has(src, q, '\'')
    case Block(comment) => Canonical(comment)
    case Line(text) =>
      && (forall c :: c in text ==> c != '\r' && c != '\n')
      && (q < |src| ==> src[q] == '\r' || src[q] == '\n')
    case Dollar(tag, body) =>
      IsTag(tag) && !AfterWord(src, p) && forall m :: p + |tag| <= m < p + |tag| + |body| ==> !Spells(src, m, tag)
  }

  /** The segments gs fill the text from p to e. */
  ghost predicate Laid(src: string, p: nat, gs: seq<Seg>, e: nat)
    decreases |gs|
  {
    if gs == [] then p == e && p <= |src|
    else Placed(src, p, gs[0]) && Laid(src, p + |Text(gs[0])|, gs[1..], e)
  }

  /** What opens at p, other than a line comment, is never closed. */
  ghost predicate Unclosed(src: string, p: nat) {
    || (Has(src, p, '\'') && forall v :: Spells(src, p, Quoted('\'', v)) ==> Has(src, p + |Quoted('\'', v)|, '\''))
    || (Has(src, p, '"') && forall v :: Spells(src, p, Quoted('"', v)) ==> Has(src, p + |Quoted('"', v)|, '"'))
    || (&& (Has(src, p, 'e') || Has(src, p, 'E')) && Has(src, p + 1, '\'') && !AfterWord(src, p)
        && forall atoms :: WellFormed(atoms) && Spells(src, p, Text(Escape(src[p], atoms))) ==>
             Has(src, p + |Text(Escape(src[p], atoms))|, '\''))
    || (Has(src, p, '/') && Has(src, p + 1, '*') && forall c :: Canonical(c) ==> !Spells(src, p, Text(Block(c))))
    || (Has(src, p, '$') && !AfterWord(src, p) && exists tag :: EndlessTag(src, p, tag))
  }

  ghost predicate EndlessTag(src: string, p: nat, tag: string) {
    IsTag(tag) && Spells(src, p, tag) && forall m :: p + |tag| <= m ==> !Spells(src, m, tag)
  }

  /** The words and semicolons of a layout. */
  function Tokens(gs: seq<Seg>): seq<Item> {
    if gs == [] then []
    else (if gs[0].Bare? then [Word(gs[0].word)] else if gs[0].Semi? then [Semicolon] else []) + Tokens(gs[1..])
  }

  // ---- What opens where ----

  lemma WordCodes(c: char)
    ensures IsWordByte(c) <==> IsWordCode(c)
  {
  }

  lemma TokenStarts(src: string, p: nat)
    requires p <= |src|
    ensures StartsToken(src, p) <==> !AfterWord(src, p)
  {
    if p > 0 { WordCodes(src[p - 1]); }
  }

  /** Behind a letter, a digit or an underscore no e and no dollar opens anything. */
  lemma NothingOpensInWord(src: string, p: nat)
    requires 0 < p < |src| && IsWordCode(src[p - 1]) && src[p] in ['e', 'E', '$']
    ensures SkipLen(src, p) == 0
  {
    hide Closes;
    TokenStarts(src, p);
  }

  /** At a token start an e opens an escape string exactly before a quote, and a dollar a dollar quote exactly at a tag. */
  lemma OpensAtTokenStart(src: string, p: nat)
    requires p < |src| && !AfterWord(src, p)
    ensures src[p] in ['e', 'E'] ==> (SkipLen(src, p) > 0 <==> Has(src, p + 1, '\''))
    ensures src[p] == '$' ==> (SkipLen(src, p) > 0 <==> exists tag :: IsTag(tag) && Spells(src, p, tag))
  {
    hide Closes, TagFrom, IsTag;
    TokenStarts(src, p);
    if src[p] == '$' {
      TagsStand(src, p);
    }
  }

  lemma TagsStand(src: string, p: nat)
    requires p < |src| && src[p] == '$'
    ensures TagFrom(src[p..], 1).Some? <==> exists tag :: IsTag(tag) && Spells(src, p, tag)
    ensures TagFrom(src[p..], 1).Some? ==> var tag := TagFrom(src[p..], 1).value; IsTag(tag) && Spells(src, p, tag)
  {
    hide TagFrom, IsTag;
    if TagFrom(src[p..], 1).Some? {
      var tag := TagFrom(src[p..], 1).value;
      DollarTagGrammar(src[p..], tag);
      assert src[p..][..|tag|] == src[p..p + |tag|];
    }
    forall tag | IsTag(tag) && Spells(src, p, tag) ensures TagFrom(src[p..], 1) == Some(tag) {
      assert src[p..][..|tag|] == src[p..p + |tag|];
      DollarTagGrammar(src[p..], tag);
    }
  }

  // ---- Each segment is skipped, or read as what it is ----

  lemma SpelledHead(src: string, p: nat, s: string)
    requires Spells(src, p, s)
    ensures src[p..] == s + src[p + |s|..]
    ensures |s| > 0 ==> src[p] == s[0]
    ensures |s| > 1 ==> src[p + 1] == s[1]
  {
    assert src[p..] == src[p..p + |s|] + src[p + |s|..];
    if |s| > 0 { assert src[p..p + |s|][0] == src[p]; }
    if |s| > 1 { assert src[p..p + |s|][1] == src[p + 1]; }
  }

  lemma LineIsSkipped(src: string, p: nat, g: Seg)
    requires g.Line? && Placed(src, p, g)
    ensures 0 < |Text(g)| && p + |Text(g)| <= |src| && SkipLen(src, p) == |Text(g)|
  {
    hide NewlineFrom;
    SpelledHead(src, p, Text(g));
    var rest := src[p..];
    var n := |Text(g)|;
    forall m | 0 <= m < n ensures !IsNewline(rest[m]) {
      assert rest[m] == Text(g)[m];
      if m >= 2 { assert g.text[m - 2] in g.text; }
    }
    if n < |rest| {
      assert rest[n] == src[p + n];
      FirstNewline(rest, 0, n);
    }
  }

  lemma SameOccurrence(src: string, p: nat, tag: string, m: nat)
    requires p <= |src|
    ensures OccursAt(src[p..], tag, m) <==> Spells(src, p + m, tag)
  {
    if p + m + |tag| <= |src| {
      assert src[p..][m..m + |tag|] == src[p + m..p + m + |tag|];
    }
  }

  lemma SeparatorIsPlain(src: string, p: nat, g: Seg)
    requires (g.Separator? || g.Semi?) && Placed(src, p, g)
    ensures p < |src| && |Text(g)| == 1 && p + |Text(g)| <= |src|
    ensures SkipLen(src, p) == 0 && !IsWordByte(src[p]) && (src[p] == ';' <==> g.Semi?)
  {
    hide Closes, TagFrom, IsTag;
    TokenStarts(src, p);
    SpelledHead(src, p, Text(g));
    WordCodes(src[p]);
    if src[p] == '$' {
      TagsStand(src, p);
    }
  }

  lemma TagOpens(src: string, p: nat, tag: string)
    requires p < |src| && src[p] == '$' && IsTag(tag) && Spells(src, p, tag)
    ensures TagFrom(src[p..], 1) == Some(tag)
  {
    hide TagFrom, IsTag;
    assert src[p..][..|tag|] == src[p..p + |tag|];
    DollarTagGrammar(src[p..], tag);
  }

  lemma ClosedSegment(src: string, p: nat, g: Seg)
    requires Placed(src, p, g) && !g.Bare? && !g.Semi? && !g.Separator? && !g.Line? && p < |src|
    ensures Opens(src, p).Some? && !Opens(src, p).value.LineComment?
    ensures Closes(Opens(src, p).value, src[p..]) == Some(|Text(g)|)
  {
    hide Double, RenderAtoms, Render, Canonical, WellFormed, IsTag, Closes;
    TokenStarts(src, p);
    SpelledHead(src, p, Text(g));
    var rest := src[p + |Text(g)|..];
    match g
    case Quote(q, v) => QuoteCloses(src, p, g);
    case Escape(e, atoms) => EscapeStringIsSkipped(e, atoms, rest);
    case Block(c) => BlockCloses(src, p, g);
    case Dollar(tag, body) => DollarCloses(src, p, g);
  }

  lemma QuoteCloses(src: string, p: nat, g: Seg)
    requires g.Quote? && Placed(src, p, g) && p < |src|
    ensures Closes(if g.q == '"' then Identifier else Literal, src[p..]) == Some(|Text(g)|)
  {
    hide QuoteEnd, Double;
    SpelledHead(src, p, Text(g));
    QuotedIsSkipped(g.q, g.value, src[p + |Text(g)|..]);
  }

  lemma BlockCloses(src: string, p: nat, g: Seg)
    requires g.Block? && Placed(src, p, g) && p < |src|
    ensures Closes(BlockComment, src[p..]) == Some(|Text(g)|)
  {
    hide BlockEnd, Render, Canonical;
    SpelledHead(src, p, Text(g));
    CommentIsSkipped(g.comment, src[p + |Text(g)|..]);
  }

  lemma DollarCloses(src: string, p: nat, g: Seg)
    requires g.Dollar? && Placed(src, p, g) && p < |src|
    ensures Opens(src, p) == Some(DollarQuoted(g.tag)) && Closes(DollarQuoted(g.tag), src[p..]) == Some(|Text(g)|)
  {
    hide *;
    var tag := g.tag;
    DollarStands(src, p, g);
    TagIsLong(tag);
    TagOpens(src, p, tag);
    DollarOpensAt(src, p, tag);
    var n := |Text(g)|;
    forall m | |tag| <= m < n - |tag| ensures !OccursAt(src[p..], tag, m) {
      SameOccurrence(src, p, tag, m);
    }
    SameOccurrence(src, p, tag, n - |tag|);
    TagIsPrefix(src, p, tag);
    DollarQuoteGrammar(src[p..], tag, n);
  }

  lemma DollarOpensAt(src: string, p: nat, tag: string)
    requires p < |src| && src[p] == '$' && !AfterWord(src, p) && TagFrom(src[p..], 1) == Some(tag)
    ensures Opens(src, p) == Some(DollarQuoted(tag))
  {
    hide TagFrom;
    TokenStarts(src, p);
  }

  lemma TagIsPrefix(src: string, p: nat, tag: string)
    requires Spells(src, p, tag)
    ensures tag <= src[p..]
  {
    assert src[p..][..|tag|] == src[p..p + |tag|];
  }

  /** The tag stands at both ends of a dollar quote and nowhere between. */
  lemma DollarStands(src: string, p: nat, g: Seg)
    requires g.Dollar? && Placed(src, p, g) && p < |src|
    ensures IsTag(g.tag) && !AfterWord(src, p) && src[p] == '$'
    ensures Spells(src, p, g.tag) && Spells(src, p + |Text(g)| - |g.tag|, g.tag) && |Text(g)| == 2 * |g.tag| + |g.body|
    ensures forall m :: p + |g.tag| <= m < p + |Text(g)| - |g.tag| ==> !Spells(src, m, g.tag)
  {
    hide Spells;
    SpellsConcat(src, p, g.tag + g.body, g.tag);
    SpellsConcat(src, p, g.tag, g.body);
    DollarFirst(src, p, g.tag);
  }

  lemma DollarFirst(src: string, p: nat, tag: string)
    requires IsTag(tag) && Spells(src, p, tag)
    ensures Has(src, p, '$')
  {
    assert src[p..p + |tag|][0] == src[p];
  }

  /** A segment that is no word yields nothing but a semicolon. */
  lemma SegmentStep(src: string, p: nat, g: Seg)
    requires Placed(src, p, g) && !g.Bare?
    ensures p < |src| && p + |Text(g)| <= |src|
    ensures SkipLen(src, p) > 0 || !IsWordByte(src[p])
    ensures Step(src, p, p) == Advance(if g.Semi? then [Semicolon] else [], p + |Text(g)|, p + |Text(g)|)
    ensures IsSeparator(src, p) <==> g.Semi?
    ensures NextPos(src, p) == p + |Text(g)|
  {
    SegmentSkips(src, p, g);
    hide Placed, SkipLen, Text;
    assert [] + [Semicolon] == [Semicolon];
  }

  lemma SegmentSkips(src: string, p: nat, g: Seg)
    requires Placed(src, p, g) && !g.Bare?
    ensures 0 < |Text(g)| && p + |Text(g)| <= |src|
    ensures if g.Semi? || g.Separator? then
              SkipLen(src, p) == 0 && |Text(g)| == 1 && !IsWordByte(src[p]) && (src[p] == ';' <==> g.Semi?)
            else SkipLen(src, p) == |Text(g)|
  {
    hide Placed, Text;
    if g.Semi? || g.Separator? {
      hide SkipLen;
      SeparatorIsPlain(src, p, g);
    } else if g.Line? {
      hide SkipLen;
      LineIsSkipped(src, p, g);
    } else {
      hide Opens, Closes;
      SegmentIsLong(src, p, g);
      ClosedSegment(src, p, g);
    }
  }

  lemma SegmentIsLong(src: string, p: nat, g: Seg)
    requires Placed(src, p, g) && !g.Bare?
    ensures 0 < |Text(g)| && p + |Text(g)| <= |src|
    ensures g.Semi? || g.Separator? ==> |Text(g)| == 1
  {
    hide Double, RenderAtoms, Render, StartsTag;
    if g.Dollar? { TagIsLong(g.tag); }
  }

  lemma TagIsLong(tag: string)
    requires IsTag(tag)
    ensures |tag| >= 2
  {
  }

  /** Inside a word nothing opens. */
  lemma WordByteStep(src: string, p: nat, word: string, k: nat)
    requires Placed(src, p, Bare(word)) && k < |word|
    ensures p + k < |src| && Step(src, p, p + k) == Advance([], p, p + k + 1)
    ensures !IsSeparator(src, p + k) && NextPos(src, p + k) == p + k + 1
  {
    WordByteIsPlain(src, p, word, k);
    hide SkipLen, Placed;
  }

  lemma WordByteIsPlain(src: string, p: nat, word: string, k: nat)
    requires Placed(src, p, Bare(word)) && k < |word|
    ensures p + k < |src| && SkipLen(src, p + k) == 0 && IsWordByte(src[p + k])
  {
    hide Placed, SkipLen, IsWordByte, Spells;
    var i := p + k;
    WordBytes(src, p, word, k);
    if k > 0 { WordBytes(src, p, word, k - 1); }
    if k + 1 < |word| {
      WordBytes(src, p, word, k + 1);
    } else if k == 0 {
      LastOfWord(src, p, word);
    }
    ByteIsPlain(src, i);
  }

  /** A one-letter word is no escape prefix. */
  lemma LastOfWord(src: string, p: nat, word: string)
    requires Placed(src, p, Bare(word)) && |word| == 1 && p < |src| && src[p] == word[0]
    ensures (src[p] == 'e' || src[p] == 'E') ==> !Has(src, p + 1, '\'')
    ensures !AfterWord(src, p)
  {
    hide AfterWord, IsWordCode;
    assert word == [word[0]];
  }

  /** A word byte opens nothing, unless it is an escape prefix. */
  lemma ByteIsPlain(src: string, i: nat)
    requires i < |src| && IsWordCode(src[i])
    requires (src[i] == 'e' || src[i] == 'E') && Has(src, i + 1, '\'') ==> AfterWord(src, i)
    ensures SkipLen(src, i) == 0 && IsWordByte(src[i])
  {
    hide Closes, TagFrom;
    WordCodes(src[i]);
    TokenStarts(src, i);
  }

  lemma WordBytes(src: string, p: nat, word: string, k: nat)
    requires Placed(src, p, Bare(word)) && k < |word|
    ensures p + k < |src| && src[p + k] == word[k] && IsWordCode(word[k])
  {
    hide IsWordCode;
    assert src[p..p + |word|][k] == src[p + k] && word[k] in word;
  }

  lemma {:induction false} WordScans(src: string, p: nat, word: string, k: nat)
    requires Placed(src, p, Bare(word)) && k <= |word|
    ensures p + |word| <= |src| && Scan(src, p, p + k) == Scan(src, p, p + |word|)
    ensures StatementEnd(src, p + k) == StatementEnd(src, p + |word|)
    decreases |word| - k
  {
    hide *;
    WordFits(src, p, word);
    if k < |word| {
      WordByteStep(src, p, word, k);
      ScanOne(src, p, p + k);
      EndOne(src, p + k);
      WordScans(src, p, word, k + 1);
      assert [] + Scan(src, p, p + k + 1) == Scan(src, p, p + k + 1);
    }
  }

  lemma WordFits(src: string, p: nat, word: string)
    requires Placed(src, p, Bare(word))
    ensures p + |word| <= |src| && src[p..p + |word|] == word && 0 < |word|
  {
  }

  /** A word ends where something opens, at a byte of no word, and at the end. */
  lemma PendingEnds(src: string, w: nat, p: nat)
    requires w <= p <= |src| && (p < |src| ==> SkipLen(src, p) > 0 || !IsWordByte(src[p]))
    ensures Scan(src, w, p) == Pending(src, w, p) + Scan(src, p, p)
  {
    hide SkipLen, Scan, NextPos;
    if p == |src| {
      AtTheEnd(src, w);
      AtTheEnd(src, p);
      assert Pending(src, w, p) + [] == Pending(src, w, p);
    } else {
      ScanOne(src, w, p);
      ScanOne(src, p, p);
      var a := Step(src, p, p);
      assert Step(src, w, p).items == Pending(src, w, p) + a.items;
      assert Pending(src, w, p) + a.items + Scan(src, a.word, a.pos) == Pending(src, w, p) + (a.items + Scan(src, a.word, a.pos));
    }
  }

  lemma WordEnds(src: string, p: nat, word: string)
    requires Placed(src, p, Bare(word))
    ensures var q := p + |word|; q <= |src| && (q < |src| ==> SkipLen(src, q) > 0 || !IsWordByte(src[q]))
  {
    hide SkipLen;
    if p + |word| < |src| { WordCodes(src[p + |word|]); }
  }

  /** A word is read as one token. */
  lemma WordStep(src: string, p: nat, word: string)
    requires Placed(src, p, Bare(word))
    ensures p + |word| <= |src| && Scan(src, p, p) == [Word(word)] + Scan(src, p + |word|, p + |word|)
    ensures StatementEnd(src, p) == StatementEnd(src, p + |word|)
  {
    hide *;
    WordFits(src, p, word);
    WordScans(src, p, word, 0);
    WordEnds(src, p, word);
    PendingEnds(src, p, p + |word|);
    PendingWord(src, p, p + |word|);
  }

  lemma PendingWord(src: string, w: nat, p: nat)
    requires w < p <= |src|
    ensures Pending(src, w, p) == [Word(src[w..p])]
  {
  }

  // ---- What is closed, and what never is ----

  /** A quoted text that is closed at n is a quoted value. */
  lemma ClosedQuote(src: string, p: nat, q: char) returns (v: string)
    requires Has(src, p, q) && QuoteEnd(src[p..], 1, q).Some?
    ensures Spells(src, p, Quoted(q, v)) && !Has(src, p + |Quoted(q, v)|, q)
    ensures QuoteEnd(src[p..], 1, q) == Some(|Quoted(q, v)|)
  {
    hide QuoteEnd, Double;
    var rest := src[p..];
    v := SkippedIsQuoted(q, rest);
    var n := QuoteEnd(rest, 1, q).value;
    assert rest[..n] == src[p..p + n];
    assert n < |rest| ==> rest[n] == src[p + n];
  }

  lemma ClosedEscape(src: string, p: nat) returns (atoms: seq<Atom>)
    requires Has(src, p + 1, '\'') && Closes(EscapeString, src[p..]).Some?
    ensures WellFormed(atoms) && Spells(src, p, Text(Escape(src[p], atoms))) && !Has(src, p + |Text(Escape(src[p], atoms))|, '\'')
    ensures Closes(EscapeString, src[p..]) == Some(|Text(Escape(src[p], atoms))|)
  {
    hide Closes, RenderAtoms, WellFormed;
    var rest := src[p..];
    atoms := SkippedIsEscapeString(rest);
    var n := Closes(EscapeString, rest).value;
    assert rest[..n] == src[p..p + n];
    assert n < |rest| ==> rest[n] == src[p + n];
  }

  lemma ClosedBlock(src: string, p: nat) returns (c: Comment)
    requires Pair(src, p, '/', '*') && BlockEnd(src[p..], 0, 0).Some?
    ensures Canonical(c) && Spells(src, p, Text(Block(c))) && BlockEnd(src[p..], 0, 0) == Some(|Text(Block(c))|)
  {
    hide BlockEnd, Render, Canonical;
    var rest := src[p..];
    c := SkippedIsComment(rest);
    var n := BlockEnd(rest, 0, 0).value;
    assert rest[..n] == src[p..p + n];
  }

  /** A dollar quote is closed at the first later occurrence of its tag. */
  lemma ClosedDollar(src: string, p: nat, tag: string) returns (body: string)
    requires p < |src| && tag != "" && Spells(src, p, tag) && Closes(DollarQuoted(tag), src[p..]).Some?
    ensures Spells(src, p, Text(Dollar(tag, body)))
    ensures forall m :: p + |tag| <= m < p + |tag| + |body| ==> !Spells(src, m, tag)
    ensures Closes(DollarQuoted(tag), src[p..]) == Some(|Text(Dollar(tag, body))|)
  {
    hide IndexFrom, Text, OccursAt;
    var rest := src[p..];
    var i := IndexFrom(rest, tag, |tag|).value;
    FirstOccurrence(rest, tag, |tag|, i);
    SameOccurrence(src, p, tag, i);
    body := src[p + |tag|..p + i];
    DollarJoins(src, p, tag, i);
    forall m | p + |tag| <= m < p + i ensures !Spells(src, m, tag) {
      SameOccurrence(src, p, tag, m - p);
    }
  }

  lemma DollarJoins(src: string, p: nat, tag: string, i: nat)
    requires |tag| <= i && Spells(src, p, tag) && Spells(src, p + i, tag)
    ensures var body := src[p + |tag|..p + i];
            Spells(src, p, Text(Dollar(tag, body))) && |Text(Dollar(tag, body))| == i + |tag|
  {
    var body := src[p + |tag|..p + i];
    assert Spells(src, p + |tag|, body);
    hide Spells;
    SpellsConcat(src, p, tag, body);
    SpellsConcat(src, p, tag + body, tag);
  }

  lemma UnclosedQuote(src: string, p: nat, q: char)
    requires (q == '\'' || q == '"') && Has(src, p, q)
    requires forall v :: Spells(src, p, Quoted(q, v)) ==> Has(src, p + |Quoted(q, v)|, q)
    ensures SkipLen(src, p) == |src| - p
  {
    hide QuoteEnd, Quoted;
    if QuoteEnd(src[p..], 1, q).Some? {
      var v := ClosedQuote(src, p, q);
      assert false;
    }
  }

  lemma UnclosedEscape(src: string, p: nat)
    requires (Has(src, p, 'e') || Has(src, p, 'E')) && Has(src, p + 1, '\'') && !AfterWord(src, p)
    requires forall atoms :: WellFormed(atoms) && Spells(src, p, Text(Escape(src[p], atoms))) ==>
               Has(src, p + |Text(Escape(src[p], atoms))|, '\'')
    ensures SkipLen(src, p) == |src| - p
  {
    hide Closes, Text, WellFormed;
    TokenStarts(src, p);
    if Closes(EscapeString, src[p..]).Some? {
      var atoms := ClosedEscape(src, p);
      assert false;
    }
  }

  lemma UnclosedBlock(src: string, p: nat)
    requires Has(src, p, '/') && Has(src, p + 1, '*') && forall c :: Canonical(c) ==> !Spells(src, p, Text(Block(c)))
    ensures SkipLen(src, p) == |src| - p
  {
    hide BlockEnd, Text, Canonical;
    if BlockEnd(src[p..], 0, 0).Some? {
      var c := ClosedBlock(src, p);
      assert false;
    }
  }

  lemma UnclosedDollar(src: string, p: nat, tag: string)
    requires Has(src, p, '$') && !AfterWord(src, p) && EndlessTag(src, p, tag)
    ensures SkipLen(src, p) == |src| - p
  {
    hide Closes, TagFrom, IsTag;
    TokenStarts(src, p);
    TagIsLong(tag);
    TagOpens(src, p, tag);
    if Closes(DollarQuoted(tag), src[p..]).Some? {
      var body := ClosedDollar(src, p, tag);
      ClosingTag(src, p, tag, body);
      assert false;
    }
  }

  /** The tag that closes a dollar quote. */
  lemma ClosingTag(src: string, p: nat, tag: string, body: string)
    requires Spells(src, p, Text(Dollar(tag, body)))
    ensures Spells(src, p + |tag| + |body|, tag)
  {
    hide Spells;
    SpellsConcat(src, p, tag + body, tag);
  }

  lemma UnclosedSkipsAll(src: string, p: nat)
    requires Unclosed(src, p)
    ensures p < |src| && SkipLen(src, p) == |src| - p
  {
    hide SkipLen, Quoted, WellFormed, Canonical, EndlessTag, Text;
    if Has(src, p, '\'') {
      UnclosedQuote(src, p, '\'');
    } else if Has(src, p, '"') {
      UnclosedQuote(src, p, '"');
    } else if Has(src, p, '/') {
      UnclosedBlock(src, p);
    } else if Has(src, p, '$') {
      var tag :| EndlessTag(src, p, tag);
      UnclosedDollar(src, p, tag);
    } else {
      UnclosedEscape(src, p);
    }
  }

  lemma UnclosedYieldsNothing(src: string, p: nat)
    requires Unclosed(src, p)
    ensures p < |src| && Scan(src, p, p) == [] && StatementEnd(src, p) == |src|
  {
    UnclosedSkipsAll(src, p);
    hide Unclosed, SkipLen, Scan, StatementEnd, NextPos;
    ScanOne(src, p, p);
    EndOne(src, p);
    SkipsToEnd(src, p);
    AtTheEnd(src, |src|);
  }

  lemma SkipsToEnd(src: string, p: nat)
    requires p < |src| && SkipLen(src, p) == |src| - p
    ensures Step(src, p, p) == Advance([], |src|, |src|) && NextPos(src, p) == |src| && !IsSeparator(src, p)
    ensures Pending(src, |src|, |src|) == []
  {
    hide SkipLen;
  }

  // ---- The tokens of a layout ----

  /** A layout that ends the text or runs into something that is never closed. */
  ghost predicate Fills(src: string, p: nat, gs: seq<Seg>, e: nat) {
    Laid(src, p, gs, e) && (e == |src| || Unclosed(src, e))
  }

  /** The one-pass lexer reads exactly the words and semicolons of a layout. */
  lemma {:induction false} LayoutScans(src: string, p: nat, gs: seq<Seg>, e: nat)
    requires Fills(src, p, gs, e)
    ensures p <= |src| && Scan(src, p, p) == Tokens(gs)
    decreases |gs|
  {
    hide *;
    if gs == [] {
      EmptyLayout(src, p, e);
      if e == |src| {
        AtTheEnd(src, p);
        NothingIsPending(src);
      } else {
        UnclosedYieldsNothing(src, e);
      }
    } else {
      var g := gs[0];
      var q := p + |Text(g)|;
      LayoutTail(src, p, gs, e);
      LayoutScans(src, q, gs[1..], e);
      TokensCons(gs);
      if g.Bare? {
        BareText(g);
        WordStep(src, p, g.word);
      } else {
        SegmentStep(src, p, g);
        ScanOne(src, p, p);
      }
    }
  }

  lemma EmptyLayout(src: string, p: nat, e: nat)
    requires Fills(src, p, [], e)
    ensures p == e && p <= |src| && Tokens([]) == [] && (e == |src| || Unclosed(src, e))
  {
    hide Unclosed;
  }

  lemma NothingIsPending(src: string)
    ensures Pending(src, |src|, |src|) == []
  {
  }

  lemma LayoutTail(src: string, p: nat, gs: seq<Seg>, e: nat)
    requires gs != [] && Fills(src, p, gs, e)
    ensures Placed(src, p, gs[0]) && Fills(src, p + |Text(gs[0])|, gs[1..], e)
  {
    hide Placed, Unclosed, Text;
  }

  lemma TokensCons(gs: seq<Seg>)
    requires gs != []
    ensures Tokens(gs) == (if gs[0].Bare? then [Word(gs[0].word)] else if gs[0].Semi? then [Semicolon] else []) + Tokens(gs[1..])
  {
  }

  lemma BareText(g: Seg)
    requires g.Bare?
    ensures Text(g) == g.word
  {
  }

  // ---- Every text is a layout ----

  /** No word goes on at p. */
  predicate IsBoundary(src: string, p: nat) {
    p < |src| && IsWordCode(src[p]) ==> !AfterWord(src, p)
  }

  lemma MarkEndsWord(src: string, q: nat)
    requires 0 < q <= |src| && IsMark(src[q - 1])
    ensures IsBoundary(src, q)
  {
  }

  lemma OpenedQuote(src: string, p: nat, q: char) returns (g: Option<Seg>)
    requires (q == '\'' || q == '"') && Has(src, p, q)
    ensures if g.Some? then g.value.Quote? && Placed(src, p, g.value) else Unclosed(src, p)
  {
    hide QuoteEnd, Quoted;
    if QuoteEnd(src[p..], 1, q).Some? {
      var v := ClosedQuote(src, p, q);
      g := Some(Quote(q, v));
    } else {
      g := None;
      forall v | Spells(src, p, Quoted(q, v)) && !Has(src, p + |Quoted(q, v)|, q) ensures false {
        QuoteIsSpanned(src, p, q, v);
      }
    }
  }

  lemma QuoteIsSpanned(src: string, p: nat, q: char, v: string)
    requires Has(src, p, q) && Spells(src, p, Quoted(q, v)) && !Has(src, p + |Quoted(q, v)|, q)
    ensures QuoteEnd(src[p..], 1, q).Some?
  {
    hide QuoteEnd, Quoted;
    SpelledHead(src, p, Quoted(q, v));
    QuotedIsSkipped(q, v, src[p + |Quoted(q, v)|..]);
  }

  lemma OpenedEscape(src: string, p: nat) returns (g: Option<Seg>)
    requires (Has(src, p, 'e') || Has(src, p, 'E')) && Has(src, p + 1, '\'') && !AfterWord(src, p)
    ensures if g.Some? then g.value.Escape? && Placed(src, p, g.value) else Unclosed(src, p)
  {
    hide Closes, RenderAtoms, WellFormed;
    if Closes(EscapeString, src[p..]).Some? {
      var atoms := ClosedEscape(src, p);
      g := Some(Escape(src[p], atoms));
    } else {
      g := None;
      forall atoms | WellFormed(atoms) && Spells(src, p, Text(Escape(src[p], atoms)))
        && !Has(src, p + |Text(Escape(src[p], atoms))|, '\'') ensures false
      {
        EscapeIsSpanned(src, p, atoms);
      }
    }
  }

  lemma EscapeIsSpanned(src: string, p: nat, atoms: seq<Atom>)
    requires p < |src| && WellFormed(atoms) && Spells(src, p, Text(Escape(src[p], atoms)))
    requires !Has(src, p + |Text(Escape(src[p], atoms))|, '\'')
    ensures Closes(EscapeString, src[p..]).Some?
  {
    hide Closes, RenderAtoms, WellFormed;
    var text := Text(Escape(src[p], atoms));
    SpelledHead(src, p, text);
    EscapeStringIsSkipped(src[p], atoms, src[p + |text|..]);
  }

  lemma OpenedBlock(src: string, p: nat) returns (g: Option<Seg>)
    requires Has(src, p, '/') && Has(src, p + 1, '*')
    ensures if g.Some? then g.value.Block? && Placed(src, p, g.value) else Unclosed(src, p)
  {
    hide BlockEnd, Render, Canonical;
    if BlockEnd(src[p..], 0, 0).Some? {
      var c := ClosedBlock(src, p);
      g := Some(Block(c));
    } else {
      g := None;
      forall c | Canonical(c) ensures !Spells(src, p, Text(Block(c))) {
        if Spells(src, p, Text(Block(c))) {
          SpelledHead(src, p, Text(Block(c)));
          CommentIsSkipped(c, src[p + |Text(Block(c))|..]);
        }
      }
    }
  }

  lemma OpenedDollar(src: string, p: nat, tag: string) returns (g: Option<Seg>)
    requires Has(src, p, '$') && !AfterWord(src, p) && IsTag(tag) && Spells(src, p, tag)
    ensures if g.Some? then g.value.Dollar? && Placed(src, p, g.value) else Unclosed(src, p)
  {
    hide IndexFrom, IsTag, Text;
    TagIsLong(tag);
    if Closes(DollarQuoted(tag), src[p..]).Some? {
      var body := ClosedDollar(src, p, tag);
      g := Some(Dollar(tag, body));
    } else {
      g := None;
      forall m | p + |tag| <= m ensures !Spells(src, m, tag) {
        NoOccurrence(src, p, tag, m);
      }
      assert EndlessTag(src, p, tag);
    }
  }

  lemma NoOccurrence(src: string, p: nat, tag: string, m: nat)
    requires p < |src| && tag != "" && p + |tag| <= m && IndexFrom(src[p..], tag, |tag|).None?
    ensures !Spells(src, m, tag)
  {
    hide IndexFrom;
    SameOccurrence(src, p, tag, m - p);
    if OccursAt(src[p..], tag, m - p) {
      OccurrenceIsFound(src[p..], tag, |tag|, m - p);
    }
  }

  lemma {:induction false} OccurrenceIsFound(rest: string, tag: string, i: nat, m: nat)
    requires tag != "" && i <= m && OccursAt(rest, tag, m)
    ensures IndexFrom(rest, tag, i).Some?
    decreases m - i
  {
    hide IndexFrom;
    IndexOne(rest, tag, i);
    if i < m {
      OccurrenceIsFound(rest, tag, i + 1, m);
    }
  }

  lemma OpenedLine(src: string, p: nat) returns (g: Seg)
    requires Pair(src, p, '-', '-')
    ensures g.Line? && Placed(src, p, g)
  {
    hide *;
    PairBehind(src, p);
    var rest := src[p..];
    NewlineBounds(rest);
    var r := NewlineFrom(rest, 0);
    var n := if r.Some? then r.value else |rest|;
    g := Line(src[p + 2..p + n]);
    LineIsPlaced(src, p, n);
  }

  lemma PairBehind(src: string, p: nat)
    requires Pair(src, p, '-', '-')
    ensures p + 1 < |src| && Pair(src[p..], 0, '-', '-')
  {
  }

  lemma LineIsPlaced(src: string, p: nat, n: nat)
    requires Pair(src, p, '-', '-') && 2 <= n <= |src| - p
    requires (forall m :: 0 <= m < n ==> !IsNewline(src[p..][m])) && (p + n < |src| ==> IsNewline(src[p..][n]))
    ensures Placed(src, p, Line(src[p + 2..p + n]))
  {
    var text := src[p + 2..p + n];
    LineText(src, p, n);
    NoNewlineIn(src[p..], text);
    if p + n < |src| { assert src[p..][n] == src[p + n]; }
  }

  lemma LineText(src: string, p: nat, n: nat)
    requires Pair(src, p, '-', '-') && 2 <= n <= |src| - p
    ensures src[p..p + n] == "--" + src[p + 2..p + n] && |src[p + 2..p + n]| == n - 2
    ensures src[p + 2..p + n] == src[p..][2..n]
  {
  }

  lemma NoNewlineIn(rest: string, text: string)
    requires 2 + |text| <= |rest| && text == rest[2..2 + |text|] && forall m :: 0 <= m < 2 + |text| ==> !IsNewline(rest[m])
    ensures forall c :: c in text ==> c != '\r' && c != '\n'
  {
    forall k | 0 <= k < |text| ensures text[k] != '\r' && text[k] != '\n' {
      assert rest[k + 2] == text[k];
      assert !IsNewline(rest[k + 2]);
    }
  }

  /** A line comment has its two dashes, and no newline before its end. */
  lemma NewlineBounds(rest: string)
    requires Pair(rest, 0, '-', '-')
    ensures var r := NewlineFrom(rest, 0);
            var n := if r.Some? then r.value else |rest|;
            2 <= n <= |rest| && (forall m :: 0 <= m < n ==> !IsNewline(rest[m])) && (n < |rest| ==> IsNewline(rest[n]))
  {
    var r := NewlineFrom(rest, 0);
    if r.Some? {
      FirstNewline(rest, 0, r.value);
    } else {
      NoNewline(rest, 0);
    }
  }

  lemma {:induction false} NoNewline(rest: string, i: nat)
    requires NewlineFrom(rest, i).None?
    ensures forall m :: i <= m < |rest| ==> !IsNewline(rest[m])
    decreases |rest| - i
  {
    if i < |rest| {
      NoNewline(rest, i + 1);
    }
  }

  /** What opens at p is a segment, or is never closed. */
  lemma OpenedSegment(src: string, p: nat) returns (g: Option<Seg>)
    requires p < |src| && SkipLen(src, p) > 0
    ensures if g.Some? then Placed(src, p, g.value) && !g.value.Bare? && !g.value.Semi? && !g.value.Separator? else Unclosed(src, p)
  {
    hide SkipLen, Placed, Unclosed, TagFrom, IsTag;
    TokenStarts(src, p);
    var c := Opens(src, p).value;
    match c
    case LineComment =>
      var l := OpenedLine(src, p);
      g := Some(l);
    case BlockComment => g := OpenedBlock(src, p);
    case Literal => g := OpenedQuote(src, p, '\'');
    case Identifier => g := OpenedQuote(src, p, '"');
    case EscapeString => g := OpenedEscape(src, p);
    case DollarQuoted(tag) =>
      TagsStand(src, p);
      g := OpenedDollar(src, p, tag);
  }

  lemma SegmentEnds(src: string, p: nat, g: Seg)
    requires Placed(src, p, g) && !g.Bare? && p < |src|
    ensures IsBoundary(src, p + |Text(g)|)
  {
    hide *;
    SegmentSkips(src, p, g);
    SegmentIsLong(src, p, g);
    var q := p + |Text(g)|;
    if g.Semi? || g.Separator? {
      SeparatorEnds(src, p);
    } else if g.Line? {
      LineEnds(src, p, g);
    } else {
      ClosedSegment(src, p, g);
      ClosesAtMark(Opens(src, p).value, src, p);
      MarkEndsWord(src, q);
    }
  }

  lemma SeparatorEnds(src: string, p: nat)
    requires p < |src| && !IsWordByte(src[p])
    ensures IsBoundary(src, p + 1)
  {
    WordCodes(src[p]);
  }

  lemma LineEnds(src: string, p: nat, g: Seg)
    requires g.Line? && Placed(src, p, g)
    ensures IsBoundary(src, p + |Text(g)|)
  {
  }

  /** The end of the word that starts at p. */
  function WordEnd(src: string, p: nat): (q: nat)
    requires p <= |src|
    ensures p <= q <= |src| && (forall i :: p <= i < q ==> IsWordCode(src[i])) && (q < |src| ==> !IsWordCode(src[q]))
    decreases |src| - p
  {
    if p < |src| && IsWordCode(src[p]) then WordEnd(src, p + 1) else p
  }

  lemma WordIsPlaced(src: string, p: nat)
    requires p < |src| && IsWordCode(src[p]) && !AfterWord(src, p) && SkipLen(src, p) == 0
    ensures var q := WordEnd(src, p); p < q && Placed(src, p, Bare(src[p..q])) && IsBoundary(src, q)
  {
    hide SkipLen, WordEnd, IsWordCode, AfterWord, Has;
    var q := WordEnd(src, p);
    WordGoesOn(src, p);
    InWord(src, p, q);
    if src[p..q] == "e" || src[p..q] == "E" {
      ShortWord(src, p, q);
      OpensAtTokenStart(src, p);
    }
  }

  lemma WordGoesOn(src: string, p: nat)
    requires p < |src| && IsWordCode(src[p])
    ensures p < WordEnd(src, p)
  {
    hide IsWordCode;
  }

  lemma InWord(src: string, p: nat, q: nat)
    requires p <= q <= |src| && forall i :: p <= i < q ==> IsWordCode(src[i])
    ensures forall c :: c in src[p..q] ==> IsWordCode(c)
  {
    hide IsWordCode;
  }

  lemma ShortWord(src: string, p: nat, q: nat)
    requires p < q <= |src| && (src[p..q] == "e" || src[p..q] == "E")
    ensures q == p + 1 && src[p] in ['e', 'E']
  {
    assert src[p..q][0] == src[p];
  }

  lemma SeparatorIsPlaced(src: string, p: nat) returns (g: Seg)
    requires p < |src| && !IsWordCode(src[p]) && SkipLen(src, p) == 0
    ensures (g.Semi? || g.Separator?) && Placed(src, p, g)
  {
    hide Closes, TagFrom, IsTag;
    TokenStarts(src, p);
    g := if src[p] == ';' then Semi else Separator(src[p]);
    assert src[p..p + 1] == [src[p]];
    if src[p] == '$' { TagsStand(src, p); }
  }

  /** The segment that starts at p, unless something opens there that is never closed. */
  lemma NextSegment(src: string, p: nat) returns (g: Option<Seg>)
    requires p < |src| && IsBoundary(src, p)
    ensures if g.Some? then Placed(src, p, g.value) && 0 < |Text(g.value)| <= |src| - p && IsBoundary(src, p + |Text(g.value)|)
            else Unclosed(src, p)
  {
    hide *;
    if SkipLen(src, p) > 0 {
      g := OpenedSegment(src, p);
      if g.Some? {
        SegmentSkips(src, p, g.value);
        SegmentEnds(src, p, g.value);
      }
    } else if IsWordCode(src[p]) {
      BoundaryMeans(src, p);
      WordIsPlaced(src, p);
      var word := src[p..WordEnd(src, p)];
      BareText(Bare(word));
      g := Some(Bare(word));
    } else {
      var s := SeparatorIsPlaced(src, p);
      SegmentSkips(src, p, s);
      SegmentEnds(src, p, s);
      g := Some(s);
    }
  }

  lemma BoundaryMeans(src: string, p: nat)
    requires p < |src| && IsBoundary(src, p)
    ensures IsWordCode(src[p]) ==> !AfterWord(src, p)
  {
  }

  /** Every text is a layout, up to something that is never closed. */
  lemma {:induction false} EveryTextIsLaid(src: string, p: nat) returns (gs: seq<Seg>, e: nat)
    requires p <= |src| && IsBoundary(src, p)
    ensures Fills(src, p, gs, e)
    decreases |src| - p
  {
    hide *;
    if p == |src| {
      gs, e := [], p;
      NothingLeft(src, p);
    } else {
      var g := NextSegment(src, p);
      if g == None {
        gs, e := [], p;
        NothingLeft(src, p);
      } else {
        var more;
        more, e := EveryTextIsLaid(src, p + |Text(g.value)|);
        gs := [g.value] + more;
        LaidCons(src, p, g.value, more, e);
      }
    }
  }

  lemma NothingLeft(src: string, p: nat)
    requires p == |src| || (p < |src| && Unclosed(src, p))
    ensures Fills(src, p, [], p)
  {
    hide Unclosed;
  }

  lemma LaidCons(src: string, p: nat, g: Seg, more: seq<Seg>, e: nat)
    requires Placed(src, p, g) && Fills(src, p + |Text(g)|, more, e)
    ensures Fills(src, p, [g] + more, e)
  {
    hide Placed, Unclosed, Text;
    assert ([g] + more)[1..] == more;
  }

  /** A whole text is a layout whose words and semicolons are its tokens. */
  lemma TextIsLaid(src: string) returns (gs: seq<Seg>, e: nat)
    ensures Fills(src, 0, gs, e) && Scan(src, 0, 0) == Tokens(gs)
  {
    gs, e := EveryTextIsLaid(src, 0);
    LayoutScans(src, 0, gs, e);
  }

  // ---- Statements of a layout ----

  /** The words between the semicolons. */
  function StatementWords(gs: seq<Seg>): (ws: seq<seq<string>>)
    ensures |ws| > 0
  {
    if gs == [] then [[]]
    else
      var more := StatementWords(gs[1..]);
      if gs[0].Semi? then [[]] + more
      else if gs[0].Bare? then [[gs[0].word] + more[0]] + more[1..]
      else more
  }

  /** The texts between the semicolons, tail being what is never closed. */
  function StatementTexts(gs: seq<Seg>, tail: string): (ts: seq<string>)
    ensures |ts| > 0
  {
    if gs == [] then [tail]
    else
      var more := StatementTexts(gs[1..], tail);
      if gs[0].Semi? then [""] + more else [Text(gs[0]) + more[0]] + more[1..]
  }

  lemma {:induction false} GroupsLaid(gs: seq<Seg>)
    ensures TwoPass.Groups(Tokens(gs)) == StatementWords(gs)
    decreases |gs|
  {
    if gs != [] {
      GroupsLaid(gs[1..]);
      var more := Tokens(gs[1..]);
      if gs[0].Semi? {
        assert ([Semicolon] + more)[1..] == more;
      } else if gs[0].Bare? {
        assert ([Word(gs[0].word)] + more)[1..] == more;
      } else {
        assert [] + more == more;
      }
    }
  }

  /** The trimmed texts that are not empty. */
  function TrimAll(ts: seq<string>): seq<string> {
    if ts == [] then [] else (if Trim(ts[0]) == "" then [] else [Trim(ts[0])]) + TrimAll(ts[1..])
  }

  /** Where the first statement of a layout ends, and what is behind it. */
  ghost predicate SplitsOff(src: string, p: nat, gs: seq<Seg>, e: nat, k: nat) {
    && p <= |src| && e <= |src|
    && var ts := StatementTexts(gs, src[e..]);
    var end := StatementEnd(src, p);
    && src[p..end] == ts[0]
    && (if end < |src| then k <= |gs| && Fills(src, end + 1, gs[k..], e) && StatementTexts(gs[k..], src[e..]) == ts[1..]
        else |ts| == 1)
  }

  lemma LayoutFits(src: string, p: nat, gs: seq<Seg>, e: nat)
    requires Fills(src, p, gs, e)
    ensures p <= |src| && e <= |src|
    decreases |gs|
  {
    if gs == [] {
      hide Unclosed;
      if p < |src| {}
    } else {
      LayoutFits(src, p + |Text(gs[0])|, gs[1..], e);
    }
  }

  lemma {:induction false} FirstStatement(src: string, p: nat, gs: seq<Seg>, e: nat) returns (k: nat)
    requires Fills(src, p, gs, e)
    ensures SplitsOff(src, p, gs, e, k)
    decreases |gs|
  {
    hide *;
    LayoutFits(src, p, gs, e);
    if gs == [] {
      k := 0;
      EmptyLayout(src, p, e);
      if e == |src| {
        AtTheEnd(src, e);
      } else {
        UnclosedYieldsNothing(src, e);
      }
      LastStatement(src, p);
    } else {
      var g := gs[0];
      var q := p + |Text(g)|;
      LayoutTail(src, p, gs, e);
      LayoutFits(src, q, gs[1..], e);
      if g == Semi {
        k := 1;
        SegmentStep(src, p, g);
        EndOne(src, p);
        assert |Text(Semi)| == 1 by { SegmentIsLong(src, p, g); }
        SemiSplits(src, p, gs, e);
      } else {
        var j := FirstStatement(src, q, gs[1..], e);
        k := j + 1;
        SameStatementEnd(src, p, g);
        MoreOfStatement(src, p, gs, e, j);
      }
    }
  }

  lemma LastStatement(src: string, p: nat)
    requires p <= |src| && StatementEnd(src, p) == |src|
    ensures SplitsOff(src, p, [], p, 0)
  {
    hide StatementEnd;
    assert src[p..|src|] == src[p..];
  }

  lemma SameStatementEnd(src: string, p: nat, g: Seg)
    requires Placed(src, p, g) && g != Semi
    ensures p + |Text(g)| <= |src| && StatementEnd(src, p) == StatementEnd(src, p + |Text(g)|)
  {
    hide *;
    if g.Bare? {
      BareText(g);
      WordStep(src, p, g.word);
    } else {
      assert !g.Semi?;
      SegmentStep(src, p, g);
      EndOne(src, p);
    }
  }

  lemma SemiSplits(src: string, p: nat, gs: seq<Seg>, e: nat)
    requires gs != [] && gs[0] == Semi && p < |src| && e <= |src| && StatementEnd(src, p) == p && Fills(src, p + 1, gs[1..], e)
    ensures SplitsOff(src, p, gs, e, 1)
  {
    hide StatementEnd, Fills;
    var tail := src[e..];
    assert ([""] + StatementTexts(gs[1..], tail))[1..] == StatementTexts(gs[1..], tail);
    assert src[p..p] == "";
  }

  lemma MoreOfStatement(src: string, p: nat, gs: seq<Seg>, e: nat, j: nat)
    requires gs != [] && gs[0] != Semi && Placed(src, p, gs[0]) && p + |Text(gs[0])| <= |src|
    requires StatementEnd(src, p) == StatementEnd(src, p + |Text(gs[0])|)
    requires SplitsOff(src, p + |Text(gs[0])|, gs[1..], e, j)
    ensures SplitsOff(src, p, gs, e, j + 1)
  {
    hide StatementEnd, Fills, Placed, Text, StatementTexts;
    TextStands(src, p, gs[0]);
    TextsCons(gs, src[e..]);
    JoinAt(src, p, p + |Text(gs[0])|, StatementEnd(src, p));
    if StatementEnd(src, p) < |src| {
      DropTwice(gs, j);
    }
  }

  lemma DropTwice(gs: seq<Seg>, j: nat)
    requires 0 < |gs| && j <= |gs| - 1
    ensures gs[1..][j..] == gs[j + 1..]
  {
  }

  lemma JoinAt(src: string, a: nat, b: nat, c: nat)
    requires a <= b <= c <= |src|
    ensures src[a..c] == src[a..b] + src[b..c]
  {
  }

  lemma TextsCons(gs: seq<Seg>, tail: string)
    requires gs != [] && gs[0] != Semi
    ensures var ts, more := StatementTexts(gs, tail), StatementTexts(gs[1..], tail);
            ts[0] == Text(gs[0]) + more[0] && ts[1..] == more[1..] && |ts| == |more|
  {
    hide Text;
    assert !gs[0].Semi?;
    var more := StatementTexts(gs[1..], tail);
    assert ([Text(gs[0]) + more[0]] + more[1..])[1..] == more[1..];
  }

  lemma TextStands(src: string, p: nat, g: Seg)
    requires Placed(src, p, g)
    ensures p + |Text(g)| <= |src| && src[p..p + |Text(g)|] == Text(g)
  {
    hide Text;
  }

  /** Split cuts a text at the semicolons of its layout, trims, and drops what is empty. */
  lemma {:induction false} PiecesLaid(src: string, p: nat, gs: seq<Seg>, e: nat)
    requires Fills(src, p, gs, e)
    ensures p <= |src| && e <= |src| && Pieces(src, p) == TrimAll(StatementTexts(gs, src[e..]))
    decreases |src| - p
  {
    hide *;
    LayoutFits(src, p, gs, e);
    var k := FirstStatement(src, p, gs, e);
    PiecesUnfold(src, p);
    var end := StatementEnd(src, p);
    if end < |src| {
      SplitTail(src, p, gs, e, k);
      PiecesLaid(src, end + 1, gs[k..], e);
    }
    PiecesOne(src, p, gs, e, k);
  }

  lemma SplitTail(src: string, p: nat, gs: seq<Seg>, e: nat, k: nat)
    requires SplitsOff(src, p, gs, e, k) && StatementEnd(src, p) < |src|
    ensures k <= |gs| && Fills(src, StatementEnd(src, p) + 1, gs[k..], e)
  {
    hide StatementEnd, Fills, StatementTexts;
  }

  lemma PiecesOne(src: string, p: nat, gs: seq<Seg>, e: nat, k: nat)
    requires SplitsOff(src, p, gs, e, k) && Pieces(src, p) == Nonempty(Statement(src, p)) + Rest(src, p)
    requires StatementEnd(src, p) < |src| ==>
               k <= |gs| && Pieces(src, StatementEnd(src, p) + 1) == TrimAll(StatementTexts(gs[k..], src[e..]))
    ensures Pieces(src, p) == TrimAll(StatementTexts(gs, src[e..]))
  {
    hide StatementEnd, Fills, StatementTexts, Pieces, Trim;
    var ts := StatementTexts(gs, src[e..]);
    assert |ts| == 1 ==> ts[1..] == [];
  }

  // ---- Quotes and dollars behind a word ----

  /** The parts of a text stand one behind the other. */
  lemma Parts(a: string, b: string, c: string, t: string)
    ensures var src := a + b + c + t;
            && Spells(src, 0, a) && Spells(src, |a|, b) && Spells(src, |a| + |b|, c)
            && src[|a| + |b| + |c|..] == t
  {
    var src := a + b + c + t;
    assert src[|a|..|a| + |b|] == b && src[|a| + |b|..|a| + |b| + |c|] == c;
  }

  lemma TextBehind(src: string, t: string, a: nat)
    requires a <= |src| && t == src[a..] && StartsToken(src, a)
    ensures Scan(src, a, a) == Scan(t, 0, 0)
  {
    hide Scan, StartsToken;
    ScanDrop(src, t, a, a, a);
  }

  lemma SemicolonStep(src: string, p: nat)
    requires Spells(src, p, ";")
    ensures p < |src| && Scan(src, p, p) == [Semicolon] + Scan(src, p + 1, p + 1) && StartsToken(src, p + 1)
  {
    hide *;
    SemiPlaced(src, p);
    SegmentStep(src, p, Semi);
    ScanOne(src, p, p);
  }

  lemma SemiPlaced(src: string, p: nat)
    requires Spells(src, p, ";")
    ensures p < |src| && Placed(src, p, Semi) && |Text(Semi)| == 1 && StartsToken(src, p + 1)
  {
    assert src[p..p + 1][0] == src[p];
  }

  lemma SkippedStep(src: string, p: nat, g: Seg)
    requires Placed(src, p, g) && !g.Bare? && !g.Semi?
    ensures p + |Text(g)| <= |src| && Scan(src, p, p) == Scan(src, p + |Text(g)|, p + |Text(g)|)
  {
    hide Scan, Step, Placed, Text;
    SegmentStep(src, p, g);
    ScanOne(src, p, p);
    assert [] + Scan(src, p + |Text(g)|, p + |Text(g)|) == Scan(src, p + |Text(g)|, p + |Text(g)|);
  }

  /** A quote behind a word other than e opens a literal, whatever the word ends in. */
  lemma WordThenQuote(w: string, v: string, t: string)
    requires w != "" && w != "e" && w != "E" && forall c :: c in w ==> IsWordCode(c)
    ensures Scan(w + Quoted('\'', v) + ";" + t, 0, 0) == [Word(w), Semicolon] + Scan(t, 0, 0)
  {
    var value := Quoted('\'', v);
    var src := w + value + ";" + t;
    var q := |w|;
    var r := q + |value|;
    hide *;
    Parts(w, value, ";", t);
    QuoteHead(v);
    WordPlaced(src, w, value);
    QuotePlaced(src, q, v);
    WordStep(src, 0, w);
    SkippedStep(src, q, Quote('\'', v));
    SemicolonStep(src, r);
    TextBehind(src, t, r + 1);
    assert [Word(w)] + ([Semicolon] + Scan(t, 0, 0)) == [Word(w), Semicolon] + Scan(t, 0, 0);
  }

  lemma WordPlaced(src: string, w: string, b: string)
    requires w != "" && w != "e" && w != "E" && (forall c :: c in w ==> IsWordCode(c))
    requires Spells(src, 0, w) && Spells(src, |w|, b) && b != "" && !IsWordCode(b[0])
    ensures Placed(src, 0, Bare(w))
  {
    hide IsWordCode;
    assert src[|w|..|w| + |b|][0] == src[|w|];
  }

  lemma QuotePlaced(src: string, p: nat, v: string)
    requires Spells(src, p, Quoted('\'', v)) && Spells(src, p + |Quoted('\'', v)|, ";")
    ensures Placed(src, p, Quote('\'', v)) && Text(Quote('\'', v)) == Quoted('\'', v)
  {
    var r := p + |Quoted('\'', v)|;
    assert src[r..r + 1][0] == src[r];
    hide Quoted;
  }

  lemma QuoteHead(v: string)
    ensures Quoted('\'', v) != "" && !IsWordCode(Quoted('\'', v)[0])
  {
  }

  /** A dollar behind a word opens nothing. */
  lemma WordThenDollar(w: string, t: string)
    requires w != "" && forall c :: c in w ==> IsWordCode(c)
    ensures Scan(w + "$" + t, 0, 0) == [Word(w)] + Scan(t, 0, 0)
  {
    hide *;
    var src := w + "$" + t;
    var q := |w|;
    Parts(w, "$", "", t);
    assert w + "$" + "" + t == src;
    DollarPlaced(src, w);
    WordStep(src, 0, w);
    SkippedStep(src, q, Separator('$'));
    TextBehind(src, t, q + 1);
  }

  lemma DollarPlaced(src: string, w: string)
    requires w != "" && (forall c :: c in w ==> IsWordCode(c)) && Spells(src, 0, w) && Spells(src, |w|, "$")
    ensures Placed(src, 0, Bare(w)) && Placed(src, |w|, Separator('$'))
    ensures |Text(Separator('$'))| == 1 && StartsToken(src, |w| + 1)
  {
    var q := |w|;
    assert src[q..q + 1][0] == src[q] && src[..q] == w && src[q - 1] == w[q - 1];
    assert w[q - 1] in w;
    hide IsTag;
    NoTagBehind(src, q);
  }

  lemma BlankPlaced(src: string, w: string)
    requires w != "" && (forall c :: c in w ==> IsWordCode(c)) && Spells(src, 0, w) && Spells(src, |w|, " ")
    ensures Placed(src, 0, Bare(w)) && Placed(src, |w|, Separator(' '))
    ensures |Text(Separator(' '))| == 1 && StartsToken(src, |w| + 1)
  {
    assert src[|w|..|w| + 1][0] == src[|w|];
  }

  lemma NoTagBehind(src: string, p: nat)
    requires AfterWord(src, p)
    ensures !StartsTag(src, p)
  {
  }
}

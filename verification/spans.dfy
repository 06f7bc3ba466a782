/**
 The spans of internal/sqlscan/scanner.go against grammars that render a
 construct instead of scanning it.  For every construct: a rendered construct is
 spanned exactly, whatever follows it, and whatever is spanned was rendered.
 */
module Spans {
  import opened Wrappers
  import opened Lexer

  /** The text s stands at position i. */
  predicate Spells(rest: string, i: nat, s: string) {
    i + |s| <= |rest| && rest[i..i + |s|] == s
  }

  lemma SpellsConcat(rest: string, i: nat, a: string, b: string)
    ensures Spells(rest, i, a + b) <==> Spells(rest, i, a) && Spells(rest, i + |a|, b)
  {
    if i + |a| + |b| <= |rest| {
      assert rest[i..i + |a + b|] == rest[i..i + |a|] + rest[i + |a|..i + |a| + |b|];
      assert (a + b)[..|a|] == a && (a + b)[|a|..] == b;
      assert (rest[i..i + |a|] + rest[i + |a|..i + |a| + |b|])[..|a|] == rest[i..i + |a|];
      assert (rest[i..i + |a|] + rest[i + |a|..i + |a| + |b|])[|a|..] == rest[i + |a|..i + |a| + |b|];
    }
  }

  // ---- Quoted literals and identifiers: a quoted value with its quotes doubled ----

  function Double(q: char, value: string): string {
    if value == "" then ""
    else (if value[0] == q then [q, q] else [value[0]]) + Double(q, value[1..])
  }

  function Quoted(q: char, value: string): string {
    [q] + Double(q, value) + [q]
  }

  /** The scan of a quoted value steps over its first character. */
  lemma DoubleHead(q: char, rest: string, i: nat, value: string, t: string) returns (k: nat)
    requires i <= |rest| && value != "" && rest[i..] == Double(q, value) + [q] + t
    ensures 1 <= k && i + k <= |rest| && rest[i + k..] == Double(q, value[1..]) + [q] + t
    ensures QuoteEnd(rest, i, q) == QuoteEnd(rest, i + k, q)
  {
    var tail := Double(q, value) + [q] + t;
    k := if value[0] == q then 2 else 1;
    assert rest[i] == tail[0] && rest[i + 1] == tail[1];
    assert rest[i + k..] == tail[k..] == Double(q, value[1..]) + [q] + t;
  }

  lemma DoubleEnds(q: char, rest: string, i: nat, t: string)
    requires i <= |rest| && rest[i..] == Double(q, "") + [q] + t && (t != "" ==> t[0] != q)
    ensures QuoteEnd(rest, i, q) == Some(|rest| - |t|)
  {
    var tail := [q] + t;
    assert rest[i..] == tail && rest[i] == tail[0];
    if i + 1 < |rest| { assert rest[i + 1] == tail[1]; }
  }

  lemma {:induction false} DoubleIsSpanned(q: char, rest: string, i: nat, value: string, t: string)
    requires i <= |rest| && rest[i..] == Double(q, value) + [q] + t && (t != "" ==> t[0] != q)
    ensures QuoteEnd(rest, i, q) == Some(|rest| - |t|)
    decreases |value|
  {
    hide *;
    if value == "" {
      DoubleEnds(q, rest, i, t);
    } else {
      var k := DoubleHead(q, rest, i, value, t);
      DoubleIsSpanned(q, rest, i + k, value[1..], t);
    }
  }

  lemma {:induction false} SpannedIsDouble(q: char, rest: string, i: nat) returns (value: string)
    requires QuoteEnd(rest, i, q).Some?
    ensures var n := QuoteEnd(rest, i, q).value;
            rest[i..n] == Double(q, value) + [q] && (n < |rest| ==> rest[n] != q)
    decreases |rest| - i
  {
    var n := QuoteEnd(rest, i, q).value;
    if rest[i] != q || (i + 1 < |rest| && rest[i + 1] == q) {
      var k := if rest[i] == q then 2 else 1;
      var v := SpannedIsDouble(q, rest, i + k);
      value := [rest[i]] + v;
      assert value[1..] == v;
      assert rest[i..n] == rest[i..i + k] + rest[i + k..n];
      assert rest[i..i + k] == if rest[i] == q then [q, q] else [rest[i]];
    } else {
      value := "";
    }
  }

  /** A quoted value is skipped exactly, unless the quote that follows makes it go on. */
  lemma QuotedIsSkipped(q: char, value: string, t: string)
    requires t != "" ==> t[0] != q
    ensures QuoteEnd(Quoted(q, value) + t, 1, q) == Some(|Quoted(q, value)|)
  {
    var rest := Quoted(q, value) + t;
    assert rest[1..] == Double(q, value) + [q] + t;
    DoubleIsSpanned(q, rest, 1, value, t);
  }

  /** What a quote span skips is a quoted value, and no quote follows it. */
  lemma SkippedIsQuoted(q: char, rest: string) returns (value: string)
    requires rest != "" && rest[0] == q && QuoteEnd(rest, 1, q).Some?
    ensures var n := QuoteEnd(rest, 1, q).value;
            rest[..n] == Quoted(q, value) && (n < |rest| ==> rest[n] != q)
  {
    value := SpannedIsDouble(q, rest, 1);
    var n := QuoteEnd(rest, 1, q).value;
    assert rest[..n] == [q] + rest[1..n];
  }

  // ---- Escape strings: plain bytes, doubled quotes and escaped bytes ----

  datatype Atom = Plain(c: char) | DoubledQuote | Escaped(c: char)

  predicate WellFormed(atoms: seq<Atom>) {
    forall a :: a in atoms && a.Plain? ==> a.c != '\'' && a.c != '\\'
  }

  function RenderAtom(a: Atom): string {
    match a
    case Plain(c) => [c]
    case DoubledQuote => ['\'', '\'']
    case Escaped(c) => ['\\', c]
  }

  function RenderAtoms(atoms: seq<Atom>): string {
    if atoms == [] then "" else RenderAtom(atoms[0]) + RenderAtoms(atoms[1..])
  }

  lemma AtomHead(rest: string, i: nat, atoms: seq<Atom>)
    requires WellFormed(atoms) && atoms != [] && Spells(rest, i, RenderAtoms(atoms) + ['\''])
    ensures var k := |RenderAtom(atoms[0])|;
            && EscapeEnd(rest, i) == EscapeEnd(rest, i + k) && WellFormed(atoms[1..])
            && Spells(rest, i + k, RenderAtoms(atoms[1..]) + ['\''])
            && |RenderAtoms(atoms)| == k + |RenderAtoms(atoms[1..])|
  {
    hide Spells, EscapeEnd, RenderAtom;
    var a := RenderAtom(atoms[0]);
    var more := RenderAtoms(atoms[1..]) + ['\''];
    assert RenderAtoms(atoms) + ['\''] == a + more;
    SpellsConcat(rest, i, a, more);
    assert atoms[0] in atoms;
    AtomStands(rest, i, atoms[0]);
  }

  /** The scan of an escape string steps over one atom. */
  lemma AtomStands(rest: string, i: nat, a: Atom)
    requires (a.Plain? ==> a.c != '\'' && a.c != '\\') && Spells(rest, i, RenderAtom(a))
    ensures EscapeEnd(rest, i) == EscapeEnd(rest, i + |RenderAtom(a)|)
  {
    var s := RenderAtom(a);
    assert rest[i..i + |s|][0] == rest[i];
    if |s| > 1 {
      assert rest[i..i + |s|][1] == rest[i + 1];
    }
  }

  lemma {:induction false} AtomsAreSpanned(rest: string, i: nat, atoms: seq<Atom>)
    requires WellFormed(atoms) && Spells(rest, i, RenderAtoms(atoms) + ['\''])
    requires var n := i + |RenderAtoms(atoms)| + 1; n < |rest| ==> rest[n] != '\''
    ensures EscapeEnd(rest, i) == Some(i + |RenderAtoms(atoms)| + 1)
    decreases |atoms|
  {
    hide *;
    if atoms == [] {
      NoAtoms(rest, i, atoms);
    } else {
      AtomHead(rest, i, atoms);
      AtomsAreSpanned(rest, i + |RenderAtom(atoms[0])|, atoms[1..]);
    }
  }

  lemma NoAtoms(rest: string, i: nat, atoms: seq<Atom>)
    requires atoms == [] && Spells(rest, i, RenderAtoms(atoms) + ['\''])
    requires var n := i + |RenderAtoms(atoms)| + 1; n < |rest| ==> rest[n] != '\''
    ensures EscapeEnd(rest, i) == Some(i + |RenderAtoms(atoms)| + 1)
  {
    assert rest[i..i + 1] == ['\''];
  }

  lemma {:induction false} SpannedIsAtoms(rest: string, i: nat) returns (atoms: seq<Atom>)
    requires EscapeEnd(rest, i).Some?
    ensures var n := EscapeEnd(rest, i).value;
            WellFormed(atoms) && rest[i..n] == RenderAtoms(atoms) + ['\''] && (n < |rest| ==> rest[n] != '\'')
    decreases |rest| - i
  {
    hide *;
    if EscapeCloses(rest, i) {
      NoAtomsSpanned(rest, i);
      atoms := [];
    } else {
      var a := AtomSpanned(rest, i);
      var more := SpannedIsAtoms(rest, i + |RenderAtom(a)|);
      atoms := [a] + more;
      AtomsCons(rest, i, a, more);
    }
  }

  /** The quote that closes an escape string. */
  predicate EscapeCloses(rest: string, i: nat) {
    i < |rest| && rest[i] == '\'' && !(i + 1 < |rest| && rest[i + 1] == '\'')
  }

  lemma NoAtomsSpanned(rest: string, i: nat)
    requires EscapeCloses(rest, i)
    ensures EscapeEnd(rest, i) == Some(i + 1) && WellFormed([])
    ensures rest[i..i + 1] == RenderAtoms([]) + ['\''] && (i + 1 < |rest| ==> rest[i + 1] != '\'')
  {
    assert rest[i..i + 1] == ['\''];
  }

  lemma AtomSpanned(rest: string, i: nat) returns (a: Atom)
    requires EscapeEnd(rest, i).Some? && !EscapeCloses(rest, i)
    ensures (a.Plain? ==> a.c != '\'' && a.c != '\\') && |RenderAtom(a)| > 0 && Spells(rest, i, RenderAtom(a))
    ensures EscapeEnd(rest, i + |RenderAtom(a)|) == EscapeEnd(rest, i)
  {
    a := if rest[i] == '\\' then Escaped(rest[i + 1]) else if rest[i] == '\'' then DoubledQuote else Plain(rest[i]);
    assert rest[i..i + |RenderAtom(a)|] == RenderAtom(a);
  }

  lemma AtomsCons(rest: string, i: nat, a: Atom, more: seq<Atom>)
    requires (a.Plain? ==> a.c != '\'' && a.c != '\\') && WellFormed(more) && Spells(rest, i, RenderAtom(a))
    requires EscapeEnd(rest, i + |RenderAtom(a)|).Some?
    requires rest[i + |RenderAtom(a)|..EscapeEnd(rest, i + |RenderAtom(a)|).value] == RenderAtoms(more) + ['\'']
    ensures WellFormed([a] + more)
    ensures rest[i..EscapeEnd(rest, i + |RenderAtom(a)|).value] == RenderAtoms([a] + more) + ['\'']
  {
    hide EscapeEnd, RenderAtom;
    var k := |RenderAtom(a)|;
    var n := EscapeEnd(rest, i + k).value;
    assert ([a] + more)[1..] == more;
    assert rest[i..n] == rest[i..i + k] + rest[i + k..n];
    assert RenderAtom(a) + (RenderAtoms(more) + ['\'']) == RenderAtom(a) + RenderAtoms(more) + ['\''];
  }

  /** An escape string is skipped exactly, its E prefix included. */
  lemma EscapeStringIsSkipped(e: char, atoms: seq<Atom>, t: string)
    requires WellFormed(atoms) && (t != "" ==> t[0] != '\'')
    ensures var text := [e, '\''] + RenderAtoms(atoms) + ['\''];
            Closes(EscapeString, text + t) == Some(|text|)
  {
    var text := [e, '\''] + RenderAtoms(atoms) + ['\''];
    var rest := (text + t)[1..];
    assert rest == ['\''] + (RenderAtoms(atoms) + ['\'']) + t;
    assert rest[1..1 + |RenderAtoms(atoms)| + 1] == RenderAtoms(atoms) + ['\''];
    AtomsAreSpanned(rest, 1, atoms);
  }

  lemma SkippedIsEscapeString(rest: string) returns (atoms: seq<Atom>)
    requires |rest| > 1 && rest[1] == '\'' && Closes(EscapeString, rest).Some?
    ensures var n := Closes(EscapeString, rest).value;
            && WellFormed(atoms)
            && rest[..n] == [rest[0], '\''] + RenderAtoms(atoms) + ['\'']
            && (n < |rest| ==> rest[n] != '\'')
  {
    atoms := SpannedIsAtoms(rest[1..], 1);
    var n := Closes(EscapeString, rest).value;
    assert rest[..n] == [rest[0], '\''] + rest[1..][1..n - 1];
  }

  // ---- Block comments: properly nested trees of comments ----

  /** The inside of a comment up to and with its closing mark. */
  datatype Comment = Close | Text(c: char, next: Comment) | Nested(inner: Comment, next: Comment)

  function Render(p: Comment): (s: string)
    ensures |s| >= 2
  {
    match p
    case Close => "*/"
    case Text(c, next) => [c] + Render(next)
    case Nested(inner, next) => "/*" + Render(inner) + Render(next)
  }

  /** No two text bytes form a mark by accident. */
  predicate Canonical(p: Comment) {
    match p
    case Close => true
    case Text(c, next) =>
      Canonical(next) && !(c == '/' && Render(next)[0] == '*') && !(c == '*' && Render(next)[0] == '/')
    case Nested(inner, next) => Canonical(inner) && Canonical(next)
  }

  lemma SpellsMark(rest: string, i: nat, s: string)
    requires |s| >= 2 && Spells(rest, i, s)
    ensures i + 1 < |rest| && rest[i] == s[0] && rest[i + 1] == s[1]
    ensures Spells(rest, i + 1, s[1..])
  {
    SpellsConcat(rest, i, [s[0]], s[1..]);
    assert [s[0]] + s[1..] == s;
    assert rest[i..i + |s|][0] == rest[i] && rest[i..i + |s|][1] == rest[i + 1];
  }

  /** How the comment scan goes on at m when a nested comment of the given depth has closed there. */
  function After(rest: string, m: nat, depth: int): Option<nat> {
    if depth == 1 then Some(m) else BlockEnd(rest, m, depth - 1)
  }

  lemma BlockUnfold(rest: string, i: nat, depth: int)
    requires i < |rest| && depth >= 1
    ensures Pair(rest, i, '/', '*') ==> BlockEnd(rest, i, depth) == BlockEnd(rest, i + 2, depth + 1)
    ensures Pair(rest, i, '*', '/') ==> BlockEnd(rest, i, depth) == After(rest, i + 2, depth)
    ensures !Pair(rest, i, '/', '*') && !Pair(rest, i, '*', '/') ==>
            BlockEnd(rest, i, depth) == BlockEnd(rest, i + 1, depth)
  {
  }

  lemma AfterInner(rest: string, k: nat, depth: int)
    requires depth >= 1
    ensures After(rest, k, depth + 1) == BlockEnd(rest, k, depth)
  {
    hide BlockEnd;
  }

  /** What the first two bytes of a rendered comment are, and where its parts stand. */
  lemma RenderHead(rest: string, i: nat, p: Comment)
    requires Canonical(p) && Spells(rest, i, Render(p))
    ensures i < |rest|
    ensures p.Close? ==> Pair(rest, i, '*', '/') && |Render(p)| == 2
    ensures p.Text? ==>
            && !Pair(rest, i, '/', '*') && !Pair(rest, i, '*', '/')
            && Canonical(p.next) && Spells(rest, i + 1, Render(p.next)) && |Render(p)| == 1 + |Render(p.next)|
    ensures p.Nested? ==>
            && Pair(rest, i, '/', '*') && Canonical(p.inner) && Canonical(p.next)
            && Spells(rest, i + 2, Render(p.inner)) && Spells(rest, i + 2 + |Render(p.inner)|, Render(p.next))
            && |Render(p)| == 2 + |Render(p.inner)| + |Render(p.next)|
  {
    hide Spells;
    SpellsMark(rest, i, Render(p));
    match p
    case Close =>
    case Text(c, next) => assert Render(p)[1..] == Render(next);
    case Nested(inner, next) => NestedSpelling(rest, i, inner, next);
  }

  lemma {:induction false} RenderIsSpanned(rest: string, i: nat, p: Comment, depth: int)
    requires Canonical(p) && depth >= 1 && Spells(rest, i, Render(p))
    ensures BlockEnd(rest, i, depth) == After(rest, i + |Render(p)|, depth)
    decreases p
  {
    hide *;
    RenderHead(rest, i, p);
    BlockUnfold(rest, i, depth);
    match p
    case Close =>
    case Text(c, next) =>
      RenderIsSpanned(rest, i + 1, next, depth);
    case Nested(inner, next) =>
      var k := i + 2 + |Render(inner)|;
      RenderIsSpanned(rest, i + 2, inner, depth + 1);
      RenderIsSpanned(rest, k, next, depth);
      AfterInner(rest, k, depth);
  }

  lemma NestedSpelling(rest: string, i: nat, inner: Comment, next: Comment)
    ensures Spells(rest, i, Render(Nested(inner, next))) <==>
            Spells(rest, i, "/*") && Spells(rest, i + 2, Render(inner)) && Spells(rest, i + 2 + |Render(inner)|, Render(next))
  {
    hide Spells;
    SpellsConcat(rest, i, "/*" + Render(inner), Render(next));
    SpellsConcat(rest, i, "/*", Render(inner));
  }

  lemma TextSpelling(rest: string, i: nat, c: char, next: Comment)
    ensures Spells(rest, i, Render(Text(c, next))) <==> Spells(rest, i, [c]) && Spells(rest, i + 1, Render(next))
  {
    hide Spells;
    SpellsConcat(rest, i, [c], Render(next));
  }

  lemma CloseStands(rest: string, i: nat)
    requires Pair(rest, i, '*', '/')
    ensures Canonical(Close) && Spells(rest, i, Render(Close)) && |Render(Close)| == 2
  {
  }

  lemma TextStands(rest: string, i: nat, next: Comment)
    requires i < |rest| && !Pair(rest, i, '/', '*') && !Pair(rest, i, '*', '/')
    requires Canonical(next) && Spells(rest, i + 1, Render(next))
    ensures var p := Text(rest[i], next);
            Canonical(p) && Spells(rest, i, Render(p)) && |Render(p)| == 1 + |Render(next)|
  {
    SpellsMark(rest, i + 1, Render(next));
    assert Spells(rest, i, [rest[i]]);
    hide Spells;
    TextSpelling(rest, i, rest[i], next);
  }

  lemma NestedStands(rest: string, i: nat, inner: Comment, next: Comment)
    requires Pair(rest, i, '/', '*') && Canonical(inner) && Canonical(next)
    requires Spells(rest, i + 2, Render(inner)) && Spells(rest, i + 2 + |Render(inner)|, Render(next))
    ensures var p := Nested(inner, next);
            Canonical(p) && Spells(rest, i, Render(p)) && |Render(p)| == 2 + |Render(inner)| + |Render(next)|
  {
    assert Spells(rest, i, "/*");
    hide Spells;
    NestedSpelling(rest, i, inner, next);
  }

  lemma BlockEndsInside(rest: string, i: nat, depth: int)
    requires BlockEnd(rest, i, depth).Some?
    ensures i < |rest|
  {
  }

  lemma {:induction false} SpannedIsRender(rest: string, i: nat, depth: int) returns (p: Comment)
    requires depth >= 1 && BlockEnd(rest, i, depth).Some?
    ensures Canonical(p) && Spells(rest, i, Render(p))
    ensures BlockEnd(rest, i, depth) == After(rest, i + |Render(p)|, depth)
    decreases |rest| - i
  {
    hide *;
    BlockEndsInside(rest, i, depth);
    BlockUnfold(rest, i, depth);
    if Pair(rest, i, '/', '*') {
      var inner := SpannedIsRender(rest, i + 2, depth + 1);
      var k := i + 2 + |Render(inner)|;
      AfterInner(rest, k, depth);
      var next := SpannedIsRender(rest, k, depth);
      p := Nested(inner, next);
      NestedStands(rest, i, inner, next);
    } else if Pair(rest, i, '*', '/') {
      p := Close;
      CloseStands(rest, i);
    } else {
      var next := SpannedIsRender(rest, i + 1, depth);
      p := Text(rest[i], next);
      TextStands(rest, i, next);
    }
  }

  /** A nested comment is skipped exactly, whatever follows it. */
  lemma CommentIsSkipped(p: Comment, t: string)
    requires Canonical(p)
    ensures BlockEnd("/*" + Render(p) + t, 0, 0) == Some(2 + |Render(p)|)
  {
    hide Render, Canonical, BlockEnd;
    var rest := "/*" + Render(p) + t;
    assert rest[2..2 + |Render(p)|] == Render(p);
    RenderIsSpanned(rest, 2, p, 1);
    CommentOpens(rest);
  }

  lemma CommentOpens(rest: string)
    requires Pair(rest, 0, '/', '*')
    ensures BlockEnd(rest, 0, 0) == BlockEnd(rest, 2, 1)
    ensures forall m: nat :: After(rest, m, 1) == Some(m)
  {
  }

  /** What a comment span skips is one nested comment. */
  lemma SkippedIsComment(rest: string) returns (p: Comment)
    requires Pair(rest, 0, '/', '*') && BlockEnd(rest, 0, 0).Some?
    ensures Canonical(p) && rest[..BlockEnd(rest, 0, 0).value] == "/*" + Render(p)
  {
    p := SpannedIsRender(rest, 2, 1);
    var m := 2 + |Render(p)|;
    assert rest[..m] == "/*" + rest[2..m];
  }

  // ---- Line comments and dollar quotes: the first terminator wins ----

  lemma {:induction false} FirstNewline(rest: string, i: nat, n: nat)
    requires i <= n
    ensures NewlineFrom(rest, i) == Some(n) <==>
            n < |rest| && IsNewline(rest[n]) && forall m :: i <= m < n ==> !IsNewline(rest[m])
    decreases |rest| - i
  {
    if i < |rest| && i < n {
      FirstNewline(rest, i + 1, n);
    }
  }

  predicate OccursAt(rest: string, tag: string, m: nat) {
    m + |tag| <= |rest| && rest[m..m + |tag|] == tag
  }

  lemma {:induction false} FirstOccurrence(rest: string, tag: string, i: nat, n: nat)
    requires i <= n && tag != ""
    ensures IndexFrom(rest, tag, i) == Some(n) <==>
            OccursAt(rest, tag, n) && forall m :: i <= m < n ==> !OccursAt(rest, tag, m)
    decreases |rest| - i
  {
    hide *;
    IndexOne(rest, tag, i);
    if i + |tag| <= |rest| && i < n {
      FirstOccurrence(rest, tag, i + 1, n);
    } else if i < n {
      NotBehind(rest, tag, i, n);
    }
  }

  lemma IndexOne(rest: string, tag: string, i: nat)
    requires tag != ""
    ensures IndexFrom(rest, tag, i) ==
            if OccursAt(rest, tag, i) then Some(i) else if i + |tag| > |rest| then None else IndexFrom(rest, tag, i + 1)
    ensures IndexFrom(rest, tag, i).Some? ==> IndexFrom(rest, tag, i).value >= i
    ensures OccursAt(rest, tag, i) ==> i + |tag| <= |rest|
  {
  }

  lemma NotBehind(rest: string, tag: string, i: nat, n: nat)
    requires i <= n && i + |tag| > |rest|
    ensures !OccursAt(rest, tag, n)
  {
  }

  predicate IsTag(tag: string) {
    && |tag| >= 2 && tag[0] == '$' && tag[|tag| - 1] == '$'
    && (forall j :: 1 <= j < |tag| - 1 ==> IsWordByte(tag[j]))
    && (|tag| > 2 ==> !('0' <= tag[1] <= '9'))
  }

  lemma {:induction false} TagFromIsTag(rest: string, i: nat)
    requires 1 <= i && rest != "" && rest[0] == '$'
    requires forall j :: 1 <= j < i && j < |rest| ==> IsWordByte(rest[j])
    requires i > 1 && |rest| > 1 ==> !('0' <= rest[1] <= '9')
    ensures TagFrom(rest, i).Some? ==> IsTag(TagFrom(rest, i).value)
    decreases |rest| - i
  {
    if i < |rest| && rest[i] != '$' && IsWordByte(rest[i]) && !(i == 1 && '0' <= rest[i] <= '9') {
      TagFromIsTag(rest, i + 1);
    }
  }

  lemma {:induction false} TagIsFound(rest: string, tag: string, i: nat)
    requires IsTag(tag) && 1 <= i < |tag| && tag <= rest
    ensures TagFrom(rest, i) == Some(tag)
    decreases |tag| - i
  {
    assert rest[..|tag|] == tag;
    assert rest[i] == tag[i];
    if i < |tag| - 1 {
      TagIsFound(rest, tag, i + 1);
    }
  }

  /** A dollar quote opens with a prefix that is a tag, and with no other. */
  lemma DollarTagGrammar(rest: string, tag: string)
    requires rest != "" && rest[0] == '$'
    ensures TagFrom(rest, 1) == Some(tag) <==> IsTag(tag) && tag <= rest
  {
    TagFromIsTag(rest, 1);
    if IsTag(tag) && tag <= rest {
      TagIsFound(rest, tag, 1);
    }
  }

  /** A dollar quote runs from its tag to the first later occurrence of the tag. */
  lemma DollarQuoteGrammar(rest: string, tag: string, n: nat)
    requires tag != "" && tag <= rest && 2 * |tag| <= n
    ensures Closes(DollarQuoted(tag), rest) == Some(n) <==>
            OccursAt(rest, tag, n - |tag|) && forall m :: |tag| <= m < n - |tag| ==> !OccursAt(rest, tag, m)
  {
    hide OccursAt, IndexFrom;
    FirstOccurrence(rest, tag, |tag|, n - |tag|);
  }
}

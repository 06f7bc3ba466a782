/**
 Lexing is local: what opens, closes and is skipped at a position does not
 change when the text is cut at an inert byte behind it, or when a prefix that
 ends in a token separator is dropped.  Every whole-text result about Split and
 the word scan rests on these facts.
 */
module Locality {
  import opened Wrappers
  import opened Lexer

  /** Bytes that can neither open, extend nor close a construct they follow. */
  predicate Inert(c: char) {
    !IsWordByte(c) && c != '\'' && c != '"' && c != '-' && c != '*' && c != '/' && c != '$'
  }

  /** A position at which a text may be cut without changing the tokens before it. */
  predicate CutPoint(src: string, b: nat) {
    b <= |src| && (b < |src| ==> Inert(src[b]))
  }

  function Within(r: Option<nat>, k: nat): Option<nat> {
    if r.Some? && r.value <= k then r else None
  }

  lemma {:induction false} TagCut(rest: string, i: nat, k: nat)
    requires 1 <= i <= k && CutPoint(rest, k)
    ensures TagFrom(rest[..k], i) == TagFrom(rest, i)
    decreases |rest| - i
  {
    if i < k && rest[i] != '$' && IsWordByte(rest[i]) {
      TagCut(rest, i + 1, k);
    } else if i < k && rest[i] == '$' {
      assert rest[..k][..i + 1] == rest[..i + 1];
    }
  }

  lemma OpensCut(src: string, b: nat, p: nat)
    requires p < b && CutPoint(src, b)
    ensures Opens(src[..b], p) == Opens(src, p)
  {
    assert src[..b][p..] == src[p..][..b - p];
    TagCutAt(src[p..], b - p);
  }

  lemma TagCutAt(rest: string, k: nat)
    requires 1 <= k && CutPoint(rest, k)
    ensures TagFrom(rest[..k], 1) == TagFrom(rest, 1)
  {
    TagCut(rest, 1, k);
  }

  /** Dropping a prefix that ends in a separator changes no token. */
  lemma OpensDrop(src: string, a: nat, p: nat)
    requires a <= p < |src| && StartsToken(src, a)
    ensures Opens(src[a..], p - a) == Opens(src, p)
  {
    assert src[a..][p - a..] == src[p..];
  }

  lemma {:induction false} NewlineCut(rest: string, i: nat, k: nat)
    requires k <= |rest|
    ensures NewlineFrom(rest[..k], i) == if k > 0 then Within(NewlineFrom(rest, i), k - 1) else None
    decreases |rest| - i
  {
    if i < |rest| && !IsNewline(rest[i]) {
      NewlineCut(rest, i + 1, k);
    }
  }

  lemma {:induction false} BlockCut(rest: string, i: nat, depth: int, k: nat)
    requires k <= |rest|
    ensures BlockEnd(rest[..k], i, depth) == Within(BlockEnd(rest, i, depth), k)
    decreases |rest| - i
  {
    if i < |rest| {
      if Pair(rest, i, '/', '*') {
        BlockCut(rest, i + 2, depth + 1, k);
      } else if Pair(rest, i, '*', '/') {
        if depth != 1 {
          BlockCut(rest, i + 2, depth - 1, k);
        }
      } else {
        BlockCut(rest, i + 1, depth, k);
      }
      if i + 1 == k {
        assert BlockEnd(rest[..k], k, depth) == None;
      }
    }
  }

  lemma {:induction false} QuoteCut(rest: string, i: nat, q: char, k: nat)
    requires k <= |rest| && (k < |rest| ==> rest[k] != q)
    ensures QuoteEnd(rest[..k], i, q) == Within(QuoteEnd(rest, i, q), k)
    decreases |rest| - i
  {
    if i < |rest| {
      if rest[i] != q {
        QuoteCut(rest, i + 1, q, k);
      } else if i + 1 < |rest| && rest[i + 1] == q {
        QuoteCut(rest, i + 2, q, k);
      }
    }
  }

  lemma {:induction false} EscapeCut(rest: string, i: nat, k: nat)
    requires k <= |rest| && (k < |rest| ==> rest[k] != '\'')
    ensures EscapeEnd(rest[..k], i) == Within(EscapeEnd(rest, i), k)
    decreases |rest| - i
  {
    if i < |rest| {
      if rest[i] == '\\' {
        EscapeCut(rest, i + 2, k);
      } else if rest[i] != '\'' {
        EscapeCut(rest, i + 1, k);
      } else if i + 1 < |rest| && rest[i + 1] == '\'' {
        EscapeCut(rest, i + 2, k);
      }
    }
  }

  lemma {:induction false} IndexCut(rest: string, tag: string, i: nat, k: nat)
    requires k <= |rest|
    ensures IndexFrom(rest[..k], tag, i) ==
            if IndexFrom(rest, tag, i).Some? && IndexFrom(rest, tag, i).value + |tag| <= k
            then IndexFrom(rest, tag, i) else None
    decreases |rest| - i
  {
    if i + |tag| <= k {
      assert rest[..k][i..i + |tag|] == rest[i..i + |tag|];
      if i < |rest| && rest[i..i + |tag|] != tag {
        IndexCut(rest, tag, i + 1, k);
      }
    }
  }

  /** A cut keeps exactly the closings that lie before it; a line comment needs its newline too. */
  lemma ClosesCut(c: Construct, rest: string, k: nat)
    requires 0 < k && CutPoint(rest, k)
    ensures Closes(c, rest[..k]) ==
            if c.LineComment? then Within(Closes(c, rest), k - 1) else Within(Closes(c, rest), k)
  {
    match c
    case LineComment => NewlineCut(rest, 0, k);
    case BlockComment => BlockCut(rest, 0, 0, k);
    case Literal => QuoteCut(rest, 1, '\'', k);
    case Identifier => QuoteCut(rest, 1, '"', k);
    case EscapeString =>
      assert rest[..k][1..] == rest[1..][..k - 1];
      EscapeCut(rest[1..], 1, k - 1);
    case DollarQuoted(tag) => IndexCut(rest, tag, |tag|, k);
  }

  /** Cutting behind p shortens what is skipped at p to the cut, and changes nothing else. */
  lemma SkipCut(src: string, b: nat, p: nat)
    requires p < b && CutPoint(src, b)
    ensures SkipLen(src[..b], p) == if p + SkipLen(src, p) <= b then SkipLen(src, p) else b - p
  {
    OpensCut(src, b, p);
    assert src[..b][p..] == src[p..][..b - p];
    if Opens(src, p).Some? {
      ClosesCut(Opens(src, p).value, src[p..], b - p);
    }
  }
}

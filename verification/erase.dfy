/**
 The verdict cannot depend on the bytes inside literals, quoted identifiers,
 dollar quotes and comments: blanking every one of them out leaves the token
 stream as it was.
 */
module Erasure {
  import opened Wrappers
  import opened Lexer
  import opened Trimming
  import opened Statements
  import opened TwoPass

  function Spaces(n: nat): string {
    seq(n, _ => ' ')
  }

  /** The text from the token position p on, with each skipped construct blanked out. */
  function Erase(src: string, p: nat): (t: string)
    requires p <= |src|
    ensures |t| == |src| - p
    decreases |src| - p
  {
    if p == |src| then ""
    else if SkipLen(src, p) > 0 then Spaces(SkipLen(src, p)) + Erase(src, p + SkipLen(src, p))
    else [src[p]] + Erase(src, p + 1)
  }

  ghost predicate Erased(t: string, src: string, p: nat) {
    |t| == |src| && p <= |src| && t[p..] == Erase(src, p)
  }

  lemma ErasedByte(t: string, src: string, p: nat)
    requires Erased(t, src, p) && p < |src|
    ensures SkipLen(src, p) == 0 ==> t[p] == src[p] && Erased(t, src, p + 1)
    ensures SkipLen(src, p) > 0 ==>
            Erased(t, src, p + SkipLen(src, p)) && forall i :: p <= i < p + SkipLen(src, p) ==> t[i] == ' '
  {
    hide SkipLen;
    var n := SkipLen(src, p);
    assert t[p] == t[p..][0];
    if n > 0 {
      assert t[p..][n..] == t[p + n..];
      forall i | p <= i < p + n ensures t[i] == ' ' {
        assert t[i] == t[p..][i - p];
      }
    } else {
      assert t[p..][1..] == t[p + 1..];
    }
  }

  /** A tag that survives in the erased text was there before. */
  lemma {:induction false} ErasedTag(t: string, src: string, p: nat, i: nat)
    requires 1 <= i && p + i <= |src| && Erased(t, src, p + i) && t[p..p + i] == src[p..p + i]
    requires TagFrom(t[p..], i).Some?
    ensures TagFrom(src[p..], i) == TagFrom(t[p..], i)
    decreases |src| - p - i
  {
    hide SkipLen, Erase;
    var q := p + i;
    assert t[p..][..i] == t[p..p + i] && src[p..][..i] == src[p..p + i];
    if q < |src| {
      ErasedByte(t, src, q);
      assert t[p..][i] == t[q] && src[p..][i] == src[q];
      if SkipLen(src, q) == 0 {
        assert t[p..q + 1] == t[p..q] + [t[q]];
        assert src[p..q + 1] == src[p..q] + [src[q]];
        if t[q] == '$' {
          assert t[p..][..i + 1] == t[p..q + 1];
          assert src[p..][..i + 1] == src[p..q + 1];
        } else {
          ErasedTag(t, src, p, i + 1);
        }
      }
    }
  }

  /** No construct opens at a plain byte of the erased text. */
  lemma NothingOpens(t: string, src: string, p: nat)
    requires Erased(t, src, p) && p < |src| && SkipLen(src, p) == 0
    requires StartsToken(t, p) ==> StartsToken(src, p)
    ensures SkipLen(t, p) == 0
  {
    ErasedByte(t, src, p);
    assert Opens(src, p) == None;
    if p + 1 < |src| {
      ErasedByte(t, src, p + 1);
    }
    if Opens(t, p).Some? && t[p] == '$' {
      assert t[p..p + 1] == [t[p]] == src[p..p + 1];
      ErasedTag(t, src, p, 1);
    }
  }

  /** Behind a construct a new token starts, unless a line comment leaves its newline there. */
  lemma AfterConstruct(src: string, p: nat)
    requires p < |src| && SkipLen(src, p) > 0
    ensures var q := p + SkipLen(src, p);
            StartsToken(src, q) || q == |src| || IsNewline(src[q])
  {
    var c := Opens(src, p).value;
    ClosesAtMark(c, src, p);
    hide Opens;
    if Closes(c, src[p..]).Some? && c.LineComment? {
      assert src[p..][SkipLen(src, p)] == src[p + SkipLen(src, p)];
    }
  }

  lemma PlainStep(t: string, src: string, w: nat, p: nat)
    requires w <= p < |src| == |t| && t[w..p] == src[w..p] && t[p] == src[p]
    requires SkipLen(src, p) == 0 && SkipLen(t, p) == 0
    ensures Step(t, w, p) == Step(src, w, p)
  {
    hide SkipLen;
  }

  lemma {:induction false} EraseScan(t: string, src: string, w: nat, p: nat)
    requires w <= p <= |src| == |t| && Erased(t, src, p) && t[w..p] == src[w..p]
    requires StartsToken(t, p) ==> StartsToken(src, p) || p == |src| || IsNewline(src[p])
    ensures Scan(t, w, p) == Scan(src, w, p)
    decreases |src| - p
  {
    hide *;
    if p == |src| {
      AtTheEnd(t, w);
      AtTheEnd(src, w);
      SamePending(t, src, w, p);
    } else {
      var n := SkipLen(src, p);
      ErasedByte(t, src, p);
      if n > 0 {
        SkippedRegion(t, src, w, p);
        EmptyFrom(t, src, p + n);
        EraseScan(t, src, p + n, p + n);
      } else {
        SameStep(t, src, w, p);
        NextWord(t, src, w, p);
        ScanOne(t, w, p);
        ScanOne(src, w, p);
        EraseScan(t, src, Step(src, w, p).word, p + 1);
      }
    }
  }

  lemma EmptyFrom(t: string, src: string, q: nat)
    requires q <= |src| == |t|
    ensures t[q..q] == src[q..q]
  {
  }

  /** A plain byte is read alike in both texts. */
  lemma SameStep(t: string, src: string, w: nat, p: nat)
    requires w <= p < |src| == |t| && Erased(t, src, p) && t[w..p] == src[w..p] && SkipLen(src, p) == 0 && t[p] == src[p]
    requires StartsToken(t, p) ==> StartsToken(src, p) || IsNewline(src[p])
    ensures Step(t, w, p) == Step(src, w, p)
  {
    hide SkipLen, Erase, Step, StartsToken, Erased;
    if IsNewline(src[p]) {
      BlankStep(t, w, p);
      BlankStep(src, w, p);
      SamePending(t, src, w, p);
    } else {
      NothingOpens(t, src, p);
      PlainStep(t, src, w, p);
    }
  }

  lemma SamePending(t: string, src: string, w: nat, p: nat)
    requires w <= p <= |src| == |t| && t[w..p] == src[w..p]
    ensures Pending(t, w, p) == Pending(src, w, p)
  {
  }

  lemma NextWord(t: string, src: string, w: nat, p: nat)
    requires w <= p < |src| == |t| && t[w..p] == src[w..p] && t[p] == src[p] && SkipLen(src, p) == 0
    ensures var a := Step(src, w, p); a.pos == p + 1 && t[a.word..p + 1] == src[a.word..p + 1]
    ensures StartsToken(t, p + 1) == StartsToken(src, p + 1)
  {
    hide SkipLen;
    assert t[w..p + 1] == t[w..p] + [t[p]];
    assert src[w..p + 1] == src[w..p] + [src[p]];
  }

  /** The blanks that replace a construct end the pending word and yield nothing else. */
  lemma SkippedRegion(t: string, src: string, w: nat, p: nat)
    requires w <= p < |src| == |t| && Erased(t, src, p) && t[w..p] == src[w..p] && SkipLen(src, p) > 0
    ensures var q := p + SkipLen(src, p);
            && Erased(t, src, q)
            && Scan(t, w, p) == Pending(src, w, p) + Scan(t, q, q)
            && Scan(src, w, p) == Pending(src, w, p) + Scan(src, q, q)
            && (StartsToken(src, q) || q == |src| || IsNewline(src[q]))
  {
    hide *;
    AfterConstruct(src, p);
    ErasedByte(t, src, p);
    ConstructStep(src, w, p);
    ScanOne(src, w, p);
    BlanksYieldNothing(t, w, p, p + SkipLen(src, p));
    SamePending(t, src, w, p);
  }

  lemma BlanksYieldNothing(t: string, w: nat, p: nat, q: nat)
    requires w <= p < q <= |t| && forall i :: p <= i < q ==> t[i] == ' '
    ensures Scan(t, w, p) == Pending(t, w, p) + Scan(t, q, q)
  {
    assert Blanks(t, p + 1, q);
    assert IsBlank(t[p]);
    hide *;
    BlankStep(t, w, p);
    ScanOne(t, w, p);
    LeadingBlanks(t, p + 1, q);
  }

  lemma ConstructStep(src: string, w: nat, p: nat)
    requires w <= p < |src| && SkipLen(src, p) > 0
    ensures Step(src, w, p) == Advance(Pending(src, w, p), p + SkipLen(src, p), p + SkipLen(src, p))
  {
    hide SkipLen;
  }

  /** Erasing every skipped construct changes neither the token stream nor the verdict. */
  lemma VerdictIgnoresSkippedBytes(sql: string)
    ensures Scan(Erase(sql, 0), 0, 0) == Scan(sql, 0, 0)
    ensures IsReadOnly(Erase(sql, 0)) <==> IsReadOnly(sql)
  {
    hide Scan, Erase;
    var t := Erase(sql, 0);
    assert t[0..] == t;
    EraseScan(t, sql, 0, 0);
  }
}

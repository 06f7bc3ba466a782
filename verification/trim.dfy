/**
 strings.TrimSpace over the bytes of a Go string: the ASCII white space bytes and
 the UTF-8 encodings of the other Unicode white space characters are removed at
 both ends.  Only two facts matter to the scanner: every removed byte is blank,
 and trimming is stable.
 */
module Trimming {

  predicate IsAsciiSpace(c: char) {
    c == '\t' || c == '\n' || c == '\U{0B}' || c == '\U{0C}' || c == '\r' || c == ' '
  }

  /** U+0085 and U+00A0. */
  predicate IsSpace2(c: char, d: char) {
    c == '\U{C2}' && (d == '\U{85}' || d == '\U{A0}')
  }

  /** U+1680, U+2000 to U+200A, U+2028, U+2029, U+202F, U+205F and U+3000. */
  predicate IsSpace3(c: char, d: char, e: char) {
    || (c == '\U{E1}' && d == '\U{9A}' && e == '\U{80}')
    || (c == '\U{E2}' && d == '\U{80}' && ('\U{80}' <= e <= '\U{8A}' || e == '\U{A8}' || e == '\U{A9}' || e == '\U{AF}'))
    || (c == '\U{E2}' && d == '\U{81}' && e == '\U{9F}')
    || (c == '\U{E3}' && d == '\U{80}' && e == '\U{80}')
  }

  /** The number of bytes of the white space character s starts with, or 0. */
  function LeadingSpace(s: string): (n: nat)
    ensures n <= |s|
  {
    if |s| >= 1 && IsAsciiSpace(s[0]) then 1
    else if |s| >= 2 && IsSpace2(s[0], s[1]) then 2
    else if |s| >= 3 && IsSpace3(s[0], s[1], s[2]) then 3
    else 0
  }

  function TrailingSpace(s: string): (n: nat)
    ensures n <= |s|
  {
    if |s| >= 1 && IsAsciiSpace(s[|s| - 1]) then 1
    else if |s| >= 2 && IsSpace2(s[|s| - 2], s[|s| - 1]) then 2
    else if |s| >= 3 && IsSpace3(s[|s| - 3], s[|s| - 2], s[|s| - 1]) then 3
    else 0
  }

  function TrimLeft(s: string): string
    decreases |s|
  {
    if LeadingSpace(s) == 0 then s else TrimLeft(s[LeadingSpace(s)..])
  }

  function TrimRight(s: string): string
    decreases |s|
  {
    if TrailingSpace(s) == 0 then s else TrimRight(s[..|s| - TrailingSpace(s)])
  }

  function Trim(s: string): string {
    TrimRight(TrimLeft(s))
  }

  predicate IsBlank(c: char) {
    IsAsciiSpace(c) || c >= '\U{80}'
  }

  predicate Blanks(s: string, i: nat, j: nat)
    requires j <= |s|
  {
    forall k :: i <= k < j ==> IsBlank(s[k])
  }

  lemma TrimLeftOne(s: string)
    ensures TrimLeft(s) == if LeadingSpace(s) == 0 then s else TrimLeft(s[LeadingSpace(s)..])
    ensures Blanks(s, 0, LeadingSpace(s))
  {
    hide TrimLeft;
    TrimLeftUnfold(s);
  }

  lemma TrimLeftUnfold(s: string)
    ensures TrimLeft(s) == if LeadingSpace(s) == 0 then s else TrimLeft(s[LeadingSpace(s)..])
  {
    hide LeadingSpace;
  }

  lemma TrimRightOne(s: string)
    ensures TrimRight(s) == if TrailingSpace(s) == 0 then s else TrimRight(s[..|s| - TrailingSpace(s)])
    ensures Blanks(s, |s| - TrailingSpace(s), |s|)
  {
    hide TrimRight;
    TrimRightUnfold(s);
  }

  lemma TrimRightUnfold(s: string)
    ensures TrimRight(s) == if TrailingSpace(s) == 0 then s else TrimRight(s[..|s| - TrailingSpace(s)])
  {
    hide TrailingSpace;
  }

  lemma NoBlanks(s: string, i: nat)
    requires i <= |s|
    ensures Blanks(s, i, i)
  {
  }

  /** Blanks in front and blanks behind them. */
  lemma BlanksBehind(s: string, n: nat, k: nat)
    requires n + k <= |s| && Blanks(s, 0, n) && Blanks(s[n..], 0, k)
    ensures Blanks(s, 0, n + k)
  {
    hide IsBlank;
    forall i | 0 <= i < n + k ensures IsBlank(s[i]) {
      if i >= n { assert s[n..][i - n] == s[i]; }
    }
  }

  lemma BlanksBefore(s: string, n: nat, k: nat)
    requires k <= n <= |s| && Blanks(s, n, |s|) && Blanks(s[..n], k, n)
    ensures Blanks(s, k, |s|)
  {
    hide IsBlank;
    forall i | k <= i < |s| ensures IsBlank(s[i]) {
      if i < n { assert s[..n][i] == s[i]; }
    }
  }

  lemma {:induction false} TrimLeftIsSuffix(s: string) returns (lo: nat)
    ensures lo <= |s| && TrimLeft(s) == s[lo..] && Blanks(s, 0, lo) && LeadingSpace(s[lo..]) == 0
    decreases |s|
  {
    hide *;
    var n := LeadingSpace(s);
    TrimLeftOne(s);
    lo := 0;
    if n == 0 {
      assert s[lo..] == s;
      NoBlanks(s, 0);
    } else {
      var t := s[n..];
      var k := TrimLeftIsSuffix(t);
      lo := n + k;
      assert t[k..] == s[lo..];
      BlanksBehind(s, n, k);
    }
  }

  lemma {:induction false} TrimRightIsPrefix(s: string) returns (hi: nat)
    ensures hi <= |s| && TrimRight(s) == s[..hi] && Blanks(s, hi, |s|) && TrailingSpace(s[..hi]) == 0
    decreases |s|
  {
    hide *;
    var n := TrailingSpace(s);
    TrimRightOne(s);
    hi := |s|;
    if n == 0 {
      assert s[..hi] == s;
      NoBlanks(s, hi);
    } else {
      var t := s[..|s| - n];
      hi := TrimRightIsPrefix(t);
      assert t[..hi] == s[..hi];
      BlanksBefore(s, |t|, hi);
    }
  }

  /** Trim removes nothing but blanks, leaves no white space at either end, and is idempotent. */
  lemma TrimIsSlice(s: string) returns (lo: nat, hi: nat)
    ensures lo <= hi <= |s| && Trim(s) == s[lo..hi]
    ensures Blanks(s, 0, lo) && Blanks(s, hi, |s|)
    ensures LeadingSpace(Trim(s)) == 0 && TrailingSpace(Trim(s)) == 0
    ensures Trim(Trim(s)) == Trim(s)
  {
    lo := TrimLeftIsSuffix(s);
    var t := s[lo..];
    var k := TrimRightIsPrefix(t);
    hi := lo + k;
    assert t[..k] == s[lo..hi];
    forall i | hi <= i < |s| ensures IsBlank(s[i]) {
      assert t[i - lo] == s[i];
    }
    PrefixLeadingSpace(t, k);
  }

  lemma PrefixLeadingSpace(t: string, k: nat)
    requires k <= |t| && LeadingSpace(t) == 0
    ensures LeadingSpace(t[..k]) == 0
  {
  }

  lemma {:induction false} TrimLeftNewline(s: string)
    ensures TrimLeft(s + "\n") == if TrimLeft(s) == "" then "" else TrimLeft(s) + "\n"
    decreases |s|
  {
    var n := LeadingSpace(s);
    if s == "" {
      assert s + "\n" == "\n";
      assert LeadingSpace("\n") == 1 && "\n"[1..] == "";
    } else if n == 0 {
      assert LeadingSpace(s + "\n") == 0;
    } else {
      assert LeadingSpace(s + "\n") == n;
      assert (s + "\n")[n..] == s[n..] + "\n";
      TrimLeftNewline(s[n..]);
    }
  }

  /** A newline added before a separator disappears again in the trimmed piece. */
  lemma TrimNewline(s: string)
    ensures Trim(s + "\n") == Trim(s)
  {
    TrimLeftNewline(s);
    var t := TrimLeft(s);
    if t != "" {
      assert TrailingSpace(t + "\n") == 1;
      assert (t + "\n")[..|t|] == t;
    }
  }

  // ---- White space, code by code ----

  /** The UTF-8 encoding of a white space character, by its code. */
  predicate IsSpace(w: string) {
    || (|w| == 1 && (9 <= w[0] as int <= 13 || w[0] as int == 32))
    || (|w| == 2 && w[0] as int == 0xC2 && (w[1] as int == 0x85 || w[1] as int == 0xA0))
    || (|w| == 3 && 0xE0 <= w[0] as int <= 0xEF && 0x80 <= w[1] as int <= 0xBF && 0x80 <= w[2] as int <= 0xBF
        && var code := (w[0] as int - 0xE0) * 4096 + (w[1] as int - 0x80) * 64 + (w[2] as int - 0x80);
           || code == 0x1680 || 0x2000 <= code <= 0x200A || code == 0x2028 || code == 0x2029 || code == 0x202F
           || code == 0x205F || code == 0x3000)
  }

  lemma SpaceCodes(c: char, d: char, e: char)
    ensures IsAsciiSpace(c) <==> IsSpace([c])
    ensures IsSpace2(c, d) <==> IsSpace([c, d])
    ensures IsSpace3(c, d, e) <==> IsSpace([c, d, e])
  {
  }

  /** A text starts with white space exactly when some character's encoding is a prefix of it. */
  lemma LeadingIs(s: string)
    ensures LeadingSpace(s) > 0 ==> IsSpace(s[..LeadingSpace(s)])
    ensures forall w :: w <= s && IsSpace(w) ==> LeadingSpace(s) > 0
  {
    hide IsSpace, LeadingSpace;
    LeadingCases(s);
    forall w | w <= s && IsSpace(w) ensures LeadingSpace(s) > 0 {
      SpaceStarts(s, w);
    }
  }

  lemma LeadingCases(s: string)
    ensures LeadingSpace(s) > 0 ==> IsSpace(s[..LeadingSpace(s)])
  {
    hide IsSpace, IsAsciiSpace, IsSpace2, IsSpace3;
    var k := LeadingSpace(s);
    if k == 1 {
      assert s[..1] == [s[0]];
      SpaceCodes(s[0], s[0], s[0]);
    } else if k == 2 {
      assert s[..2] == [s[0], s[1]];
      SpaceCodes(s[0], s[1], s[0]);
    } else if k == 3 {
      assert s[..3] == [s[0], s[1], s[2]];
      SpaceCodes(s[0], s[1], s[2]);
    }
  }

  lemma SpaceStarts(s: string, w: string)
    requires w <= s && IsSpace(w)
    ensures LeadingSpace(s) > 0
  {
    SpaceLength(w);
    hide IsSpace, IsAsciiSpace, IsSpace2, IsSpace3;
    if |w| == 1 {
      assert w == [s[0]];
      SpaceCodes(s[0], s[0], s[0]);
    } else if |w| == 2 {
      assert w == [s[0], s[1]];
      SpaceCodes(s[0], s[1], s[0]);
    } else {
      assert w == [s[0], s[1], s[2]];
      SpaceCodes(s[0], s[1], s[2]);
    }
  }

  /** The last one, two and three bytes. */
  lemma LastBytes(s: string)
    ensures |s| >= 1 ==> s[|s| - 1..] == [s[|s| - 1]]
    ensures |s| >= 2 ==> s[|s| - 2..] == [s[|s| - 2], s[|s| - 1]]
    ensures |s| >= 3 ==> s[|s| - 3..] == [s[|s| - 3], s[|s| - 2], s[|s| - 1]]
  {
  }

  lemma TrailingIs(s: string)
    ensures TrailingSpace(s) > 0 ==> IsSpace(s[|s| - TrailingSpace(s)..])
  {
    hide IsSpace, IsAsciiSpace, IsSpace2, IsSpace3, TrailingSpace;
    TrailingCases(s);
    LastBytes(s);
    var n := |s|;
    var k := TrailingSpace(s);
    if k == 1 {
      SpaceCodes(s[n - 1], s[n - 1], s[n - 1]);
    } else if k == 2 {
      SpaceCodes(s[n - 2], s[n - 1], s[n - 1]);
    } else if k == 3 {
      SpaceCodes(s[n - 3], s[n - 2], s[n - 1]);
    }
  }

  lemma TrailingCases(s: string)
    ensures var n, k := |s|, TrailingSpace(s);
            && k <= 3 && k <= n
            && (k == 1 ==> IsAsciiSpace(s[n - 1]))
            && (k == 2 ==> IsSpace2(s[n - 2], s[n - 1]))
            && (k == 3 ==> IsSpace3(s[n - 3], s[n - 2], s[n - 1]))
  {
    hide IsAsciiSpace, IsSpace2, IsSpace3;
  }

  lemma SpaceEnds(s: string, k: nat)
    requires k <= |s| && IsSpace(s[k..])
    ensures TrailingSpace(s) > 0
  {
    var w := s[k..];
    SpaceLength(w);
    hide IsSpace, IsAsciiSpace, IsSpace2, IsSpace3;
    if |w| == 1 {
      assert w == [s[k]];
      SpaceCodes(s[k], s[k], s[k]);
    } else if |w| == 2 {
      assert w == [s[k], s[k + 1]];
      SpaceCodes(s[k], s[k + 1], s[k]);
    } else {
      assert w == [s[k], s[k + 1], s[k + 2]];
      SpaceCodes(s[k], s[k + 1], s[k + 2]);
    }
  }

  lemma SpaceLength(w: string)
    requires IsSpace(w)
    ensures 1 <= |w| <= 3
  {
  }

  /** Texts one behind the other. */
  function Flat(ws: seq<string>): string {
    if ws == [] then "" else ws[0] + Flat(ws[1..])
  }

  predicate AllSpace(ws: seq<string>) {
    forall i :: 0 <= i < |ws| ==> IsSpace(ws[i])
  }

  lemma {:induction false} LeftIsCut(s: string) returns (ws: seq<string>)
    ensures AllSpace(ws) && s == Flat(ws) + TrimLeft(s)
    decreases |s|
  {
    hide *;
    TrimLeftUnfold(s);
    LeadingIs(s);
    var n := LeadingSpace(s);
    if n == 0 {
      ws := [];
      NothingFlat();
      assert "" + s == s;
    } else {
      var more := LeftIsCut(s[n..]);
      ws := [s[..n]] + more;
      FlatCons(s[..n], more);
      assert s == s[..n] + s[n..];
      assert s[..n] + (Flat(more) + TrimLeft(s[n..])) == s[..n] + Flat(more) + TrimLeft(s[n..]);
    }
  }

  lemma {:induction false} RightIsCut(s: string) returns (ws: seq<string>)
    ensures AllSpace(ws) && s == TrimRight(s) + Flat(ws)
    decreases |s|
  {
    hide *;
    TrimRightUnfold(s);
    TrailingIs(s);
    var n := TrailingSpace(s);
    if n == 0 {
      ws := [];
      NothingFlat();
      assert s + "" == s;
    } else {
      var t := s[..|s| - n];
      var more := RightIsCut(t);
      ws := more + [s[|s| - n..]];
      var w := s[|s| - n..];
      FlatSnoc(more, w);
      JoinEnds(s, t, w, TrimRight(t), Flat(more));
    }
  }

  lemma JoinEnds(s: string, t: string, w: string, a: string, b: string)
    requires |w| <= |s| && t == s[..|s| - |w|] && w == s[|s| - |w|..] && t == a + b
    ensures s == a + (b + w)
  {
    assert s == t + w;
  }

  lemma NothingFlat()
    ensures Flat([]) == "" && AllSpace([])
  {
  }

  lemma FlatCons(w: string, ws: seq<string>)
    requires IsSpace(w) && AllSpace(ws)
    ensures Flat([w] + ws) == w + Flat(ws) && AllSpace([w] + ws)
  {
    hide IsSpace;
    assert ([w] + ws)[1..] == ws;
  }

  lemma {:induction false} FlatSnoc(ws: seq<string>, w: string)
    requires IsSpace(w) && AllSpace(ws)
    ensures Flat(ws + [w]) == Flat(ws) + w && AllSpace(ws + [w])
    decreases |ws|
  {
    hide IsSpace;
    if ws == [] {
      assert ws + [w] == [w] && [w][1..] == [];
    } else {
      FlatSnoc(ws[1..], w);
      assert (ws + [w])[1..] == ws[1..] + [w];
      assert ws[0] + (Flat(ws[1..]) + w) == ws[0] + Flat(ws[1..]) + w;
    }
  }

  /** Trimming cuts white space characters at both ends, whole ones, and leaves none there. */
  lemma TrimExactly(s: string) returns (left: seq<string>, right: seq<string>)
    ensures AllSpace(left) && AllSpace(right) && s == Flat(left) + Trim(s) + Flat(right)
    ensures forall w :: IsSpace(w) ==> !(w <= Trim(s))
    ensures forall k :: 0 <= k <= |Trim(s)| ==> !IsSpace(Trim(s)[k..])
  {
    hide IsSpace, TrimLeft, TrimRight, LeadingSpace, TrailingSpace, AllSpace, Flat, Blanks;
    left := LeftIsCut(s);
    right := RightIsCut(TrimLeft(s));
    var lo, hi := TrimIsSlice(s);
    LeadingIs(Trim(s));
    forall k | 0 <= k <= |Trim(s)| ensures !IsSpace(Trim(s)[k..]) {
      if IsSpace(Trim(s)[k..]) { SpaceEnds(Trim(s), k); }
    }
    assert Flat(left) + (Trim(s) + Flat(right)) == Flat(left) + Trim(s) + Flat(right);
  }
}

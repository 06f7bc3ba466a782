/**
 The verdict in plain words: which heads pass, what is skipped behind EXPLAIN, and which
 words spoil a statement, each spelled out and compared letter by letter.
 */
module Keywords {
  import opened Statements
  import opened Classifier
  import opened TwoPass
  import opened Rendering

  /** w is keyword, in lower or upper case. */
  predicate Says(w: string, keyword: string) {
    && |w| == |keyword|
    && forall i :: 0 <= i < |w| ==> w[i] == keyword[i] || (65 <= w[i] as int <= 90 && w[i] as int + 32 == keyword[i] as int)
  }

  predicate SaysOneOf(w: string, keywords: seq<string>) {
    exists i :: 0 <= i < |keywords| && Says(w, keywords[i])
  }

  predicate MayHead(w: string) {
    || SaysOneOf(w, ["select", "with", "show", "values", "table", "declare", "fetch", "move", "close"])
    || SaysOneOf(w, ["begin", "start", "commit", "end", "rollback", "abort", "savepoint", "release", "set", "reset", "discard"])
  }

  predicate IsOption(w: string) {
    || SaysOneOf(w, ["analyze", "verbose", "costs", "settings", "generic_plan", "buffers", "serialize", "wal", "timing", "summary"])
    || SaysOneOf(w, ["memory", "format", "on", "off", "true", "false", "text", "xml", "json", "yaml", "none", "binary"])
  }

  predicate Spoils(head: string, w: string) {
    || SaysOneOf(w, ["insert", "update", "delete", "merge"])
    || (Says(w, "into") && SaysOneOf(head, ["select", "with"]))
  }

  function BehindOptions(ws: seq<string>): seq<string> {
    if ws != [] && IsOption(ws[0]) then BehindOptions(ws[1..]) else ws
  }

  /** The statement that EXPLAIN would run. */
  function Explained(ws: seq<string>): seq<string> {
    if ws != [] && Says(ws[0], "explain") then BehindOptions(ws[1..]) else ws
  }

  /** A statement that only reads. */
  predicate MayPass(ws: seq<string>) {
    var body := Explained(ws);
    body != [] ==> MayHead(body[0]) && forall i :: 0 <= i < |body| ==> !Spoils(body[0], body[i])
  }

  // ---- Letter by letter ----

  predicate IsLower(keyword: string) {
    forall i :: 0 <= i < |keyword| ==> !('A' <= keyword[i] <= 'Z')
  }

  lemma FoldSays(w: string, keyword: string)
    requires IsLower(keyword)
    ensures Lower(w) == keyword <==> Says(w, keyword)
  {
    if Says(w, keyword) {
      assert forall i :: 0 <= i < |w| ==> Lower(w)[i] == keyword[i];
    }
    if Lower(w) == keyword {
      forall i | 0 <= i < |w|
        ensures w[i] == keyword[i] || (65 <= w[i] as int <= 90 && w[i] as int + 32 == keyword[i] as int)
      {
        assert Lower(w)[i] == keyword[i];
      }
    }
  }

  lemma FoldOneOf(w: string, keywords: seq<string>)
    requires forall i :: 0 <= i < |keywords| ==> IsLower(keywords[i])
    ensures SaysOneOf(w, keywords) <==> Lower(w) in keywords
  {
    hide IsLower, Says, Lower;
    forall i | 0 <= i < |keywords| ensures Says(w, keywords[i]) <==> Lower(w) == keywords[i] {
      FoldSays(w, keywords[i]);
    }
  }

  lemma ReadHeads(w: string)
    ensures SaysOneOf(w, ["select", "with", "show", "values", "table", "declare", "fetch", "move", "close"]) <==>
            EqualFold(w, "with") || IsReadKeyword(Lower(w))
  {
    hide Lower, Says, SaysOneOf;
    FoldOneOf(w, ["select", "with", "show", "values", "table", "declare", "fetch", "move", "close"]);
  }

  lemma ControlHeads(w: string)
    ensures SaysOneOf(w, ["begin", "start", "commit", "end", "rollback", "abort", "savepoint", "release", "set", "reset", "discard"]) <==>
            IsControlKeyword(Lower(w))
  {
    hide Lower, Says, SaysOneOf;
    FoldOneOf(w, ["begin", "start", "commit", "end", "rollback", "abort", "savepoint", "release", "set", "reset", "discard"]);
  }

  lemma HeadsAre(w: string)
    ensures IsAllowedHead(w) <==> MayHead(w)
  {
    hide Lower, Says, SaysOneOf, IsReadKeyword, IsControlKeyword;
    ReadHeads(w);
    ControlHeads(w);
  }

  lemma OptionsAre(w: string)
    ensures IsExplainOption(w) <==> IsOption(w)
  {
    hide Lower, Says, SaysOneOf;
    var a := ["analyze", "verbose", "costs", "settings", "generic_plan", "buffers", "serialize", "wal", "timing", "summary"];
    var b := ["memory", "format", "on", "off", "true", "false", "text", "xml", "json", "yaml", "none", "binary"];
    FirstOptions(w);
    MoreOptions(w);
    assert Lower(w) in a + b <==> IsExplainOption(w);
  }

  lemma FirstOptions(w: string)
    ensures var a := ["analyze", "verbose", "costs", "settings", "generic_plan", "buffers", "serialize", "wal", "timing", "summary"];
            SaysOneOf(w, a) <==> Lower(w) in a
  {
    hide Lower, Says, SaysOneOf;
    FoldOneOf(w, ["analyze", "verbose", "costs", "settings", "generic_plan", "buffers", "serialize", "wal", "timing", "summary"]);
  }

  lemma MoreOptions(w: string)
    ensures var b := ["memory", "format", "on", "off", "true", "false", "text", "xml", "json", "yaml", "none", "binary"];
            SaysOneOf(w, b) <==> Lower(w) in b
  {
    hide Lower, Says, SaysOneOf;
    FoldOneOf(w, ["memory", "format", "on", "off", "true", "false", "text", "xml", "json", "yaml", "none", "binary"]);
  }

  lemma HarmIs(head: string, w: string)
    ensures IsHarmful(head, w) <==> Spoils(head, w)
  {
    hide Lower, Says;
    FoldOneOf(w, ["insert", "update", "delete", "merge"]);
    FoldOneOf(head, ["select", "with"]);
    FoldSays(w, "into");
  }

  lemma {:induction false} OptionsDropped(ws: seq<string>)
    ensures DropOptions(ws) == BehindOptions(ws)
  {
    hide IsExplainOption, IsOption;
    if ws != [] {
      OptionsAre(ws[0]);
      if IsOption(ws[0]) { OptionsDropped(ws[1..]); }
    }
  }

  lemma BodyIs(ws: seq<string>)
    ensures Body(ws) == Explained(ws)
  {
    hide Lower, Says, DropOptions, BehindOptions;
    if ws != [] {
      FoldSays(ws[0], "explain");
      OptionsDropped(ws[1..]);
    }
  }

  /** The classifier reads a statement as Read exactly when it may pass. */
  lemma VerdictExactly(ws: seq<string>)
    ensures Verdict(ws) == Read <==> MayPass(ws)
  {
    hide IsAllowedHead, MayHead, IsHarmful, Spoils, Body, Explained;
    BodyIs(ws);
    var body := Body(ws);
    if body != [] {
      HeadsAre(body[0]);
      forall i | 0 <= i < |body| ensures IsHarmful(body[0], body[i]) <==> Spoils(body[0], body[i]) {
        HarmIs(body[0], body[i]);
      }
    }
  }

  /** A text is read-only exactly when every statement of its layout may pass. */
  lemma ReadOnlyExactly(sql: string, gs: seq<Seg>, e: nat)
    requires Fills(sql, 0, gs, e)
    ensures IsReadOnly(sql) <==> forall i :: 0 <= i < |StatementWords(gs)| ==> MayPass(StatementWords(gs)[i])
  {
    hide Fills, Scan, Verdict, MayPass, StatementWords, Groups, Tokens;
    LayoutScans(sql, 0, gs, e);
    GroupsLaid(gs);
    var ws := StatementWords(gs);
    forall i | 0 <= i < |ws| ensures Verdict(ws[i]) == Read <==> MayPass(ws[i]) {
      VerdictExactly(ws[i]);
    }
  }

  // ---- Statements that never pass ----

  /** The words that lead a text, each followed by a blank. */
  function Leading(ws: seq<string>, t: string): string {
    if ws == [] then t else ws[0] + " " + Leading(ws[1..], t)
  }

  predicate AreWords(ws: seq<string>) {
    forall i :: 0 <= i < |ws| ==> ws[i] != "" && forall c :: c in ws[i] ==> IsWordCode(c)
  }

  lemma WordThenBlank(w: string, t: string)
    requires w != "" && forall c :: c in w ==> IsWordCode(c)
    ensures Scan(w + " " + t, 0, 0) == [Word(w)] + Scan(t, 0, 0)
  {
    hide *;
    var src := w + " " + t;
    Parts(w, " ", "", t);
    assert w + " " + "" + t == src;
    BlankPlaced(src, w);
    WordStep(src, 0, w);
    SkippedStep(src, |w|, Separator(' '));
    TextBehind(src, t, |w| + 1);
  }

  /** What leads a text leads its first statement. */
  lemma {:induction false} LeadingWords(ws: seq<string>, t: string)
    requires AreWords(ws)
    ensures var first := Groups(Scan(Leading(ws, t), 0, 0))[0]; |ws| <= |first| && first[..|ws|] == ws
    decreases |ws|
  {
    hide Scan, IsWordCode;
    if ws != [] {
      LeadingWords(ws[1..], t);
      WordThenBlank(ws[0], Leading(ws[1..], t));
      var more := Scan(Leading(ws[1..], t), 0, 0);
      assert ([Word(ws[0])] + more)[1..] == more;
      var first := Groups(more)[0];
      assert ([ws[0]] + first)[..|ws|] == [ws[0]] + first[..|ws| - 1];
      assert ws == [ws[0]] + ws[1..];
    }
  }

  lemma {:induction false} BehindMore(ws: seq<string>, more: seq<string>)
    requires BehindOptions(ws) != []
    ensures BehindOptions(ws + more) == BehindOptions(ws) + more
  {
    hide IsOption;
    if ws != [] && IsOption(ws[0]) {
      assert (ws + more)[1..] == ws[1..] + more;
      BehindMore(ws[1..], more);
    }
  }

  /** What EXPLAIN would run goes on behind its first words. */
  lemma ExplainedMore(ws: seq<string>, more: seq<string>)
    requires Explained(ws) != []
    ensures Explained(ws + more) == Explained(ws) + more
  {
    hide Says, BehindOptions;
    if ws != [] && Says(ws[0], "explain") {
      assert (ws + more)[1..] == ws[1..] + more;
      BehindMore(ws[1..], more);
    }
  }

  /** A text whose statement starts with a word that may not head one is refused, whatever follows. */
  lemma HeadRefuses(ws: seq<string>, t: string)
    requires AreWords(ws) && Explained(ws) != [] && !MayHead(Explained(ws)[0])
    ensures !IsReadOnly(Leading(ws, t))
  {
    hide MayHead, Explained, Scan, Groups, Verdict, Leading, AreWords, Spoils;
    LeadingWords(ws, t);
    var first := Groups(Scan(Leading(ws, t), 0, 0))[0];
    assert first == ws + first[|ws|..];
    ExplainedMore(ws, first[|ws|..]);
    assert Explained(first)[0] == Explained(ws)[0];
    VerdictExactly(first);
  }

  lemma NotAHead(w: string)
    requires SaysOneOf(w, ["drop", "create", "prepare", "execute"])
    ensures !MayHead(w)
  {
    hide Says, Lower, SaysOneOf, IsAllowedHead;
    FoldOneOf(w, ["drop", "create", "prepare", "execute"]);
    HeadsAre(w);
    OtherHeads(Lower(w));
    AllowedMeans(w);
  }

  lemma AllowedMeans(w: string)
    ensures IsAllowedHead(w) <==> Lower(w) == "with" || IsReadKeyword(Lower(w)) || IsControlKeyword(Lower(w))
  {
    hide Lower;
  }

  lemma OtherHeads(w: string)
    requires w in ["drop", "create", "prepare", "execute"]
    ensures w != "with" && !IsReadKeyword(w) && !IsControlKeyword(w)
  {
  }

  /** DROP, CREATE, PREPARE and EXECUTE never pass, in whatever case and whatever follows, nor behind EXPLAIN and an option. */
  lemma NeverPasses(w: string, explain: string, option: string, t: string)
    requires SaysOneOf(w, ["drop", "create", "prepare", "execute"]) && Says(explain, "explain") && IsOption(option)
    requires AreWords([w]) && AreWords([explain, option, w])
    ensures !IsReadOnly(w + " " + t)
    ensures !IsReadOnly(explain + " " + (option + " " + (w + " " + t)))
  {
    NotAHead(w);
    HeadIsHead(w);
    OptionIsOption(explain, option, w);
    assert Leading([w], t) == w + " " + t by { assert [w][1..] == []; }
    assert Leading([explain, option, w], t) == explain + " " + (option + " " + (w + " " + t)) by {
      assert [explain, option, w][1..] == [option, w] && [option, w][1..] == [w] && [w][1..] == [];
    }
    hide *;
    HeadRefuses([w], t);
    HeadRefuses([explain, option, w], t);
  }

  lemma NoOption(w: string)
    requires SaysOneOf(w, ["drop", "create", "prepare", "execute"])
    ensures !IsOption(w) && !Says(w, "explain")
  {
    hide Says, Lower, SaysOneOf, IsExplainOption, IsOption;
    FoldOneOf(w, ["drop", "create", "prepare", "execute"]);
    FoldSays(w, "explain");
    OptionsAre(w);
    OtherOptions(w);
  }

  lemma OtherOptions(w: string)
    requires Lower(w) in ["drop", "create", "prepare", "execute"]
    ensures !IsExplainOption(w) && Lower(w) != "explain"
  {
    hide Lower;
  }

  lemma HeadIsHead(w: string)
    requires SaysOneOf(w, ["drop", "create", "prepare", "execute"])
    ensures Explained([w]) == [w]
  {
    hide Says, SaysOneOf, IsOption;
    NoOption(w);
  }

  lemma OptionIsOption(explain: string, option: string, w: string)
    requires SaysOneOf(w, ["drop", "create", "prepare", "execute"]) && Says(explain, "explain") && IsOption(option)
    ensures Explained([explain, option, w]) == [w]
  {
    hide Says, SaysOneOf, IsOption;
    NoOption(w);
    assert [explain, option, w][1..] == [option, w] && [option, w][1..] == [w];
    assert BehindOptions([w]) == [w];
    assert BehindOptions([option, w]) == [w];
  }
}

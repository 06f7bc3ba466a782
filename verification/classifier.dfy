/**
 The read/write verdict on the significant words of one statement
 (classify and its keyword tables, internal/sqlscan/sqlscan.go).
 */
module Classifier {
  datatype Kind = Read | Write

  function LowerByte(c: char): char {
    if 'A' <= c <= 'Z' then c - 'A' + 'a' else c
  }

  function Lower(w: string): string {
    seq(|w|, i requires 0 <= i < |w| => LowerByte(w[i]))
  }

  predicate EqualFold(w: string, keyword: string) {
    Lower(w) == keyword
  }

  predicate IsReadKeyword(w: string) {
    w in {"select", "show", "values", "table", "declare", "fetch", "move", "close"}
  }

  predicate IsControlKeyword(w: string) {
    w in {"begin", "start", "commit", "end", "rollback", "abort", "savepoint", "release", "set", "reset", "discard"}
  }

  predicate IsWriteKeyword(w: string) {
    EqualFold(w, "insert") || EqualFold(w, "update") || EqualFold(w, "delete") || EqualFold(w, "merge")
  }

  predicate IsExplainOption(w: string) {
    Lower(w) in {"analyze", "verbose", "costs", "settings", "generic_plan", "buffers", "serialize", "wal",
                 "timing", "summary", "memory", "format", "on", "off", "true", "false",
                 "text", "xml", "json", "yaml", "none", "binary"}
  }

  /** SELECT and WITH are the heads behind which INTO creates a table. */
  predicate StartsQuery(head: string) {
    EqualFold(head, "select") || EqualFold(head, "with")
  }

  predicate IsAllowedHead(head: string) {
    EqualFold(head, "with") || IsReadKeyword(Lower(head)) || IsControlKeyword(Lower(head))
  }

  function DropOptions(ws: seq<string>): seq<string> {
    if |ws| > 0 && IsExplainOption(ws[0]) then DropOptions(ws[1..]) else ws
  }

  /** The words of the statement that runs: EXPLAIN and its options are removed. */
  function Body(ws: seq<string>): seq<string> {
    if |ws| > 0 && EqualFold(ws[0], "explain") then DropOptions(ws[1..]) else ws
  }

  predicate IsHarmful(head: string, w: string) {
    IsWriteKeyword(w) || (StartsQuery(head) && EqualFold(w, "into"))
  }

  predicate HasHarm(head: string, ws: seq<string>) {
    exists i :: 0 <= i < |ws| && IsHarmful(head, ws[i])
  }

  /** The declarative verdict: an allowed head and no harmful word behind it. */
  function BodyVerdict(body: seq<string>): Kind {
    if body == [] || (IsAllowedHead(body[0]) && !HasHarm(body[0], body)) then Read else Write
  }

  function Verdict(ws: seq<string>): Kind {
    BodyVerdict(Body(ws))
  }

  // ---- The early return of classify is justified ----

  lemma {:induction false} DropOptionsAppend(ws: seq<string>, more: seq<string>)
    ensures DropOptions(ws) != [] ==> DropOptions(ws + more) == DropOptions(ws) + more
  {
    if |ws| > 0 {
      assert (ws + more)[1..] == ws[1..] + more;
      if IsExplainOption(ws[0]) {
        DropOptionsAppend(ws[1..], more);
      }
    }
  }

  /** A Write verdict survives any words that follow. */
  lemma WriteSurvives(ws: seq<string>, more: seq<string>)
    requires Verdict(ws) == Write
    ensures Verdict(ws + more) == Write
  {
    assert Body(ws + more) == Body(ws) + more by {
      if EqualFold(ws[0], "explain") {
        assert (ws + more)[1..] == ws[1..] + more;
        DropOptionsAppend(ws[1..], more);
      }
    }
    var body := Body(ws);
    if HasHarm(body[0], body) {
      var i :| 0 <= i < |body| && IsHarmful(body[0], body[i]);
      assert (body + more)[i] == body[i];
    }
  }

  lemma PrefixIsHarmless(w: string)
    requires IsExplainOption(w) || EqualFold(w, "explain")
    ensures !IsWriteKeyword(w)
  {
  }

  lemma {:induction false} DroppedIsHarmless(ws: seq<string>, w: string)
    requires w in ws && IsWriteKeyword(w)
    ensures w in DropOptions(ws)
  {
    if IsExplainOption(ws[0]) {
      PrefixIsHarmless(ws[0]);
      DroppedIsHarmless(ws[1..], w);
    }
  }

  /** No statement with a data-modifying word anywhere, the EXPLAIN prefix included, is a read. */
  lemma WriteWordMeansWrite(ws: seq<string>, w: string)
    requires w in ws && IsWriteKeyword(w)
    ensures Verdict(ws) == Write
  {
    if EqualFold(ws[0], "explain") {
      PrefixIsHarmless(ws[0]);
      DroppedIsHarmless(ws[1..], w);
    }
    var body := Body(ws);
    var i :| 0 <= i < |body| && body[i] == w;
    assert IsHarmful(body[0], body[i]);
  }
}

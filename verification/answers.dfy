/**
 The answers on the client stream under every interleaving of the two pumps: how many
 ReadyForQuery messages the client gets, which message each synthesized one answers,
 and when the status it carries is the current one.  A backend also sends opening
 ReadyForQuery messages that answer no message of the client; for PostgreSQL this is
 one, at the end of the start-up.
 */
module Answering {
  import opened Wire
  import opened Policies
  import opened Machine
  import opened DenialLaws
  import opened Relay
  import opened RelayLaws
  import opened Tearing
  import Session
  import TwoPass

  // ---- One ReadyForQuery for each request ----

  lemma {:induction false} CountKindAppend(a: seq<Message>, b: seq<Message>, k: Byte)
    ensures CountKind(a + b, k) == CountKind(a, k) + CountKind(b, k)
    decreases |b|
  {
    if b == [] {
      assert a + b == a;
    } else {
      CountKindAppend(a, b[..|b| - 1], k);
      assert (a + b)[..|a + b| - 1] == a + b[..|b| - 1];
    }
  }

  lemma CountWrittenSnoc(a: seq<seq<Message>>, group: seq<Message>, k: Byte)
    ensures CountWritten(a + [group], k) == CountWritten(a, k) + CountKind(group, k)
  {
    hide CountKind;
    assert (a + [group])[..|a|] == a;
  }

  /** Counted over a client stream, the messages are the backend's and the proxy's. */
  lemma {:induction false} LogCounts(log: seq<Item>, k: Byte)
    ensures CountKind(LogMessages(log), k) == CountKind(BackendMessages(log), k) + CountWritten(LogGroups(log), k)
    decreases |log|
  {
    if log != [] {
      var front, i := log[..|log| - 1], log[|log| - 1];
      LogCounts(front, k);
      hide CountKind, CountWritten;
      assert LogMessages(front) + [] == LogMessages(front) && BackendMessages(front) + [] == BackendMessages(front);
      assert LogGroups(front) + [] == LogGroups(front);
      match i
      case FromBackend(m) =>
        CountKindAppend(LogMessages(front), [m], k);
        CountKindAppend(BackendMessages(front), [m], k);
      case Synthesized(group) =>
        CountKindAppend(LogMessages(front), group, k);
        CountWrittenSnoc(LogGroups(front), group, k);
      case Torn(_) =>
    }
  }

  lemma NothingWrittenYet(k: Byte)
    ensures CountWritten([], k) == 0
  {
  }

  lemma PendingCounts(groups: seq<seq<Message>>, cp: ClientPump, k: Byte)
    ensures CountWritten(groups + PendingGroup(cp), k) == CountWritten(groups, k) + CountWritten(PendingGroup(cp), k)
  {
    hide CountWritten;
    NothingWrittenYet(k);
    if cp.Reading? {
      assert groups + [] == groups;
    } else {
      CountWrittenSnoc(groups, cp.group, k);
      CountWrittenSnoc([], cp.group, k);
      assert [] + [cp.group] == [cp.group];
    }
  }

  /**
   Over every interleaving and for every backend: the ReadyForQuery messages on the
   client stream, those in a reply not yet written, and the answers the backend has
   been asked for are together what the client is owed and what the backend has answered.
   */
  lemma ReadyMessagesAreConserved(cfg: Config, backend: Bytes, client: seq<Message>, moves: seq<Move>)
    ensures var s := Schedule(cfg, Start(backend, client), moves);
            CountKind(LogMessages(s.log), 'Z') + CountWritten(PendingGroup(s.cp), 'Z') + CountAnswered(s.filter.up) ==
            CountOwed(cfg, s.ins) + CountKind(BackendMessages(s.log), 'Z')
  {
    hide Schedule, Run, CountKind, CountWritten, CountAnswered, CountOwed, CountRecoveries, LogMessages, BackendMessages, LogGroups,
      PendingGroup, Messages, Truthful;
    var s := Schedule(cfg, Start(backend, client), moves);
    ScheduleClient(cfg, backend, client, moves);
    AnswersConserved(cfg, s.ins);
    LogCounts(s.log, 'Z');
    PendingCounts(LogGroups(s.log), s.cp, 'Z');
  }

  /**
   A backend that has sent its opening ReadyForQuery messages and has answered each
   forwarded Sync, Query and function call once: when no reply is pending, the client
   decodes the opening ones and exactly one for each request it is owed one for, whether
   the proxy or the backend answered it.
   */
  lemma OneReadyForEachRequest(cfg: Config, opening: nat, backend: Bytes, client: seq<Message>, moves: seq<Move>)
    requires !EndsInAMessage(backend)
    requires var s := Schedule(cfg, Start(backend, client), moves);
             && s.lock == Nobody && s.cp.Reading?
             && CountKind(BackendMessages(s.log), 'Z') == opening + CountAnswered(s.filter.up)
    ensures var s := Schedule(cfg, Start(backend, client), moves);
            CountKind(Frames(s.out), 'Z') == opening + CountOwed(cfg, s.ins)
  {
    hide Schedule, Run, CountKind, CountAnswered, CountOwed, LogMessages, BackendMessages, LogGroups, Frames, TailOf, EncodeAll,
      ValidMessages, Partial, EndsInAMessage;
    ReadyMessagesAreConserved(cfg, backend, client, moves);
    ClientStreamIntegrity(cfg, backend, client, moves);
    NothingWrittenYet('Z');
  }

  // ---- Which message a synthesized group answers ----

  /** The positions of the messages the proxy answered. */
  function Answered(cfg: Config, ins: seq<Input>): (js: seq<nat>)
    ensures forall k :: 0 <= k < |js| ==> js[k] < |ins|
  {
    if ins == [] then []
    else
      var front, i := ins[..|ins| - 1], ins[|ins| - 1];
      Answered(cfg, front) + if Step(cfg, Run(cfg, IDLE, front).st, i.m, i.tx).reply == [] then [] else [|front|]
  }

  /** What the proxy answered to message j. */
  function AnswerTo(cfg: Config, ins: seq<Input>, j: nat): seq<Message>
    requires j < |ins|
  {
    Step(cfg, Run(cfg, IDLE, ins[..j]).st, ins[j].m, ins[j].tx).reply
  }

  /** Every locked write answers one message, later writes later messages. */
  ghost predicate AnswersInOrder(cfg: Config, ins: seq<Input>, replies: seq<seq<Message>>, js: seq<nat>) {
    && |js| == |replies|
    && (forall k :: 0 <= k < |js| ==> js[k] < |ins| && replies[k] == AnswerTo(cfg, ins, js[k]))
    && (forall k, l :: 0 <= k < l < |js| ==> js[k] < js[l])
  }

  lemma AnswersExtend(cfg: Config, ins: seq<Input>, i: Input, replies: seq<seq<Message>>, js: seq<nat>)
    requires AnswersInOrder(cfg, ins, replies, js)
    ensures var reply := Step(cfg, Run(cfg, IDLE, ins).st, i.m, i.tx).reply;
            && AnswersInOrder(cfg, ins + [i], replies, js)
            && (reply == AnswerTo(cfg, ins + [i], |ins|))
            && AnswersInOrder(cfg, ins + [i], replies + [reply], js + [|ins|])
  {
    hide Run, Step;
    var more := ins + [i];
    assert more[..|ins|] == ins;
    forall k | 0 <= k < |js| ensures AnswerTo(cfg, more, js[k]) == AnswerTo(cfg, ins, js[k]) {
      assert more[..js[k]] == ins[..js[k]];
    }
  }

  lemma {:induction false} RepliesAnswer(cfg: Config, ins: seq<Input>)
    ensures AnswersInOrder(cfg, ins, Run(cfg, IDLE, ins).replies, Answered(cfg, ins))
    decreases |ins|
  {
    hide *;
    if ins == [] {
      NothingAnswered(cfg);
    } else {
      var front, i := ins[..|ins| - 1], ins[|ins| - 1];
      assert ins == front + [i];
      RepliesAnswer(cfg, front);
      AnswersExtend(cfg, front, i, Run(cfg, IDLE, front).replies, Answered(cfg, front));
      AnsweredSnoc(cfg, front, i);
    }
  }

  lemma NothingAnswered(cfg: Config)
    ensures AnswersInOrder(cfg, [], Run(cfg, IDLE, []).replies, Answered(cfg, []))
  {
    hide Step;
  }

  lemma AnsweredSnoc(cfg: Config, ins: seq<Input>, i: Input)
    ensures var t := Run(cfg, IDLE, ins);
            var reply := Step(cfg, t.st, i.m, i.tx).reply;
            && Run(cfg, IDLE, ins + [i]).replies == (if reply == [] then t.replies else t.replies + [reply])
            && Answered(cfg, ins + [i]) == (if reply == [] then Answered(cfg, ins) else Answered(cfg, ins) + [|ins|])
  {
    hide Step, Run;
    RunSnoc(cfg, IDLE, ins, i);
    assert (ins + [i])[..|ins|] == ins;
    var t := Run(cfg, IDLE, ins);
    assert t.replies + [] == t.replies && Answered(cfg, ins) + [] == Answered(cfg, ins);
  }

  /** A ReadyForQuery in an answer carries the status its message was handled with. */
  lemma AnswerStatus(cfg: Config, ins: seq<Input>, j: nat, m: Message)
    requires j < |ins| && m in AnswerTo(cfg, ins, j) && m.kind == 'Z'
    ensures m == Ready(ins[j].tx)
  {
    hide Run, Step, Ready;
    StepReply(cfg, Run(cfg, IDLE, ins[..j]).st, ins[j].m, ins[j].tx);
  }

  /** The statuses the backend had reported when message j was handled. */
  function Recorded(s: Sys, j: nat): seq<Byte> {
    if j < |s.seen| && s.seen[j] <= |s.statuses| then s.statuses[..s.seen[j]] else []
  }

  /**
   Every ReadyForQuery the proxy puts on the client stream: the k-th locked write answers
   one client message, later than the writes before it, and the status it reports is idle
   exactly when the last status the backend had recorded by then was idle, and failed otherwise.
   */
  lemma ReportedStatus(cfg: Config, backend: Bytes, client: seq<Message>, moves: seq<Move>, k: nat, m: Message)
    requires var s := Schedule(cfg, Start(backend, client), moves);
             k < |LogGroups(s.log)| && m in LogGroups(s.log)[k] && m.kind == 'Z'
    ensures var s := Schedule(cfg, Start(backend, client), moves);
            var js := Answered(cfg, s.ins);
            && k < |js| && js[k] < |s.ins| && js[k] < |client| && s.ins[js[k]].m == client[js[k]]
            && LogGroups(s.log)[k] == AnswerTo(cfg, s.ins, js[k]) && (forall l :: 0 <= l < k ==> js[l] < js[k])
            && m == ReadyForQuery(if LastStatus(Recorded(s, js[k])) == 'I' then 'I' else 'E')
            && Recorded(s, js[k]) <= s.statuses
            && s.statuses == LogStatuses(s.log) + PendingStatus(s.bp)
  {
    hide Schedule, Run, LogStatuses, PendingStatus, LastStatus, LogGroups, PendingGroup, AnswerTo, Answered, BackendBytes, InFlight;
    ScheduleBackend(cfg, backend, client, moves);
    ScheduleClient(cfg, backend, client, moves);
    var s := Schedule(cfg, Start(backend, client), moves);
    RepliesAnswer(cfg, s.ins);
    var j := Answered(cfg, s.ins)[k];
    assert LogGroups(s.log)[k] == s.filter.replies[k];
    AnswerStatus(cfg, s.ins, j, m);
    assert (Messages(s.ins) + s.client)[j] == s.ins[j].m;
  }

  // ---- When the reported status is the current one ----

  /** The requests that had been forwarded when message j was handled. */
  function ForwardedBefore(cfg: Config, ins: seq<Input>, j: nat): nat
    requires j <= |ins|
  {
    CountAnswered(Run(cfg, IDLE, ins[..j]).up)
  }

  /** The status is right whatever the backend reports until it has reported due times. */
  ghost predicate IsCurrent(reported: Byte, recorded: seq<Byte>, due: nat) {
    forall owed: seq<Byte> :: |recorded + owed| == due ==> reported == ReadyStatus(LastStatus(recorded + owed))
  }

  lemma CurrentExactly(recorded: seq<Byte>, due: nat)
    requires |recorded| <= due
    ensures IsCurrent(ReadyStatus(LastStatus(recorded)), recorded, due) <==> |recorded| == due
  {
    if |recorded| == due {
      assert recorded + [] == recorded;
    } else {
      var other: Byte := if LastStatus(recorded) == 'I' then 'T' else 'I';
      var owed: seq<Byte> := seq(due - |recorded|, _ => other);
      assert |recorded + owed| == due && LastStatus(recorded + owed) == other;
    }
  }

  /**
   For a backend that sends its opening ReadyForQuery messages and then answers each
   forwarded Sync, Query and function call once, and none before it is sent: the status a
   message is answered with is the current one, whatever the backend still has to answer,
   if and only if the opening was over and everything forwarded before that message had
   been answered.
   */
  lemma StatusIsCurrentExactly(cfg: Config, opening: nat, backend: Bytes, client: seq<Message>, moves: seq<Move>, j: nat)
    requires var s := Schedule(cfg, Start(backend, client), moves);
             j < |s.ins| && |Recorded(s, j)| <= opening + ForwardedBefore(cfg, s.ins, j)
    ensures var s := Schedule(cfg, Start(backend, client), moves);
            IsCurrent(ReadyStatus(s.ins[j].tx), Recorded(s, j), opening + ForwardedBefore(cfg, s.ins, j)) <==>
            |Recorded(s, j)| == opening + ForwardedBefore(cfg, s.ins, j)
  {
    hide Schedule, Run, LastStatus, LogGroups, PendingGroup, Messages, IsCurrent, ForwardedBefore;
    ScheduleClient(cfg, backend, client, moves);
    var s := Schedule(cfg, Start(backend, client), moves);
    CurrentExactly(Recorded(s, j), opening + ForwardedBefore(cfg, s.ins, j));
  }

  // ---- A status that is not current ----

  /** What the filter does with a query that passes and then with a message that is refused at once. */
  lemma QueryThenRefused(cfg: Config, query: Message, refused: Message, tx: Byte)
    requires Enforces(cfg.pol) && query.kind == 'Q' && Refusal(cfg.pol, query).None?
    requires (refused.kind == 'Q' || refused.kind == 'F') && Refusal(cfg.pol, refused).Some?
    ensures Step(cfg, IDLE, query, tx) == Effect(IDLE, [query], [])
    ensures Step(cfg, IDLE, refused, tx) == Effect(IDLE, [], [Refusal(cfg.pol, refused).value, Ready(tx)])
  {
    hide ErrorFor, Ready, Evaluate, QueryText, ParseQueryText;
    assert [] + [query] == [query];
  }

  lemma OneForwarded(cfg: Config, query: Input, more: seq<Input>)
    requires Step(cfg, IDLE, query.m, query.tx) == Effect(IDLE, [query.m], []) && query.m.kind == 'Q'
    ensures ForwardedBefore(cfg, [query] + more, 1) == 1
  {
    hide Step;
    assert ([query] + more)[..1] == [] + [query];
    RunSnoc(cfg, IDLE, [], query);
    RunNothing(cfg, IDLE);
    assert [] + [query.m] == [query.m];
    CountOne(query.m);
  }

  lemma ReadyIsValid(status: Byte)
    ensures ValidMessage(ReadyForQuery(status)) && |Encode(ReadyForQuery(status))| == 6
    ensures IsReady(HeaderOf(ReadyForQuery(status))) && Encode(ReadyForQuery(status))[5] == status
  {
  }

  lemma OpeningReads(status: Byte, rest: Bytes)
    requires ValidMessage(ReadyForQuery(status))
    ensures ReadHeader(Encode(ReadyForQuery(status)) + rest) == Got(HeaderOf(ReadyForQuery(status)))
  {
    hide EncodeHeader, ReadHeader;
    var m := ReadyForQuery(status);
    assert Encode(m) + rest == EncodeHeader(HeaderOf(m)) + ([status] + rest);
    EncodedHeaderReads(HeaderOf(m), [status] + rest);
  }

  /** The backend pump reads a ReadyForQuery, whose status is recorded before it is written. */
  lemma OpeningFramed(cfg: Config, status: Byte, rest: Bytes, client: seq<Message>)
    requires ValidMessage(ReadyForQuery(status))
    ensures var m := ReadyForQuery(status);
            var s := Start(Encode(m) + rest, client);
            Do(cfg, s, BackendFrame) ==
            s.(backend := rest, tx := status, statuses := [status], bp := Queued(HeaderOf(m), Encode(m), 0))
  {
    hide ReadHeader, Encode, ReadyForQuery, HeaderOf, ValidMessage, IsReady;
    var m := ReadyForQuery(status);
    ReadyIsValid(status);
    OpeningReads(status, rest);
    IsWholeReady(HeaderOf(m));
    var b := Encode(m) + rest;
    assert b[..6] == Encode(m) && b[6..] == rest && b[5] == status;
    assert [] + [status] == [status];
  }

  lemma IsWholeReady(h: Header)
    ensures IsReady(h) ==> h.payloadLen == 1
  {
  }

  lemma HandleOnce(cfg: Config, s: Sys)
    requires s.cp.Reading? && s.client != []
    ensures var e := Step(cfg, s.filter.st, s.client[0], s.tx);
            Do(cfg, s, ClientHandle) ==
            s.(client := s.client[1..], cp := if e.reply == [] then Reading else Waiting(e.reply),
               filter := Extend(s.filter, e), ins := s.ins + [Input(s.client[0], s.tx)], seen := s.seen + [|s.statuses|])
  {
    hide Step, Extend;
  }

  function PipelineMoves(): seq<Move> {
    [BackendFrame] + [ClientHandle] + [ClientHandle]
  }

  /** A refusal waits that was pipelined behind a query, with the status of the opening. */
  ghost predicate Pipelined(cfg: Config, s: Sys, status: Byte, rest: Bytes, query: Message, refused: Message) {
    var m := ReadyForQuery(status);
    && s.lock == Nobody && s.out == [] && s.log == [] && s.client == [] && s.backend == rest
    && s.bp == Queued(HeaderOf(m), Encode(m), 0)
    && Refusal(cfg.pol, refused).Some? && s.cp == Waiting([Refusal(cfg.pol, refused).value, Ready(status)])
    && s.ins == [Input(query, status), Input(refused, status)] && s.seen == [1, 1] && s.statuses == [status]
  }

  lemma PipelinedRun(cfg: Config, status: Byte, rest: Bytes, query: Message, refused: Message)
    requires Enforces(cfg.pol) && query.kind == 'Q' && Refusal(cfg.pol, query).None?
    requires (refused.kind == 'Q' || refused.kind == 'F') && Refusal(cfg.pol, refused).Some?
    ensures var s := Schedule(cfg, Start(Encode(ReadyForQuery(status)) + rest, [query, refused]), PipelineMoves());
            Pipelined(cfg, s, status, rest, query, refused) && ForwardedBefore(cfg, s.ins, 1) == 1
  {
    hide Refusal, ErrorFor, Ready, Step, ForwardedBefore, Schedule, Encode, Do, ReadyForQuery, ValidMessage;
    ReadyIsValid(status);
    var s0 := Start(Encode(ReadyForQuery(status)) + rest, [query, refused]);
    QueryThenRefused(cfg, query, refused, status);
    OpeningFramed(cfg, status, rest, [query, refused]);
    OneMove(cfg, s0, BackendFrame);
    var s1 := Do(cfg, s0, BackendFrame);
    ScheduleAppend(cfg, s0, [BackendFrame], [ClientHandle]);
    OneMove(cfg, s1, ClientHandle);
    HandleOnce(cfg, s1);
    var s2 := Do(cfg, s1, ClientHandle);
    ScheduleAppend(cfg, s0, [BackendFrame] + [ClientHandle], [ClientHandle]);
    OneMove(cfg, s2, ClientHandle);
    assert [query, refused][1..] == [refused];
    HandleOnce(cfg, s2);
    OneForwarded(cfg, Input(query, status), [Input(refused, status)]);
    assert [Input(query, status)] + [Input(refused, status)] == [Input(query, status), Input(refused, status)];
  }

  /**
   A query that passes, pipelined with a message that is refused, behind the opening
   ReadyForQuery: the refusal reports the opening's status, which is not current while
   the query is unanswered.
   */
  lemma PipelinedStatusIsStale(cfg: Config, status: Byte, rest: Bytes, query: Message, refused: Message)
    requires Enforces(cfg.pol) && query.kind == 'Q' && Refusal(cfg.pol, query).None?
    requires (refused.kind == 'Q' || refused.kind == 'F') && Refusal(cfg.pol, refused).Some?
    ensures var s := Schedule(cfg, Start(Encode(ReadyForQuery(status)) + rest, [query, refused]), PipelineMoves());
            && s.cp == Waiting([Refusal(cfg.pol, refused).value, Ready(status)])
            && |s.ins| == 2 && s.ins[1] == Input(refused, status)
            && Recorded(s, 1) == [status] && ForwardedBefore(cfg, s.ins, 1) == 1
            && !IsCurrent(ReadyStatus(s.ins[1].tx), Recorded(s, 1), 1 + ForwardedBefore(cfg, s.ins, 1))
  {
    hide Refusal, ErrorFor, Ready, ReadyStatus, Step, ForwardedBefore, Schedule, Encode, PipelineMoves, IsCurrent;
    PipelinedRun(cfg, status, rest, query, refused);
    CurrentExactly([status], 2);
  }

  // ---- BEGIN and a refusal ----

  /** The client's Query for BEGIN. */
  function Begin(): Message {
    Message('Q', Field("BEGIN"))
  }

  lemma BeginPasses(pol: Policy)
    ensures Refusal(pol, Begin()).None?
  {
    hide TwoPass.IsReadOnly, ErrorFor, QueryText, ParseQueryText;
    var sql: Bytes := "BEGIN";
    assert Begin().payload == Field(sql);
    QueryTextIsExact(Field(sql), sql);
    TwoPass.BeginReads();
  }

  /** What the backend sends for BEGIN: done and then the status of an open transaction. */
  function BeginAnswers(done: seq<Message>): seq<Message> {
    done + [ReadyForQuery('T')]
  }

  /** The ReadyForQuery that waits and then all of rest are relayed. */
  function RelayRest(rest: Bytes): seq<Move> {
    [BackendLock] + [BackendWrite(6)] + [BackendUnlock] + DrainMoves(rest)
  }

  lemma QueuedRelayed(cfg: Config, s: Sys, m: Message)
    requires s.lock == Nobody && ValidMessage(m) && s.bp == Queued(HeaderOf(m), Encode(m), 0)
    ensures var t := Schedule(cfg, s, [BackendLock] + [BackendWrite(|Encode(m)|)] + [BackendUnlock]);
            IsFree(t) && SameClient(s, t) && t.backend == s.backend && t.log == s.log + [FromBackend(m)]
  {
    hide Schedule, Encode;
    var n := |Encode(m)|;
    WholeEncoding(m);
    OneMove(cfg, s, BackendLock);
    var s1 := Do(cfg, s, BackendLock);
    ScheduleAppend(cfg, s, [BackendLock], [BackendWrite(n)]);
    OneMove(cfg, s1, BackendWrite(n));
    var s2 := Do(cfg, s1, BackendWrite(n));
    ScheduleAppend(cfg, s, [BackendLock] + [BackendWrite(n)], [BackendUnlock]);
    OneMove(cfg, s2, BackendUnlock);
  }

  lemma WholeEncoding(m: Message)
    requires ValidMessage(m)
    ensures var e := Encode(m); e[..|e|] == e && e[|e|..] == [] && [] + e == e && e[5..] == m.payload
  {
  }

  lemma ItemsSnoc(ms: seq<Message>, m: Message)
    ensures Items(ms + [m]) == Items(ms) + [FromBackend(m)]
  {
  }

  /** The last status of a log that ends in a ReadyForQuery. */
  lemma StatusOfLast(log: seq<Item>, ms: seq<Message>, status: Byte)
    ensures LastStatus(LogStatuses(log + Items(ms + [ReadyForQuery(status)]))) == status
  {
    hide Items, LogStatuses;
    var z := FromBackend(ReadyForQuery(status));
    ItemsSnoc(ms, ReadyForQuery(status));
    assert log + (Items(ms) + [z]) == (log + Items(ms)) + [z];
    BackendLogSnoc(log + Items(ms), z);
  }

  /**
   A client that sends BEGIN and right behind it something that is refused can be told
   that it is idle when its transaction is open: the refusal waits with the status of the
   opening while the answer to BEGIN goes out before it.
   */
  lemma BeginIsReportedIdle(cfg: Config, done: seq<Message>, refused: Message)
    requires Enforces(cfg.pol) && ValidMessages(done)
    requires (refused.kind == 'Q' || refused.kind == 'F') && Refusal(cfg.pol, refused).Some?
    ensures ValidMessages(BeginAnswers(done))
    ensures var rest := EncodeAll(BeginAnswers(done));
            var s := Schedule(cfg, Start(Encode(ReadyForQuery('I')) + rest, [Begin(), refused]), PipelineMoves() + RelayRest(rest));
            && s.cp == Waiting([Refusal(cfg.pol, refused).value, ReadyForQuery('I')])
            && s.log == [FromBackend(ReadyForQuery('I'))] + Items(BeginAnswers(done)) && s.tx == 'T'
  {
    hide *;
    AnswersValid(done);
    ReadyIsValid('I');
    var ms := BeginAnswers(done);
    var rest := EncodeAll(ms);
    var client := [Begin(), refused];
    var backend := Encode(ReadyForQuery('I')) + rest;
    var s0 := Start(backend, client);
    BeginPasses(cfg.pol);
    BeginIsQuery();
    PipelinedRun(cfg, 'I', rest, Begin(), refused);
    var s1 := Schedule(cfg, s0, PipelineMoves());
    BeginWaits(cfg, s1, rest, refused);
    QueuedRelayed(cfg, s1, ReadyForQuery('I'));
    var relay := [BackendLock] + [BackendWrite(6)] + [BackendUnlock];
    var s2 := Schedule(cfg, s1, relay);
    Drained(cfg, s2);
    EncodedDecodes(ms);
    var s3 := Schedule(cfg, s2, DrainMoves(rest));
    ScheduleAppend(cfg, s1, relay, DrainMoves(rest));
    ScheduleAppend(cfg, s0, PipelineMoves(), RelayRest(rest));
    RelayRestIs(rest);
    ScheduleBackend(cfg, backend, client, PipelineMoves() + RelayRest(rest));
    TransactionIsOpen(backend, s2, s3, done, TailBytes(AtBoundary));
    SameCp(s1, s2);
    assert [] + [FromBackend(ReadyForQuery('I'))] == [FromBackend(ReadyForQuery('I'))];
  }

  lemma SameCp(s: Sys, t: Sys)
    requires SameClient(s, t)
    ensures t.cp == s.cp
  {
  }

  lemma AnswersValid(done: seq<Message>)
    requires ValidMessages(done)
    ensures ValidMessages(BeginAnswers(done))
  {
  }

  lemma BeginIsQuery()
    ensures Begin().kind == 'Q'
  {
  }

  lemma RelayRestIs(rest: Bytes)
    ensures RelayRest(rest) == [BackendLock] + [BackendWrite(6)] + [BackendUnlock] + DrainMoves(rest)
  {
  }

  lemma BeginWaits(cfg: Config, s: Sys, rest: Bytes, refused: Message)
    requires Pipelined(cfg, s, 'I', rest, Begin(), refused)
    ensures ValidMessage(ReadyForQuery('I')) && |Encode(ReadyForQuery('I'))| == 6
    ensures s.lock == Nobody && s.bp == Queued(HeaderOf(ReadyForQuery('I')), Encode(ReadyForQuery('I')), 0)
    ensures Refusal(cfg.pol, refused).Some? && s.cp == Waiting([Refusal(cfg.pol, refused).value, ReadyForQuery('I')])
    ensures s.backend == rest && s.log == []
  {
    hide Refusal;
  }

  lemma TransactionIsOpen(backend: Bytes, s: Sys, t: Sys, done: seq<Message>, rest: Bytes)
    requires BackendInv(backend, t) && Relayed(s, t, BeginAnswers(done), rest)
    ensures t.cp == s.cp && t.log == s.log + Items(BeginAnswers(done)) && t.tx == 'T'
  {
    hide LogStatuses, Items, LastStatus, BackendBytes, EncodeAll, ValidMessages;
    StatusOfLast(s.log, done, 'T');
    assert LogStatuses(t.log) + [] == LogStatuses(t.log);
  }

  // ---- The pumps and the session ----

  /**
   A schedule that has handled all of a client's messages is the session of that client
   with the statuses recorded when each was handled: the locked writes are the same and in
   order, and the same bytes go upstream, except that a schedule has no move for what a
   message whose payload is cut off can still send.
   */
  lemma ScheduleIsSession(cfg: Config, scratchMax: nat, backend: Bytes, client: Bytes, moves: seq<Move>)
    ensures var s := Schedule(cfg, Start(backend, Frames(client)), moves);
            var tx := (i: nat) => if i < |s.ins| then s.ins[i].tx else 'I';
            s.client == [] ==>
              && s.filter == Session.SessionRun(cfg, client, tx) && Session.ValidTrace(s.filter)
              && Session.SessionUp(cfg, scratchMax, client, tx) ==
                 EncodeAll(s.filter.up) + Session.TailUp(cfg, scratchMax, s.filter.st, TailOf(client))
              && (!TailOf(client).InPayload? ==> Session.SessionUp(cfg, scratchMax, client, tx) == EncodeAll(s.filter.up))
              && LogGroups(s.log) + PendingGroup(s.cp) == Session.SessionRun(cfg, client, tx).replies
  {
    hide Schedule, Run, Frames, TailOf, EncodeAll, LogGroups, PendingGroup, Truthful;
    var s := Schedule(cfg, Start(backend, Frames(client)), moves);
    ScheduleClient(cfg, backend, Frames(client), moves);
    if s.client == [] {
      var tx := (i: nat) => if i < |s.ins| then s.ins[i].tx else 'I';
      assert Messages(s.ins) + [] == Messages(s.ins);
      assert Session.Inputs(Frames(client), tx) == s.ins;
      Session.SessionIsValid(cfg, client, tx);
      assert EncodeAll(s.filter.up) + [] == EncodeAll(s.filter.up);
    }
  }
}

# tapaside: a verified model of the policy proxy

tapaside is a PostgreSQL sidecar. It reads a client's wire-protocol messages, refuses
those whose SQL is not allowed by a read-only policy, forwards the rest, and relays the
backend's answers. This project models the parts that decide what reaches the database
and what the client is told, and proves what they promise, for every input, every run
and every interleaving.

| file | contents |
|---|---|
| `wrappers.dfy` | the option type |
| `lexer.dfy`, `locality.dfy`, `spans.dfy` | which lexical construct opens where, where it closes, what may be cut off without changing a token; grammars that render each construct |
| `trim.dfy` | `strings.TrimSpace` over the bytes of a Go string |
| `statements.dfy`, `twopass.dfy`, `compose.dfy`, `erase.dfy` | splitting, the one-pass lexer, and the laws that relate them |
| `render.dfy` | the lexical structure of a text written out segment by segment, and the proof that every text has one and is lexed, split and classified by it |
| `classifier.dfy`, `keywords.dfy` | the declarative read/write verdict, and the same verdict in plain words |
| `scanner.dfy` | the imperative scanner, splitter, word iterator and classifier |
| `policy.dfy` | `Evaluate` and `Enforces` |
| `wire.dfy`, `streams.dfy` | framing, connections as finite byte sources and append-only sinks, `ReadPayload` |
| `machine.dfy`, `laws.dfy`, `denial.dfy` | the policy filter as a machine over messages, and its laws over every run |
| `filter.dfy`, `session.dfy`, `wirelaws.dfy` | the filter as a class over arrays, the client-to-upstream loop, and the laws on the wire |
| `relay.dfy` | the two pumps and the locked client writer as interleaved moves, and what every interleaving keeps |
| `relaylaws.dfy`, `tearing.dfy` | when the client stream is intact, and what happens to it exactly when it is not |
| `answers.dfy`, `order.dfy` | how many ReadyForQuery messages the client gets, what each answers, when its status is current, and when they come in the order of the requests |
| `server.dfy` | connection slots and shutdown, under every interleaving |

Bytes are characters up to 255, so that SQL text and message kinds read naturally. The
hold budget, the scratch limit and the chunk size are parameters; the code's values are
`Machine.MAX_HELD`, `Filter.SCRATCH_MAX` and `Streams.CHUNK`. A client or backend
connection is the finite byte sequence it will deliver, which may end anywhere. The
transaction status that another goroutine records is an input of each message in the
filter, and is produced by the backend's own messages in `relay.dfy`.

## How the pieces fit

The SQL half has a pure one-pass lexer (`Statements.Scan`) as its reference. The methods
of `scanner.dfy` split the text, trim each piece and scan it again from scratch, as the
source does; `TwoPass.TwoPassAgreement` shows that this finds the same words, and
`Sqlscan.ReadOnly` is proved to compute the one-pass verdict. What the lexer itself does is
stated without it: `Rendering.Laid` says how words, separators, literals, comments and dollar
quotes stand one behind the other, in character codes; every text is such a layout, up to an
end that is never closed (`Rendering.EveryTextIsLaid`), its tokens are the layout's words and
semicolons (`Rendering.LayoutScans`), and it is read-only exactly when every statement of the
layout may pass, letter by letter (`Keywords.ReadOnlyExactly`).

The filter half has a machine over whole messages (`Machine.Step`, `Machine.Run`) as its
reference. `Filter.MsgFilter` keeps its bytes in a reused scratch array and a growing held
array; `Filter.MsgFilter.Handle` is proved to do exactly one machine step, and
`Session.CopyMessages` is proved to send exactly the machine's bytes for every client
stream. The laws are then proved about the machine and carried to the wire.

## Where the code does less than its comments say

The model follows the code in each case.

- A denied batch is invisible to the backend exactly when nothing of it had to go upstream
  before the refused Parse: it is Parse, Bind, Execute, Describe and Close messages that fit
  the hold budget, and refused function calls (`DenialLaws.DeniedBatch`, with
  `DenialLaws.CanBeKept` as the condition). A Flush, a refused Query or any other message
  releases it. The comment on `copyMessages` says it without the condition.
- Growing the payload buffer copies no more than the payload exactly when the last doubling
  overshoots it by at most the first buffer (`Streams.CopiesOnceExactly`,
  `Streams.CopiesOnceBetween`). It always copies less than twice the payload, and nearly
  that much one byte past a power of two (`Streams.CopiesBound`,
  `Streams.CopiesWorstCase`). The comment on `ReadPayload` says about once.
- The client stream is intact under every interleaving exactly when the backend's stream
  does not end inside the payload of a message other than a ReadyForQuery
  (`Tearing.IntegrityHoldsExactly`). When it does, the lock is given back with the message
  half written, and a reply that was waiting goes out behind it, so that the client takes
  its bytes for the missing payload (`Tearing.TornMessageSwallowsReply`), until the
  connections are closed.
- A synthesized ReadyForQuery reports the last status the backend had reported when the
  refused message was handled (`Answering.ReportedStatus`). The backend's reports start with
  the ReadyForQuery that ends the start-up, which answers no message of the client; the
  theorems count it as `opening`, one for PostgreSQL. The reported status is the current
  transaction state, whatever the backend still answers, exactly when the opening was over
  and everything forwarded before that message had been answered
  (`Answering.StatusIsCurrentExactly`). A client that pipelines can be told a stale one
  (`Answering.PipelinedStatusIsStale`): behind BEGIN it can be told that it is idle while its
  transaction is open (`Answering.BeginIsReportedIdle`). The comment on `txStatus` says the
  truth without the condition.

## What does not hold as it might be expected

- The map of connections can exceed the connection limit by any number, because a session
  gives its slot back before it leaves the map (`Server.MapCanExceedLimit`). Over all
  schedules in which at most k sessions are lingering so whenever a slot is taken, the bound
  is the limit and k, and no smaller one; in particular the map stays within the limit
  exactly when k is zero (`Server.MapBoundExactly`).
- The ReadyForQuery messages on the client stream come in the order of the requests they
  answer exactly when the proxy finishes each of its own only after the opening and all that
  had been forwarded were answered and relayed (`Ordering.AnswersInTurnExactly`). A current
  status is not enough: it is recorded before its message is written
  (`Ordering.RefusalOvertakes`).
- A text followed by a semicolon and another text splits into the pieces of both exactly
  when the first ends outside every construct and line comment (`Compose.SplitComposes`),
  and the verdict is the conjunction for every continuation exactly when the first is closed
  or refused already (`Compose.VerdictComposesExactly`).
- The span of a quoted literal is not its shortest closed prefix: a doubled quote makes it
  go on. It is the quoted value that no further quote follows (`Spans.SkippedIsQuoted`).

## Model

| member | source | states |
|---|---|---|
| Lexer.SkipLen | internal/sqlscan/scanner.go:14-44 | something is skipped exactly when a construct opens at the cursor, and never more than what is left, so both scanning loops make progress |
| Rendering.NothingOpensInWord | internal/sqlscan/scanner.go:29-50 | behind a letter, a digit or an underscore no e, E or dollar opens anything |
| Rendering.OpensAtTokenStart | internal/sqlscan/scanner.go:29-50 | at a token start an e or E opens an escape string if and only if a quote follows, and a dollar a dollar quote if and only if a tag stands there |
| Rendering.WordThenQuote | internal/sqlscan/scanner.go:29-50 | a word other than e and E, a quoted value behind it and a semicolon are read as that word, the semicolon and then the rest of the text |
| Rendering.WordThenDollar | internal/sqlscan/scanner.go:35-50 | a dollar behind a word is a separator, and the text behind it is read as if it stood alone |
| Rendering.EveryTextIsLaid | internal/sqlscan/scanner.go:14-179 | every text is words, separators, semicolons, literals, quoted identifiers, escape strings, comments and dollar quotes, each closed and none running into the next, up to an end that opens something and never closes it |
| Rendering.TextIsLaid | internal/sqlscan/sqlscan.go:219-268 | every text has a layout, and its tokens are that layout's words and semicolons |
| Rendering.LayoutScans | internal/sqlscan/sqlscan.go:219-268 | the words found are exactly the maximal runs of letters, digits and underscores outside the constructs of the layout |
| Rendering.GroupsLaid | internal/sqlscan/sqlscan.go:114-145 | the words fall into statements at the semicolons of the layout |
| Rendering.PiecesLaid | internal/sqlscan/sqlscan.go:114-145 | splitting cuts at the semicolons of the layout and nowhere else, trims each piece, and drops the empty ones |
| Locality.SkipCut | internal/sqlscan/scanner.go:16-50 | cutting a text behind the cursor at a byte that separates tokens shortens what is skipped to the cut and changes nothing else |
| Spans.QuotedIsSkipped | internal/sqlscan/scanner.go:88-125 | any value written with its quotes doubled between quotes is spanned exactly, whatever follows but another quote |
| Spans.SkippedIsQuoted | internal/sqlscan/scanner.go:88-125 | whatever a quote span covers is a value with its quotes doubled, and no quote follows |
| Spans.EscapeStringIsSkipped | internal/sqlscan/scanner.go:127-147 | an escape string made of plain bytes, doubled quotes and escaped bytes is spanned exactly, prefix included |
| Spans.SkippedIsEscapeString | internal/sqlscan/scanner.go:127-147 | whatever an escape-string span covers is such a string, and no quote follows |
| Spans.CommentIsSkipped | internal/sqlscan/scanner.go:63-86 | a tree of properly nested comments is spanned exactly, whatever follows |
| Spans.SkippedIsComment | internal/sqlscan/scanner.go:63-86 | whatever a block-comment span covers is one tree of properly nested comments |
| Spans.FirstNewline | internal/sqlscan/scanner.go:52-61 | a line comment ends at n if and only if n is the first CR or LF |
| Spans.DollarTagGrammar | internal/sqlscan/scanner.go:149-170 | a dollar quote opens with a tag if and only if the text starts with dollar, word bytes not led by a digit, dollar |
| Spans.DollarQuoteGrammar | internal/sqlscan/scanner.go:172-179 | a dollar quote ends at n if and only if the first later occurrence of its tag ends at n |
| Sqlscan.LineCommentLen | internal/sqlscan/scanner.go:52-61 | the loop returns the index of the first line end, or the whole remainder |
| Sqlscan.BlockCommentLen | internal/sqlscan/scanner.go:63-86 | the depth-counting loop returns the end of the nested comment, or the whole remainder |
| Sqlscan.QuoteLen | internal/sqlscan/scanner.go:88-125 | the loop, for either quote byte, returns the end of the quoted text, or the whole remainder |
| Sqlscan.EscapeStringLen | internal/sqlscan/scanner.go:127-147 | the loop returns the end of the escape string, or the whole remainder |
| Sqlscan.DollarTag | internal/sqlscan/scanner.go:149-170 | the loop finds the tag that opens the text, or none |
| Sqlscan.DollarQuoteLen | internal/sqlscan/scanner.go:172-179 | the search returns the end of the dollar quote, or the whole remainder |
| Sqlscan.Scanner.SkippableLen | internal/sqlscan/scanner.go:14-44 | at any cursor the scanner skips what the pure lexer skips there |
| Trimming.TrimIsSlice | internal/sqlscan/sqlscan.go:114-145 | trimming removes only blanks, leaves no white space at either end, and is idempotent |
| Trimming.TrimExactly | internal/sqlscan/sqlscan.go:114-145 | what trimming cuts off at both ends is whole white space characters, given by their codes, and what is left neither starts nor ends with one |
| Trimming.TrimNewline | internal/sqlscan/sqlscan.go:127-127 | a newline at the end of a piece disappears in the trimmed piece |
| Statements.ScanDrop | internal/sqlscan/sqlscan.go:219-264 | a scan that starts behind a token separator does not depend on the text before it |
| Statements.ScanCutAtEnd | internal/sqlscan/sqlscan.go:114-145 | up to its first top-level semicolon a text lexes as if it ended there |
| Statements.TrailingBlanks | internal/sqlscan/sqlscan.go:119-145 | cutting trailing blanks changes no token, even inside an unterminated construct or a line comment |
| TwoPass.ScanTrim | internal/sqlscan/sqlscan.go:119-145 | trimming a piece changes neither its tokens nor whether it ends inside an open construct |
| TwoPass.TwoPassAgreement | internal/sqlscan/sqlscan.go:104-145 | the words of the trimmed pieces, each scanned from scratch, are the words of the one-pass lexer, statement by statement |
| TwoPass.PiecewiseVerdict | internal/sqlscan/sqlscan.go:100-112 | every piece reads if and only if every statement of the one-pass token stream reads |
| TwoPass.ReadOnlyHasNoWriteWord | internal/sqlscan/sqlscan.go:73-77 | a text that passes has no data-modifying word outside its literals and comments |
| Erasure.VerdictIgnoresSkippedBytes | internal/sqlscan/sqlscan.go:219-224 | blanking every literal, quoted identifier, dollar quote and comment leaves the token stream and the verdict unchanged |
| Compose.SplitComposes | internal/sqlscan/sqlscan.go:114-145 | joining with a semicolon splits into the pieces of both texts if and only if the first ends outside every construct and line comment |
| Compose.VerdictComposes | internal/sqlscan/sqlscan.go:100-112 | behind a closed text the verdict on both is the conjunction |
| Compose.VerdictComposesExactly | internal/sqlscan/sqlscan.go:100-112 | the verdict is the conjunction for every continuation if and only if the first text is closed or refused already |
| Compose.NewlineCloses | internal/sqlscan/scanner.go:52-61 | a newline closes an open line comment and nothing else, and changes no piece |
| Compose.PieceIsStable | internal/sqlscan/sqlscan.go:114-145 | a piece splits into itself, and only the last piece can end inside an open construct |
| Compose.SplitJoinRoundTrip | internal/sqlscan/sqlscan.go:114-145 | re-splitting the pieces joined by newline and semicolon gives the pieces back |
| Sqlscan.Split | internal/sqlscan/sqlscan.go:114-145 | the loop over a mutable cursor returns the trimmed, nonempty statements |
| Sqlscan.WordScanner.Next | internal/sqlscan/sqlscan.go:219-264 | each call yields the next significant word and leaves the others, without scanning further |
| Sqlscan.Classify | internal/sqlscan/sqlscan.go:147-207 | the loop with its early returns computes the declarative verdict on all words of the statement |
| Sqlscan.ReadOnly | internal/sqlscan/sqlscan.go:100-112 | split, re-scan and classify compute the one-pass verdict |
| Classifier.WriteSurvives | internal/sqlscan/sqlscan.go:147-151 | a Write verdict survives any words that follow, which justifies returning early |
| Classifier.WriteWordMeansWrite | internal/sqlscan/sqlscan.go:180-183 | a data-modifying word anywhere, the EXPLAIN prefix included, makes the verdict Write |
| Keywords.VerdictExactly | internal/sqlscan/sqlscan.go:40-217 | a statement is Read if and only if behind EXPLAIN and its twenty-two options it is empty, or starts with one of twenty words and has no insert, update, delete or merge, nor an into behind select or with, in whatever case |
| Keywords.ReadOnlyExactly | internal/sqlscan/sqlscan.go:100-112 | a text is read-only if and only if every statement of its layout is so |
| Keywords.HeadRefuses | internal/sqlscan/sqlscan.go:198-206 | a text whose first statement starts with a word that may not head one is refused, whatever follows |
| Keywords.NeverPasses | internal/sqlscan/sqlscan.go:80-98 | DROP, CREATE, PREPARE and EXECUTE are refused in whatever case and whatever follows, also behind EXPLAIN and an option |
| Policies.EnforcesExactly | internal/policy/policy.go:60-70 | a policy enforces if and only if it would block some text |
| Policies.AllowedExactly | internal/policy/policy.go:72-79 | an enforced policy allows a text if and only if every statement of its layout may pass |
| Policies.EvaluateSql | internal/policy/policy.go:72-79 | the evaluation blocks exactly the texts that are not read-only under a read-only policy |
| Wire.HeaderReadEncodes | internal/pgwire/pgwire.go:182-212 | encoding a header reproduces the five bytes it was read from |
| Wire.FrameLayout | internal/pgwire/pgwire.go:198-227 | on the wire a message is its kind, the big-endian length of everything behind the kind, the length itself included, and its payload |
| Wire.HeaderLayout | internal/pgwire/pgwire.go:182-196 | five bytes are a header if and only if the length they carry lies between 4 and 2^30, and its payload is four bytes less |
| Wire.StartupLayout | internal/pgwire/pgwire.go:42-60 | a startup packet is its own length, its code and its payload |
| Wire.StartupReads | internal/pgwire/pgwire.go:62-89 | one is read if and only if its length lies between 8 and 10000 and all of it has arrived |
| Wire.MalformedEnd | internal/pgwire/pgwire.go:182-196 | a stream is malformed only where a length is out of range |
| Wire.ErrorIsRead | internal/pgwire/pgwire.go:146-174 | a client reads exactly both severities ERROR, the SQLSTATE and the text out of an error |
| Wire.MessageRoundTrip | internal/pgwire/pgwire.go:214-227 | reading an encoded message followed by any bytes returns it and leaves those bytes |
| Wire.FirstMessageEncodes | internal/pgwire/pgwire.go:290-306 | a message that was read is written back byte for byte |
| Wire.DecodeThenEncode | internal/pgwire/pgwire.go:182-227 | every stream is its whole messages and its tail, byte for byte |
| Wire.EncodeThenDecode | internal/pgwire/pgwire.go:214-227 | decoding inverts encoding for any message list and any continuation |
| Wire.UniqueDecoding | internal/pgwire/pgwire.go:214-306 | two message lists with the same encoding are equal |
| Wire.CleanEndMeansWholeFrames | internal/proxy/pg/pg.go:276-314 | a stream ends between messages if and only if it is the encoding of its messages |
| Wire.QueryTextIsExact | internal/pgwire/pgwire.go:104-114 | the query text is the part before the first zero byte, or all of a payload without one |
| Wire.ParseTextIsExact | internal/pgwire/pgwire.go:116-133 | a Parse yields SQL if and only if its payload is a terminated name, that SQL terminated, and anything |
| Wire.StartupRoundTrip | internal/pgwire/pgwire.go:42-89 | reading a startup packet returns a message and a rest if and only if the stream is that message within the length limit and that rest |
| Streams.ReadPayload | internal/pgwire/pgwire.go:229-261 | it returns exactly the next bytes or fails exactly when fewer exist; no buffer exceeds the claim, nor one chunk or twice what arrived; growth copies exactly what doubling copies, less than twice the claim, and no more than the claim if and only if the last doubling overshoots it by at most the first buffer |
| Streams.CopiesOnceExactly | internal/pgwire/pgwire.go:231-235 | growth copies no more than the payload if and only if the first doubling that holds it exceeds it by at most the first buffer |
| Streams.CopiesOnceBetween | internal/pgwire/pgwire.go:231-235 | between two doublings that is so if and only if the payload lies within one first buffer of the larger one |
| Streams.CopiesBound | internal/pgwire/pgwire.go:231-235 | doubling copies less than twice the payload |
| Streams.CopiesWorstCase | internal/pgwire/pgwire.go:231-235 | one byte past a power of two it copies almost twice the payload |
| Streams.SyncWriter.WriteMessages | internal/proxy/pg/pg.go:813-832 | all messages go out back to back in one locked write |
| FilterLaws.ReleaseTracking | internal/proxy/pg/pg.go:338-342 | over every enforcing run the release mark is set if and only if an extended message went upstream since the last Sync or Query that did; nothing is held while skipping; the held batch is Parse, Bind, Execute, Describe and Close within the budget |
| FilterLaws.HeldIsBounded | internal/proxy/pg/pg.go:45-50 | with the code's budget no batch of any run holds more than one mebibyte |
| FilterLaws.SyncResynchronizes | internal/proxy/pg/pg.go:454-463 | after every client Sync the filter is idle and nothing sent is unsynced |
| FilterLaws.OnlyClearedMessages | internal/proxy/pg/pg.go:399-489 | over every enforcing run nothing the filter refuses is sent or held |
| FilterLaws.Enforcement | internal/proxy/pg/pg.go:257-269 | every Query and Parse sent or held carries SQL the policy allows, every such Parse has both terminators, and no function call is sent |
| FilterLaws.RunIsOrdered | internal/proxy/pg/pg.go:603-669 | what is sent and held is always a subsequence of the client's messages in order, and nothing is held without a policy or while skipping |
| FilterLaws.TransparentWithoutPolicy | internal/proxy/pg/pg.go:395-397 | without an enforcing policy every message is sent and nothing is answered |
| FilterLaws.TransparentWhenQuiet | internal/proxy/pg/pg.go:262-267 | a run without answers sends or holds every message, and holds nothing at a Sync, Flush, Query or uninspected message |
| FilterLaws.BudgetIndependentVerdicts | internal/proxy/pg/pg.go:603-607 | under any two hold budgets the same messages are refused with the same errors and the same batches are skipped |
| DenialLaws.AnswersConserved | internal/proxy/pg/pg.go:684-715 | each Sync, and each Query and function call outside a skipped batch, is answered exactly once, by forwarding or by a synthesized ReadyForQuery; each error is paid off by a synthesized ReadyForQuery or a forwarded Sync, or its batch is still being skipped |
| DenialLaws.BatchIsHeld | internal/proxy/pg/pg.go:338-342 | of an open batch all that is not refused is sent or held in order, each refusal is answered by one pair, and part is released if and only if the batch holds a message that has to go upstream or outgrows the budget |
| DenialLaws.DeniedTail | internal/proxy/pg/pg.go:684-696 | from a refused Parse to its Sync the backend gets only the Sync if part of the batch was released, and otherwise nothing, the client getting one error and one ReadyForQuery |
| DenialLaws.DeniedBatch | internal/proxy/pg/pg.go:263-267 | whatever a batch holds before its refused Parse, Flush and pass-through messages included, it is invisible to the backend if and only if nothing of it had to go upstream and it fits the budget; otherwise the backend gets a nonempty part of it in order and then its Sync, and the client no ReadyForQuery from the proxy |
| DenialLaws.KeptBackExactly | internal/proxy/pg/pg.go:449-452 | on an idle filter a message that is let through is kept back if and only if it is a Parse, Bind, Execute, Describe or Close and fits the budget |
| DenialLaws.DeniedBatchKinds | internal/proxy/pg/pg.go:263-267 | a denied batch leaves the backend nothing if and only if only Parse, Bind, Execute, Describe, Close and refused function calls came before the refused Parse, and what was let through fits |
| DenialLaws.CallIsRead | internal/proxy/pg/pg.go:472-481 | a refused function call is answered with 0A000 and its text |
| DenialLaws.MalformedIsRead | internal/proxy/pg/pg.go:436-443 | a Parse without its terminators is answered with 08P01 and its text |
| DenialLaws.BlockedIsRead | internal/proxy/pg/pg.go:707-715 | a blocked statement is answered with 42501 and the rule that blocked it |
| DenialLaws.DenialAnywhere | internal/proxy/pg/pg.go:684-696 | at any point of any run a refused Parse costs the backend nothing if it has seen nothing of the open batch, and exactly the Sync if it has |
| Filter.MsgFilter.constructor | internal/proxy/pg/pg.go:286-286 | a new filter is idle and holds nothing |
| Filter.MsgFilter.InspectPayload | internal/proxy/pg/pg.go:497-521 | exactly the payload is read, into the scratch array or one of its own, and never over the held bytes |
| Filter.MsgFilter.Stream | internal/proxy/pg/pg.go:554-573 | the message is forwarded whole, or its header and the bytes that came |
| Filter.MsgFilter.ForwardBuffered | internal/proxy/pg/pg.go:575-583 | the message is appended upstream |
| Filter.MsgFilter.Relay | internal/proxy/pg/pg.go:538-552 | the message is forwarded whole; cut off, it leaves bytes upstream only when it is streamed |
| Filter.MsgFilter.DiscardPayload | internal/proxy/pg/pg.go:585-601 | exactly the payload is consumed |
| Filter.MsgFilter.AppendHeld | internal/proxy/pg/pg.go:623-625 | the bytes are copied behind the held ones, whatever capacity the runtime picks |
| Filter.MsgFilter.ResetHeld | internal/proxy/pg/pg.go:671-682 | the batch is emptied and the buffer kept only within the scratch limit |
| Filter.MsgFilter.FlushHeld | internal/proxy/pg/pg.go:652-669 | the held batch goes upstream in order and the release mark is set if there was one |
| Filter.MsgFilter.Hold | internal/proxy/pg/pg.go:609-628 | a message that was read is held, or sent behind the held batch when it does not fit |
| Filter.MsgFilter.HoldFromWire | internal/proxy/pg/pg.go:630-650 | the same for a message still on the wire, with what a cut-off message leaves upstream |
| Filter.MsgFilter.DenyBatch | internal/proxy/pg/pg.go:684-696 | the batch is dropped, skipping starts, and one error is written |
| Filter.MsgFilter.DecideQuery | internal/proxy/pg/pg.go:410-429 | a query that was read is forwarded, or answered by one write of error and ReadyForQuery with the release mark kept |
| Filter.MsgFilter.DecideParse | internal/proxy/pg/pg.go:436-449 | a Parse that was read is held, or its batch denied with the error for its cause |
| Filter.MsgFilter.HandleSkipped | internal/proxy/pg/pg.go:369-393 | a skipped message does what the machine's skip step does, and cut off it leaves nothing |
| Filter.MsgFilter.HandleQuery | internal/proxy/pg/pg.go:400-429 | a Query does what the machine's query step does, and cut off it leaves nothing |
| Filter.MsgFilter.HandleParse | internal/proxy/pg/pg.go:430-449 | a Parse does what the machine's parse step does, and cut off it leaves nothing |
| Filter.MsgFilter.HandleRelease | internal/proxy/pg/pg.go:454-471 | a Sync or Flush takes the held batch upstream, whether or not it fitted |
| Filter.MsgFilter.HandleFunctionCall | internal/proxy/pg/pg.go:472-481 | a function call is consumed and refused by one write of error and ReadyForQuery |
| Filter.MsgFilter.HandleOther | internal/proxy/pg/pg.go:484-488 | the held batch and then the message are forwarded |
| Filter.MsgFilter.Handle | internal/proxy/pg/pg.go:365-489 | a message that arrives whole has exactly the effect of one machine step; one that is cut off has exactly the truncated effect; the memory bounds hold afterwards |
| Session.ReadHeaderFrom | internal/pgwire/pgwire.go:182-196 | the header read is the one at the front of the stream, with the error for its cause |
| Session.OutcomeExactly | internal/proxy/pg/pg.go:276-314 | half-close is reported if and only if the stream is whole messages and nothing else, and a protocol error if and only if it goes on with a malformed header |
| Session.RepliesAreWrites | internal/proxy/pg/pg.go:813-832 | every reply is one locked write of its messages back to back |
| Session.CopyMessages | internal/proxy/pg/pg.go:257-314 | for every client stream the bytes sent and the client writes are those of the machine, and half-close is reported if and only if the stream ends between messages |
| WireLaws.SessionUpDecodes | internal/proxy/pg/pg.go:279-314 | the backend decodes exactly the messages sent, perhaps with the held batch, and at most the client's own cut-off message, never a Query, Parse or function call under a policy |
| WireLaws.CutOffMessage | internal/proxy/pg/pg.go:497-573 | a session that ends inside a Query, Parse or function call, or while skipping, sends nothing beyond the messages handled; one that ends inside a message that could be held sends its beginning, behind the held batch, only when it does not fit; and any other one is sent as far as it came when it is streamed |
| WireLaws.CutOffWithoutPolicy | internal/proxy/pg/pg.go:538-573 | without a policy a session that ends inside a message sends all of its bytes when that message is streamed, and only the whole messages when it is not |
| WireLaws.OnlyPassingStatements | internal/proxy/pg/pg.go:257-269 | the statements of every Query the backend can decode from an enforcing session may pass |
| WireLaws.WireEnforcement | internal/proxy/pg/pg.go:257-269 | every message the backend can decode from an enforcing session is one the policy lets through |
| WireLaws.WireOrder | internal/proxy/pg/pg.go:168-171 | the backend decodes a subsequence of the client's messages |
| WireLaws.WithoutPolicy | internal/proxy/pg/pg.go:395-397 | without a policy the backend gets a prefix of the client's bytes, all of them when the stream ends cleanly, and the proxy writes nothing |
| WireLaws.InvisibleForEveryBudget | internal/proxy/pg/pg.go:45-50 | a session in which nothing is denied under one budget reaches the backend byte for byte under every budget |
| Relay.ScheduleOut | internal/proxy/pg/pg.go:781-832 | under every interleaving each pump writes only while it holds the lock, and the client stream is the finished items and the unfinished one of the lock holder |
| Relay.ScheduleBackend | internal/proxy/pg/pg.go:717-779 | the backend's bytes are relayed verbatim and in order, and the recorded statuses are those of its ReadyForQuery messages |
| Relay.ScheduleClient | internal/proxy/pg/pg.go:204-206 | the filter's run is the machine's run with the statuses recorded when each message was handled, and its answers reach the client in order |
| RelayLaws.BrokenMeansTorn | internal/proxy/pg/pg.go:755-779 | the backend pump can only give the lock back inside a message when the backend's stream ends inside one |
| RelayLaws.ClientStreamIntegrity | internal/proxy/pg/pg.go:755-779 | under every interleaving, if the backend's stream does not end inside a message no write is torn, and then the client stream is whole messages and the lock holder's unfinished one, the backend's a prefix of its own and the proxy's writes unsplit and in order |
| Answering.ReportedStatus | internal/proxy/pg/pg.go:352-363 | the k-th locked write answers one client message, later than those before it, and a ReadyForQuery in it reports idle if and only if the last status recorded when that message was handled was idle, and failed otherwise |
| Tearing.Drained | internal/proxy/pg/pg.go:724-779 | with the lock free, a schedule relays all whole messages of the backend and stops at the end of its stream |
| Tearing.BackendTorn | internal/proxy/pg/pg.go:755-779 | for every backend stream that ends inside a message some schedule puts all of it on the client stream and frees the lock with the last message torn |
| Tearing.IntegrityHoldsExactly | internal/proxy/pg/pg.go:755-779 | for every client and backend stream, all interleavings keep the client stream intact if and only if the backend's stream does not end inside a message |
| Tearing.HeaderAloneIsTorn | internal/proxy/pg/pg.go:755-779 | a backend stream that stops behind the header of any message with a payload, other than a ReadyForQuery, ends inside a message |
| Tearing.TornMessageSwallowsReply | internal/proxy/pg/pg.go:760-777 | for every such backend stream and every client that is refused anything, some schedule writes the refusal behind the torn message and the client takes its bytes for the payload |
| Answering.ReadyMessagesAreConserved | internal/proxy/pg/pg.go:690-715 | under every interleaving, ReadyForQuery messages on the client stream, pending ones and those asked of the backend are together what the client is owed and what the backend has answered |
| Answering.OneReadyForEachRequest | internal/proxy/pg/pg.go:257-269 | when the backend has sent the ReadyForQuery messages of its opening (one, at the end of the start-up) and one for each forwarded request, and no reply is pending, the client decodes those of the opening and exactly one for each request it is owed one for |
| Answering.RepliesAnswer | internal/proxy/pg/pg.go:690-715 | the locked writes of a run are the answers to distinct messages, in the order of those messages |
| Answering.StatusIsCurrentExactly | internal/proxy/pg/pg.go:199-203 | the status a message is answered with is the current one, whatever the backend still answers, if and only if the opening, with its ReadyForQuery at the end of the start-up, was over and everything forwarded before that message had been answered |
| Answering.PipelinedStatusIsStale | internal/proxy/pg/pg.go:199-203 | a refusal pipelined behind any query that passes, itself behind the opening ReadyForQuery, reports the opening's status, which is not current |
| Answering.BeginIsReportedIdle | internal/proxy/pg/pg.go:325-327 | for BEGIN and a refusal behind it some schedule relays the answer to BEGIN, which opens a transaction, and still reports idle for the refusal |
| Ordering.OwedIsCounted | internal/proxy/pg/pg.go:684-715 | what the client is owed is the opening and one answer for each request, the backend's for what is forwarded and the proxy's for the rest |
| Ordering.SentIsCounted | internal/proxy/pg/pg.go:781-832 | what is sent is every ReadyForQuery on the client stream, the backend's and the proxy's |
| Ordering.AnswersInTurnExactly | internal/proxy/pg/pg.go:698-706 | for a backend that answers what is forwarded once, in order and not before, the k-th ReadyForQuery on the client stream answers the k-th request for every k if and only if the proxy finished each of its own only when the opening and all forwarded had been answered and relayed |
| Ordering.RefusalOvertakes | internal/proxy/pg/pg.go:736-750 | a refusal with the current status can reach the client before the ReadyForQuery that status was read from |
| Answering.ScheduleIsSession | internal/proxy/pg/pg.go:188-221 | a schedule that has handled all whole messages of a client stream has the locked writes of that stream's session, with the statuses it recorded, and its upstream bytes up to what a cut-off last message sends, which are all of them when no payload is cut off |
| Server.ScheduleKeeps | internal/proxy/proxy.go:101-183 | the invariant of slots, map and closed connections holds in every reachable state |
| Server.ForcedOnlyAfterDrain | internal/proxy/proxy.go:168-178 | a session still in its handler finds its connection closed only if there is a drain timeout and it ran out behind the stop of the listener; without one nothing is force-closed |
| Server.ReturnedIsDrained | internal/proxy/proxy.go:168-186 | when Serve has returned without giving up, no session is left, the map is empty and every slot is free |
| Server.TurnedAwayExactly | internal/proxy/proxy.go:138-147 | a connection is turned away if and only if there is a limit and sessions hold all of its slots |
| Server.NothingAcceptedBehindStop | internal/proxy/proxy.go:103-110 | behind the stop of the listener nothing more is accepted |
| Server.SessionLeavesNothing | internal/proxy/proxy.go:149-164 | a session that found a free slot can run to its end and leaves slots, map and sessions as they were |
| Server.TimeoutLetsReturn | internal/proxy/proxy.go:172-186 | with a drain timeout Serve can always return once the listener has stopped |
| Server.IdleReturns | internal/proxy/proxy.go:168-170 | without sessions it can return at once |
| Server.SlotsAreSessions | internal/proxy/proxy.go:138-164 | occupied slots are exactly the sessions between taking and giving back a slot, never more than the limit, and every session in its handler is in the map |
| Server.NothingStaysOpen | internal/proxy/proxy.go:168-186 | once the forced close is through, and whenever Serve has returned, every connection ever accepted is closed |
| Server.RegisteredConnections | internal/proxy/proxy.go:149-164 | the map holds exactly the occupied slots, less one not yet registered, and the lingering sessions |
| Server.ExcessIsBounded | internal/proxy/proxy.go:136-162 | the map exceeds the limit by no more than the most sessions that were lingering when a slot was taken |
| Server.MapCanExceedLimit | internal/proxy/proxy.go:154-162 | for every limit and every n some schedule has the limit and n connections in the map |
| Server.MapBoundExactly | internal/proxy/proxy.go:136-162 | all schedules with at most k sessions lingering whenever a slot is taken keep the map within a bound if and only if it is at least the limit and k |

## Left out

- Writes that fail: every write to the client or the backend succeeds; a stream that ends early is modelled at every byte, a peer that stops reading is not.
- Client stalls and deadlines (`internal/proxy/stall.go`), drain windows and startup timeouts: wall-clock time is not part of the model; a timeout is a move that may happen at any moment.
- The startup dialogue, encryption requests, cancel requests and dialing: a bounded loop and foreign calls; only the framing of startup packets is modelled.
- How `relay` closes both connections and picks the causal error: schedules may be cut off at any point, so every prefix of the streams is covered, but not which error is reported.
- Panics, log lines and error texts: a panic ends one session in the source and is not modelled; the texts sent to the client are.
- The accept loop's retry backoff: a doubling delay with a cap, independent of slots and connections.
- Slots, connection map and the two pumps are modelled on values with atomic moves, not with goroutines, channels and mutexes, because interleavings are the point; memory races below the lock and the atomic are not captured.
- The client-to-upstream step in the interleaved model is one move: it reads the recorded status and sends upstream at once, and only its client write is split.
- Answering.ScheduleIsSession: a schedule has no move for a client message whose payload is cut off, so what such a message can still send upstream is stated by `Session.CopyMessages` alone.
- What a backend does with the messages it gets: where a theorem needs a backend that answers each request once, that is one of its hypotheses (a backend skips requests behind an error, for example).
- Loading policies from YAML, the command line, exit codes and signals.
- Go's growth policy for appended slices: any sufficient capacity is allowed, so the capacity of a nonempty held buffer is not bounded.
- What SQL does: the classifier is lexical by design, and so are its laws; words are folded in ASCII because only ASCII bytes are word bytes.

/**
 The message framing of internal/pgwire/pgwire.go: headers, typed messages and
 startup messages, and the decoding of a whole client stream into messages and
 what is left over at its end.
 */
module Wire {
  import opened Wrappers

  type Byte = c: char | c <= '\U{FF}'
  type Bytes = seq<Byte>

  const MAX_STARTUP_LENGTH: nat := 10000
  const MAX_MESSAGE_LENGTH: nat := 0x4000_0000
  const MAX_PAYLOAD: nat := MAX_MESSAGE_LENGTH - 4

  function Be32(n: nat): (b: Bytes)
    requires n < 0x1_0000_0000
    ensures |b| == 4
  {
    [(n / 0x100_0000) as char, (n / 0x1_0000 % 0x100) as char, (n / 0x100 % 0x100) as char, (n % 0x100) as char]
  }

  function FromBe32(b: Bytes): (n: nat)
    requires |b| == 4
    ensures n < 0x1_0000_0000
  {
    b[0] as int * 0x100_0000 + b[1] as int * 0x1_0000 + b[2] as int * 0x100 + b[3] as int
  }

  lemma Be32RoundTrip(n: nat)
    requires n < 0x1_0000_0000
    ensures FromBe32(Be32(n)) == n
  {
    var a, b := n / 0x100, n / 0x1_0000;
    assert b == a / 0x100 && n / 0x100_0000 == b / 0x100;
    assert n == 0x100 * a + n % 0x100;
    assert a == 0x100 * b + a % 0x100;
    assert b == 0x100 * (b / 0x100) + b % 0x100;
    BytesAre(n);
    hide Be32;
  }

  lemma BytesAre(n: nat)
    requires n < 0x1_0000_0000
    ensures var b := Be32(n);
            && b[0] as int == n / 0x100_0000 && b[1] as int == n / 0x1_0000 % 0x100
            && b[2] as int == n / 0x100 % 0x100 && b[3] as int == n % 0x100
  {
  }

  lemma FromBe32RoundTrip(b: Bytes)
    requires |b| == 4
    ensures Be32(FromBe32(b)) == b
  {
    var n := FromBe32(b);
    Digit(b[0] as int * 0x1_0000 + b[1] as int * 0x100 + b[2] as int, b[3] as int);
    Digit(b[0] as int * 0x100 + b[1] as int, b[2] as int);
    Digit(b[0] as int, b[1] as int);
    assert n / 0x1_0000 == n / 0x100 / 0x100 && n / 0x100_0000 == n / 0x1_0000 / 0x100;
    BytesAre(n);
    hide Be32, FromBe32;
    var c := Be32(n);
    assert c == [c[0], c[1], c[2], c[3]] && b == [b[0], b[1], b[2], b[3]];
  }

  lemma Digit(high: nat, low: nat)
    requires low < 0x100
    ensures (0x100 * high + low) / 0x100 == high && (0x100 * high + low) % 0x100 == low
  {
  }

  // ---- Typed messages ----

  datatype Header = Header(kind: Byte, payloadLen: nat)

  datatype Message = Message(kind: Byte, payload: Bytes)

  predicate ValidMessage(m: Message) {
    |m.payload| <= MAX_PAYLOAD
  }

  predicate ValidMessages(ms: seq<Message>) {
    forall m :: m in ms ==> ValidMessage(m)
  }

  /** Encode panics outside the protocol limit. */
  function EncodeHeader(h: Header): (b: Bytes)
    requires h.payloadLen <= MAX_PAYLOAD
    ensures |b| == 5
  {
    [h.kind] + Be32(h.payloadLen + 4)
  }

  function HeaderOf(m: Message): Header {
    Header(m.kind, |m.payload|)
  }

  /** Message.Bytes, and what Message.WriteTo appends to its writer. */
  function Encode(m: Message): (b: Bytes)
    requires ValidMessage(m)
    ensures |b| == 5 + |m.payload|
  {
    EncodeHeader(HeaderOf(m)) + m.payload
  }

  function EncodeAll(ms: seq<Message>): Bytes
    requires ValidMessages(ms)
  {
    if ms == [] then [] else Encode(ms[0]) + EncodeAll(ms[1..])
  }

  /** ReadHeader on a stream that will deliver exactly s. */
  datatype HeaderRead =
    | Got(header: Header)
    | CleanEnd
    | BrokenHeader
    | BadLength

  function ReadHeader(s: Bytes): (r: HeaderRead)
    ensures r.Got? ==> |s| >= 5 && r.header.payloadLen <= MAX_PAYLOAD
    ensures r.CleanEnd? <==> s == []
  {
    if s == [] then CleanEnd
    else if |s| < 5 then BrokenHeader
    else
      var length := FromBe32(s[1..5]);
      if length < 4 || length > MAX_MESSAGE_LENGTH then BadLength
      else Got(Header(s[0], length - 4))
  }

  /** Encode reproduces the header that ReadHeader consumed. */
  lemma HeaderReadEncodes(s: Bytes)
    requires ReadHeader(s).Got?
    ensures EncodeHeader(ReadHeader(s).header) == s[..5]
  {
    FromBe32RoundTrip(s[1..5]);
    assert s[..5] == [s[0]] + s[1..5];
  }

  lemma EncodedHeaderReads(h: Header, t: Bytes)
    requires h.payloadLen <= MAX_PAYLOAD
    ensures ReadHeader(EncodeHeader(h) + t) == Got(h)
  {
    var s := EncodeHeader(h) + t;
    assert s[1..5] == Be32(h.payloadLen + 4);
    Be32RoundTrip(h.payloadLen + 4);
  }

  lemma Be32Value(n: nat)
    requires n < 0x1_0000_0000
    ensures var b := Be32(n); n == b[0] as int * 16777216 + b[1] as int * 65536 + b[2] as int * 256 + b[3] as int
  {
    hide Be32;
    Be32RoundTrip(n);
  }

  /** On the wire: the kind, the length of everything behind it as a big-endian number, and the payload. */
  lemma FrameLayout(m: Message)
    requires ValidMessage(m)
    ensures var b := Encode(m);
            && |b| >= 5 && b[0] == m.kind && b[5..] == m.payload
            && b[1] as int * 16777216 + b[2] as int * 65536 + b[3] as int * 256 + b[4] as int + 1 == |b|
  {
    hide Be32;
    Be32Value(|m.payload| + 4);
  }

  /** A header is read from five bytes whose length lies between 4 and 2^30, and claims four bytes less. */
  lemma HeaderLayout(s: Bytes)
    requires |s| >= 5
    ensures var length := s[1] as int * 16777216 + s[2] as int * 65536 + s[3] as int * 256 + s[4] as int;
            ReadHeader(s) == if 4 <= length <= 1073741824 then Got(Header(s[0], length - 4)) else BadLength
  {
    var b := s[1..5];
    assert b[0] == s[1] && b[1] == s[2] && b[2] == s[3] && b[3] == s[4];
  }

  /** A stream too short for a header is a clean end if and only if it is empty. */
  lemma ShortHeader(s: Bytes)
    requires |s| < 5
    ensures ReadHeader(s) == if |s| == 0 then CleanEnd else BrokenHeader
  {
  }

  // ---- Whole streams ----

  /** The stream starts with a whole message. */
  predicate Complete(s: Bytes) {
    ReadHeader(s).Got? && 5 + ReadHeader(s).header.payloadLen <= |s|
  }

  function FirstMessage(s: Bytes): (m: Message)
    requires Complete(s)
    ensures ValidMessage(m)
  {
    var h := ReadHeader(s).header;
    Message(h.kind, s[5..5 + h.payloadLen])
  }

  function AfterFirst(s: Bytes): (t: Bytes)
    requires Complete(s)
    ensures |t| < |s|
  {
    s[5 + ReadHeader(s).header.payloadLen..]
  }

  /** What a stream ends with after its last complete message. */
  datatype Tail =
    | AtBoundary
    | InHeader(bytes: Bytes)
    | Malformed(bytes: Bytes)
    | InPayload(header: Header, bytes: Bytes)

  function Incomplete(s: Bytes): (t: Tail)
    requires !Complete(s)
    ensures t.InPayload? ==> t.header.payloadLen <= MAX_PAYLOAD && |t.bytes| < t.header.payloadLen
  {
    match ReadHeader(s)
    case CleanEnd => AtBoundary
    case BrokenHeader => InHeader(s)
    case BadLength => Malformed(s)
    case Got(h) => InPayload(h, s[5..])
  }

  function Frames(s: Bytes): (ms: seq<Message>)
    ensures ValidMessages(ms)
    decreases |s|
  {
    if Complete(s) then [FirstMessage(s)] + Frames(AfterFirst(s)) else []
  }

  function TailOf(s: Bytes): (t: Tail)
    ensures t.InPayload? ==> t.header.payloadLen <= MAX_PAYLOAD && |t.bytes| < t.header.payloadLen
    decreases |s|
  {
    if Complete(s) then TailOf(AfterFirst(s)) else Incomplete(s)
  }

  function TailBytes(t: Tail): Bytes
    requires t.InPayload? ==> t.header.payloadLen <= MAX_PAYLOAD
  {
    match t
    case AtBoundary => []
    case InHeader(bytes) => bytes
    case Malformed(bytes) => bytes
    case InPayload(h, bytes) => EncodeHeader(h) + bytes
  }

  /** Reading an encoded message followed by any bytes returns it and leaves exactly those bytes. */
  lemma MessageRoundTrip(m: Message, t: Bytes)
    requires ValidMessage(m)
    ensures var s := Encode(m) + t;
            Complete(s) && FirstMessage(s) == m && AfterFirst(s) == t
  {
    assert Encode(m) + t == EncodeHeader(HeaderOf(m)) + (m.payload + t);
    EncodedHeaderReads(HeaderOf(m), m.payload + t);
    hide ReadHeader, EncodeHeader;
  }

  /** What was read as the first message is written back byte for byte. */
  lemma FirstMessageEncodes(s: Bytes)
    requires Complete(s)
    ensures s == Encode(FirstMessage(s)) + AfterFirst(s)
  {
    HeaderReadEncodes(s);
    hide ReadHeader, EncodeHeader;
    var n := 5 + ReadHeader(s).header.payloadLen;
    assert s == s[..5] + s[5..n] + s[n..];
  }

  lemma IncompleteBytes(s: Bytes)
    requires !Complete(s)
    ensures TailBytes(Incomplete(s)) == s
  {
    if ReadHeader(s).Got? {
      HeaderReadEncodes(s);
      assert s == s[..5] + s[5..];
    }
  }

  lemma EncodeAllCons(m: Message, ms: seq<Message>)
    requires ValidMessage(m) && ValidMessages(ms)
    ensures ValidMessages([m] + ms) && EncodeAll([m] + ms) == Encode(m) + EncodeAll(ms)
  {
    assert ([m] + ms)[1..] == ms;
  }

  /** Decoding loses nothing: the messages and the tail are the stream. */
  lemma {:induction false} DecodeThenEncode(s: Bytes)
    ensures EncodeAll(Frames(s)) + TailBytes(TailOf(s)) == s
    decreases |s|
  {
    hide Complete, FirstMessage, AfterFirst, Incomplete, TailBytes, Encode, ValidMessage;
    if Complete(s) {
      FirstMessageEncodes(s);
      DecodeThenEncode(AfterFirst(s));
      EncodeAllCons(FirstMessage(s), Frames(AfterFirst(s)));
    } else {
      IncompleteBytes(s);
    }
  }

  /** Decoding inverts encoding, whatever follows. */
  lemma {:induction false} EncodeThenDecode(ms: seq<Message>, t: Bytes)
    requires ValidMessages(ms)
    ensures Frames(EncodeAll(ms) + t) == ms + Frames(t) && TailOf(EncodeAll(ms) + t) == TailOf(t)
    decreases |ms|
  {
    hide Complete, FirstMessage, AfterFirst, Incomplete, Encode, ValidMessage;
    if ms == [] {
      assert EncodeAll(ms) + t == t;
    } else {
      assert ms[0] in ms;
      var u := EncodeAll(ms[1..]) + t;
      assert EncodeAll(ms) + t == Encode(ms[0]) + u;
      MessageRoundTrip(ms[0], u);
      EncodeThenDecode(ms[1..], t);
    }
  }

  /** Two message lists with the same encoding are the same list. */
  lemma UniqueDecoding(a: seq<Message>, b: seq<Message>)
    requires ValidMessages(a) && ValidMessages(b) && EncodeAll(a) == EncodeAll(b)
    ensures a == b
  {
    hide *;
    EncodeThenDecode(a, []);
    EncodeThenDecode(b, []);
    NoFrames();
    assert a + [] == a && b + [] == b;
  }

  lemma NoFrames()
    ensures Frames([]) == [] && TailOf([]) == AtBoundary
  {
  }

  /** A header and a part of its payload are no message yet. */
  lemma StreamedTail(h: Header, partial: Bytes)
    requires h.payloadLen <= MAX_PAYLOAD && |partial| < h.payloadLen
    ensures Frames(EncodeHeader(h) + partial) == [] && TailOf(EncodeHeader(h) + partial) == InPayload(h, partial)
  {
    EncodedHeaderReads(h, partial);
    hide ReadHeader, EncodeHeader;
    assert (EncodeHeader(h) + partial)[5..] == partial;
  }

  /** Whole messages followed by a cut-off one decode to just that. */
  lemma EncodedThenStreamed(ms: seq<Message>, h: Header, partial: Bytes)
    requires ValidMessages(ms) && h.payloadLen <= MAX_PAYLOAD && |partial| < h.payloadLen
    ensures var s := EncodeAll(ms) + (EncodeHeader(h) + partial); Frames(s) == ms && TailOf(s) == InPayload(h, partial)
  {
    hide *;
    StreamedTail(h, partial);
    EncodeThenDecode(ms, EncodeHeader(h) + partial);
    assert ms + [] == ms;
  }

  lemma EncodedDecodes(ms: seq<Message>)
    requires ValidMessages(ms)
    ensures Frames(EncodeAll(ms)) == ms && TailOf(EncodeAll(ms)) == AtBoundary
  {
    hide *;
    EncodeThenDecode(ms, []);
    NoFrames();
    assert ms + [] == ms && EncodeAll(ms) + [] == EncodeAll(ms);
  }

  lemma {:induction false} EncodeAllAppend(a: seq<Message>, b: seq<Message>)
    requires ValidMessages(a) && ValidMessages(b)
    ensures ValidMessages(a + b) && EncodeAll(a + b) == EncodeAll(a) + EncodeAll(b)
    decreases |a|
  {
    hide Encode;
    if a == [] {
      assert a + b == b;
    } else {
      EncodeAllAppend(a[1..], b);
      assert (a + b)[1..] == a[1..] + b;
    }
  }

  lemma EncodeOne(m: Message)
    requires ValidMessage(m)
    ensures EncodeAll([m]) == Encode(m)
  {
    assert [m][1..] == [];
  }

  /** A stream ends cleanly exactly when it is the encoding of its messages. */
  lemma CleanEndMeansWholeFrames(s: Bytes)
    ensures TailOf(s) == AtBoundary <==> EncodeAll(Frames(s)) == s
  {
    hide Frames, TailOf, EncodeAll;
    DecodeThenEncode(s);
    NoFrames();
    EncodeThenDecode(Frames(s), []);
    assert EncodeAll(Frames(s)) + [] == EncodeAll(Frames(s));
  }

  /** A malformed end is five bytes or more whose length is not between 4 and 2^30. */
  lemma {:induction false} MalformedEnd(s: Bytes)
    ensures TailOf(s).Malformed? ==>
            var b := TailOf(s).bytes;
            && |b| >= 5
            && var length := b[1] as int * 16777216 + b[2] as int * 65536 + b[3] as int * 256 + b[4] as int;
            !(4 <= length <= 1073741824)
    decreases |s|
  {
    hide ReadHeader, FirstMessage, AfterFirst;
    if Complete(s) {
      MalformedEnd(AfterFirst(s));
    } else if |s| < 5 {
      ShortHeader(s);
    } else {
      HeaderLayout(s);
    }
  }

  // ---- The SQL a message carries ----

  function IndexOfZero(b: Bytes): (r: Option<nat>)
    ensures r.Some? ==> r.value < |b| && b[r.value] == '\0' && forall j :: 0 <= j < r.value ==> b[j] != '\0'
    ensures r.None? ==> '\0' !in b
  {
    if b == [] then None
    else if b[0] == '\0' then Some(0)
    else
      match IndexOfZero(b[1..])
      case None => None
      case Some(k) => Some(k + 1)
  }

  /** Message.QueryText: the payload up to its terminator, or all of it. */
  function QueryText(payload: Bytes): (sql: Bytes) {
    match IndexOfZero(payload)
    case Some(k) => payload[..k]
    case None => payload
  }

  /** Message.ParseQueryText: None when either terminator is missing. */
  function ParseQueryText(payload: Bytes): Option<Bytes> {
    match IndexOfZero(payload)
    case None => None
    case Some(k) =>
      var rest := payload[k + 1..];
      match IndexOfZero(rest)
      case None => None
      case Some(j) => Some(rest[..j])
  }

  lemma {:induction false} ZeroIsFound(a: Bytes, t: Bytes)
    requires '\0' !in a
    ensures IndexOfZero(Field(a) + t) == Some(|a|)
  {
    var b := Field(a) + t;
    if a != [] {
      assert b[1..] == Field(a[1..]) + t;
      ZeroIsFound(a[1..], t);
    }
  }

  /** The text of a Query is what stands before its first zero byte, all of the payload if there is none. */
  lemma QueryTextIsExact(payload: Bytes, sql: Bytes)
    ensures QueryText(payload) == sql <==> '\0' !in sql && (payload == sql || Field(sql) <= payload)
  {
    if '\0' !in sql && Field(sql) <= payload {
      ZeroIsFound(sql, payload[|sql| + 1..]);
      assert payload == Field(sql) + payload[|sql| + 1..];
    }
  }

  /** A Parse payload that starts with these two terminated fields. */
  ghost predicate CarriesSql(payload: Bytes, sql: Bytes, name: Bytes, params: Bytes) {
    '\0' !in sql && '\0' !in name && payload == Field(name) + (Field(sql) + params)
  }

  lemma CarriedTextIsParsed(payload: Bytes, sql: Bytes, name: Bytes, params: Bytes)
    requires CarriesSql(payload, sql, name, params)
    ensures ParseQueryText(payload) == Some(sql)
  {
    ZeroIsFound(name, Field(sql) + params);
    assert payload[|name| + 1..] == Field(sql) + params;
    ZeroIsFound(sql, params);
    assert (Field(sql) + params)[..|sql|] == sql;
  }

  lemma ParsedTextIsCarried(payload: Bytes, sql: Bytes) returns (name: Bytes, params: Bytes)
    requires ParseQueryText(payload) == Some(sql)
    ensures CarriesSql(payload, sql, name, params)
  {
    var k := IndexOfZero(payload).value;
    var rest := payload[k + 1..];
    var j := IndexOfZero(rest).value;
    name, params := payload[..k], rest[j + 1..];
    hide IndexOfZero, Field;
    FirstFieldIs(rest, j);
    FirstFieldIs(payload, k);
  }

  lemma CutBehind(b: Bytes, k: nat)
    requires k < |b|
    ensures b == b[..k] + b[k..] && b[k..] == [b[k]] + b[k + 1..]
  {
  }

  lemma FieldThen(a: Bytes, t: Bytes)
    ensures a + (['\0'] + t) == Field(a) + t
  {
  }

  lemma FirstFieldIs(b: Bytes, k: nat)
    requires IndexOfZero(b) == Some(k)
    ensures k < |b| && '\0' !in b[..k] && b == Field(b[..k]) + b[k + 1..]
  {
    hide IndexOfZero, Field;
    CutBehind(b, k);
    FieldThen(b[..k], b[k + 1..]);
  }

  /** The text of a well-formed Parse is found, and only a well-formed Parse has one. */
  lemma ParseTextIsExact(payload: Bytes, sql: Bytes)
    ensures ParseQueryText(payload) == Some(sql) <==> exists name: Bytes, params: Bytes :: CarriesSql(payload, sql, name, params)
  {
    hide *;
    if ParseQueryText(payload) == Some(sql) {
      var name, params := ParsedTextIsCarried(payload, sql);
    }
    if exists name: Bytes, params: Bytes :: CarriesSql(payload, sql, name, params) {
      var name: Bytes, params: Bytes :| CarriesSql(payload, sql, name, params);
      CarriedTextIsParsed(payload, sql, name, params);
    }
  }

  /** A zero-terminated field. */
  function Field(b: Bytes): Bytes {
    b + ['\0']
  }

  // ---- Synthesized backend messages ----

  /** The bytes of a text; none of the proxy's own texts has a zero byte or a character outside ASCII. */
  function Ascii(text: string): (b: Bytes)
    ensures |b| == |text|
  {
    seq(|text|, i requires 0 <= i < |text| => if '\0' < text[i] < '\U{80}' then text[i] else '?')
  }

  function ErrorPayload(severity: Bytes, code: Bytes, message: Bytes): Bytes {
    Field(['S'] + severity) + Field(['V'] + severity) + Field(['C'] + code) + Field(['M'] + message) + ['\0']
  }

  function ErrorResponse(code: Bytes, message: Bytes): Message {
    Message('E', ErrorPayload("ERROR", code, message))
  }

  function ReadyForQuery(status: Byte): Message {
    Message('Z', [status])
  }

  // ---- Startup messages ----

  datatype Startup = Startup(code: nat, payload: Bytes)

  predicate ValidStartup(m: Startup) {
    m.code < 0x1_0000_0000 && 8 + |m.payload| <= MAX_STARTUP_LENGTH
  }

  function EncodeStartup(m: Startup): Bytes
    requires ValidStartup(m)
  {
    Be32(8 + |m.payload|) + Be32(m.code) + m.payload
  }

  /** ReadStartup: the message and the bytes left unread, or None on a short or out-of-range packet. */
  function ReadStartup(s: Bytes): (r: Option<(Startup, Bytes)>)
    ensures r.Some? ==> ValidStartup(r.value.0)
  {
    if |s| < 8 then None
    else
      var length := FromBe32(s[..4]);
      if length < 8 || length > MAX_STARTUP_LENGTH || |s| < length then None
      else Some((Startup(FromBe32(s[4..8]), s[8..length]), s[length..]))
  }

  /** Reading inverts writing, and what was read is written back byte for byte. */
  lemma StartupRoundTrip(m: Startup, s: Bytes, t: Bytes)
    requires ValidStartup(m)
    ensures ReadStartup(s) == Some((m, t)) <==> s == EncodeStartup(m) + t
  {
    var e := EncodeStartup(m) + t;
    assert e[..4] == Be32(8 + |m.payload|) && e[4..8] == Be32(m.code);
    Be32RoundTrip(8 + |m.payload|);
    Be32RoundTrip(m.code);
    assert e[8..8 + |m.payload|] == m.payload && e[8 + |m.payload|..] == t;
    if ReadStartup(s) == Some((m, t)) {
      FromBe32RoundTrip(s[..4]);
      FromBe32RoundTrip(s[4..8]);
      var length := FromBe32(s[..4]);
      assert s == s[..4] + s[4..8] + s[8..length] + s[length..];
    }
  }

  /** A startup packet is its own length, the code, both big-endian, and the payload. */
  lemma StartupLayout(m: Startup)
    requires ValidStartup(m)
    ensures var b := EncodeStartup(m);
            && |b| >= 8 && b[8..] == m.payload
            && b[0] as int * 16777216 + b[1] as int * 65536 + b[2] as int * 256 + b[3] as int == |b|
            && b[4] as int * 16777216 + b[5] as int * 65536 + b[6] as int * 256 + b[7] as int == m.code
  {
    hide Be32;
    Be32Value(8 + |m.payload|);
    Be32Value(m.code);
  }

  /** One is read exactly when its length lies between 8 and 10000 and all of it has arrived. */
  lemma StartupReads(s: Bytes)
    requires |s| >= 8
    ensures var length := s[0] as int * 16777216 + s[1] as int * 65536 + s[2] as int * 256 + s[3] as int;
            var code := s[4] as int * 16777216 + s[5] as int * 65536 + s[6] as int * 256 + s[7] as int;
            ReadStartup(s) ==
            if 8 <= length <= 10000 && length <= |s| then Some((Startup(code, s[8..length]), s[length..])) else None
  {
    var a, b := s[..4], s[4..8];
    assert a[0] == s[0] && a[1] == s[1] && a[2] == s[2] && a[3] == s[3];
    assert b[0] == s[4] && b[1] == s[5] && b[2] == s[6] && b[3] == s[7];
  }

  // ---- What a client reads out of an error ----

  /** The fields of an ErrorResponse: a type byte and a zero-terminated text each, up to a zero byte. */
  function ErrorFields(payload: Bytes): seq<(Byte, Bytes)>
    decreases |payload|
  {
    if payload == [] || payload[0] == '\0' then []
    else
      match IndexOfZero(payload[1..])
      case None => []
      case Some(k) => [(payload[0], payload[1..][..k])] + ErrorFields(payload[1..][k + 1..])
  }

  lemma OneField(typ: Byte, text: Bytes, more: Bytes)
    requires typ != '\0' && '\0' !in text
    ensures ErrorFields(Field([typ] + text) + more) == [(typ, text)] + ErrorFields(more)
  {
    var b := Field([typ] + text) + more;
    assert b[0] == typ && b[1..] == Field(text) + more;
    ZeroIsFound(text, more);
    assert b[1..][..|text|] == text && b[1..][|text| + 1..] == more;
    hide IndexOfZero;
  }

  /** Both severities, the SQLSTATE and the text, and nothing else. */
  lemma ErrorIsRead(code: Bytes, message: Bytes)
    requires '\0' !in code && '\0' !in message
    ensures var e := ErrorResponse(code, message);
            e.kind == 'E' && ErrorFields(e.payload) == [('S', "ERROR"), ('V', "ERROR"), ('C', code), ('M', message)]
  {
    hide ErrorFields, Field;
    var severity: Bytes := "ERROR";
    assert '\0' !in severity;
    var s, v, c, m := Field(['S'] + severity), Field(['V'] + severity), Field(['C'] + code), Field(['M'] + message);
    var end: Bytes := ['\0'];
    assert s + v + c + m + end == s + (v + (c + (m + end)));
    OneField('S', severity, v + (c + (m + end)));
    OneField('V', severity, c + (m + end));
    OneField('C', code, m + end);
    OneField('M', message, end);
    NoFields();
  }

  lemma NoFields()
    ensures ErrorFields(['\0']) == []
  {
  }

  lemma AsciiHasNoZero(text: string)
    ensures '\0' !in Ascii(text)
  {
  }

  /** A text of ASCII characters is its own bytes. */
  lemma AsciiIsText(text: string)
    requires forall c :: c in text ==> '\0' < c < '\U{80}'
    ensures Ascii(text) == text
  {
    forall i | 0 <= i < |text| ensures Ascii(text)[i] == text[i] {
      assert text[i] in text;
    }
  }
}

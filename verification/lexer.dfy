/**
 The lexical grammar of internal/sqlscan/scanner.go as pure functions: which
 construct opens at a position, where it closes, and how many bytes a scanner
 must skip.  All functions work on positions of one immutable text.
 */
module Lexer {
  import opened Wrappers

  predicate IsWordByte(c: char) {
    'a' <= c <= 'z' || 'A' <= c <= 'Z' || '0' <= c <= '9' || c == '_'
  }

  predicate IsNewline(c: char) {
    c == '\r' || c == '\n'
  }

  /** The constructs inside which semicolons and keywords mean nothing. */
  datatype Construct =
    | LineComment
    | BlockComment
    | Literal
    | Identifier
    | EscapeString
    | DollarQuoted(tag: string)

  predicate Pair(s: string, i: nat, c: char, d: char) {
    i + 1 < |s| && s[i] == c && s[i + 1] == d
  }

  predicate StartsToken(src: string, p: nat)
    requires p <= |src|
  {
    p == 0 || !IsWordByte(src[p - 1])
  }

  /** The dollar-quote tag (with both dollars) whose body bytes are read from index i on. */
  function TagFrom(rest: string, i: nat): (r: Option<string>)
    requires 1 <= i
    ensures r.Some? ==> i < |r.value| <= |rest| && r.value == rest[..|r.value|]
    decreases |rest| - i
  {
    if i >= |rest| then None
    else if rest[i] == '$' then Some(rest[..i + 1])
    else if !IsWordByte(rest[i]) || (i == 1 && '0' <= rest[i] <= '9') then None
    else TagFrom(rest, i + 1)
  }

  function Opens(src: string, p: nat): (r: Option<Construct>)
    requires p < |src|
  {
    if Pair(src, p, '-', '-') then Some(LineComment)
    else if Pair(src, p, '/', '*') then Some(BlockComment)
    else if src[p] == '\'' then Some(Literal)
    else if src[p] == '"' then Some(Identifier)
    else if (src[p] == 'e' || src[p] == 'E') && p + 1 < |src| && src[p + 1] == '\'' && StartsToken(src, p)
    then Some(EscapeString)
    else if StartsToken(src, p) && src[p] == '$' then
      match TagFrom(src[p..], 1)
      case Some(tag) => Some(DollarQuoted(tag))
      case None => None
    else None
  }

  // ---- Where constructs close: the length of the closed prefix, or None ----

  function NewlineFrom(rest: string, i: nat): (r: Option<nat>)
    ensures r.Some? ==> i <= r.value < |rest| && IsNewline(rest[r.value])
    decreases |rest| - i
  {
    if i >= |rest| then None
    else if IsNewline(rest[i]) then Some(i)
    else NewlineFrom(rest, i + 1)
  }

  function BlockEnd(rest: string, i: nat, depth: int): (r: Option<nat>)
    ensures r.Some? ==> i + 2 <= r.value <= |rest| && rest[r.value - 1] == '/'
    decreases |rest| - i
  {
    if i >= |rest| then None
    else if Pair(rest, i, '/', '*') then BlockEnd(rest, i + 2, depth + 1)
    else if Pair(rest, i, '*', '/') then
      if depth == 1 then Some(i + 2) else BlockEnd(rest, i + 2, depth - 1)
    else BlockEnd(rest, i + 1, depth)
  }

  function QuoteEnd(rest: string, i: nat, q: char): (r: Option<nat>)
    ensures r.Some? ==> i < r.value <= |rest| && rest[r.value - 1] == q
    decreases |rest| - i
  {
    if i >= |rest| then None
    else if rest[i] != q then QuoteEnd(rest, i + 1, q)
    else if i + 1 < |rest| && rest[i + 1] == q then QuoteEnd(rest, i + 2, q)
    else Some(i + 1)
  }

  function EscapeEnd(rest: string, i: nat): (r: Option<nat>)
    ensures r.Some? ==> i < r.value <= |rest| && rest[r.value - 1] == '\''
    decreases |rest| - i
  {
    if i >= |rest| then None
    else if rest[i] == '\\' then EscapeEnd(rest, i + 2)
    else if rest[i] != '\'' then EscapeEnd(rest, i + 1)
    else if i + 1 < |rest| && rest[i + 1] == '\'' then EscapeEnd(rest, i + 2)
    else Some(i + 1)
  }

  /** The first index from i on at which tag occurs in rest. */
  function IndexFrom(rest: string, tag: string, i: nat): (r: Option<nat>)
    ensures r.Some? ==> i <= r.value && r.value + |tag| <= |rest| && rest[r.value..r.value + |tag|] == tag
    decreases |rest| - i
  {
    if i + |tag| > |rest| then None
    else if rest[i..i + |tag|] == tag then Some(i)
    else if i == |rest| then None
    else IndexFrom(rest, tag, i + 1)
  }

  function Plus(r: Option<nat>, n: nat): Option<nat> {
    match r
    case Some(k) => Some(k + n)
    case None => None
  }

  /** The length of the construct c that starts rest, or None when it never closes. */
  function Closes(c: Construct, rest: string): (r: Option<nat>)
    requires |rest| > 0
    ensures r.Some? ==> r.value <= |rest|
  {
    match c
    case LineComment => NewlineFrom(rest, 0)
    case BlockComment => BlockEnd(rest, 0, 0)
    case Literal => QuoteEnd(rest, 1, '\'')
    case Identifier => QuoteEnd(rest, 1, '"')
    case EscapeString => Plus(EscapeEnd(rest[1..], 1), 1)
    case DollarQuoted(tag) => Plus(IndexFrom(rest, tag, |tag|), |tag|)
  }

  /** What the scanner skips at p: nothing, a closed construct, or everything that is left. */
  function SkipLen(src: string, p: nat): (n: nat)
    requires p < |src|
    ensures p + n <= |src|
    ensures n > 0 <==> Opens(src, p).Some?
  {
    match Opens(src, p)
    case None => 0
    case Some(c) =>
      match Closes(c, src[p..])
      case None => |src| - p
      case Some(n) => n
  }
}

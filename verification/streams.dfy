/**
 The connections as the relay sees them: a source that delivers a finite byte
 string and then ends, an append-only upstream, and the locked client writer.
 Also pgwire.ReadPayload, whose buffer grows only as bytes arrive.
 */
module Streams {
  import opened Wire

  function Min(a: int, b: int): int {
    if a < b then a else b
  }

  function Max(a: int, b: int): int {
    if a < b then b else a
  }

  /** An io.Reader: rest are the bytes that will still arrive. */
  class Source {
    var rest: Bytes

    constructor (bytes: Bytes)
      ensures rest == bytes
    {
      rest := bytes;
    }

    /** io.ReadFull into buf[lo..hi]; a short stream is drained and reported. */
    method ReadFull(buf: array<Byte>, lo: nat, hi: nat) returns (ok: bool)
      requires lo <= hi <= buf.Length
      modifies this, buf
      ensures ok <==> hi - lo <= |old(rest)|
      ensures ok ==> rest == old(rest)[hi - lo..] && buf[lo..hi] == old(rest)[..hi - lo]
      ensures !ok ==> rest == []
      ensures buf[..lo] == old(buf[..lo])
    {
      var n := hi - lo;
      ok := n <= |rest|;
      if ok {
        forall i | lo <= i < hi {
          buf[i] := rest[i - lo];
        }
        rest := rest[n..];
      } else {
        var k := |rest|;
        forall i | lo <= i < lo + k {
          buf[i] := rest[i - lo];
        }
        rest := [];
      }
    }

    /** io.CopyN: hands over up to n bytes, and reports whether all of them were there. */
    method CopyN(n: nat) returns (bytes: Bytes, ok: bool)
      modifies this
      ensures ok <==> n <= |old(rest)|
      ensures bytes == old(rest)[..Min(n, |old(rest)|)] && rest == old(rest)[Min(n, |old(rest)|)..]
    {
      var k := Min(n, |rest|);
      bytes, rest, ok := rest[..k], rest[k..], n <= |rest|;
    }
  }

  /** The upstream connection. */
  class Sink {
    var written: Bytes

    constructor ()
      ensures written == []
    {
      written := [];
    }

    method Write(bytes: Bytes)
      modifies this
      ensures written == old(written) + bytes
    {
      written := written + bytes;
    }
  }

  /** The client connection behind its lock: one entry for each locked write. */
  class SyncWriter {
    var writes: seq<Bytes>

    constructor ()
      ensures writes == []
    {
      writes := [];
    }

    /** All messages go out back to back in one locked write. */
    method WriteMessages(msgs: seq<Message>)
      requires ValidMessages(msgs)
      modifies this
      ensures writes == old(writes) + [EncodeAll(msgs)]
    {
      hide Encode;
      var buf: Bytes := [];
      var i := 0;
      assert msgs[0..] == msgs;
      while i < |msgs|
        invariant i <= |msgs|
        invariant buf + EncodeAll(msgs[i..]) == EncodeAll(msgs)
      {
        assert msgs[i] in msgs;
        assert msgs[i..][0] == msgs[i] && msgs[i..][1..] == msgs[i + 1..];
        buf := buf + Encode(msgs[i]);
        i := i + 1;
      }
      assert msgs[i..] == [] && buf + [] == buf;
      writes := writes + [buf];
    }
  }

  // ---- ReadPayload ----

  const CHUNK: nat := 0x1_0000

  /** The bytes that doubling copies until a buffer of capacity cap holds size bytes. */
  function Copies(cap: nat, size: nat): nat
    requires cap > 0
    decreases size - cap
  {
    if cap >= size then 0 else cap + Copies(2 * cap, size)
  }

  /** The first of cap, 2 * cap, 4 * cap, ... that holds size bytes. */
  function Doubled(cap: nat, size: nat): (r: nat)
    requires cap > 0
    ensures cap <= r && size <= r
    ensures r > cap ==> r < 2 * size
    decreases size - cap
  {
    if cap >= size then cap else Doubled(2 * cap, size)
  }

  /** Growth copies what the doublings add up to, ... */
  lemma {:induction false} CopiesExactly(cap: nat, size: nat)
    requires cap > 0
    ensures Copies(cap, size) == Doubled(cap, size) - cap
    decreases size - cap
  {
    if cap < size {
      CopiesExactly(2 * cap, size);
    }
  }

  /** ... always less than twice the payload, ... */
  lemma CopiesBound(cap: nat, size: nat)
    requires 0 < cap
    ensures cap < size ==> Copies(cap, size) + cap < 2 * size
  {
    CopiesExactly(cap, size);
  }

  /** ... and no more than the payload exactly when the last doubling overshoots it by at most the first buffer. */
  lemma CopiesOnceExactly(cap: nat, size: nat)
    requires cap > 0
    ensures Copies(cap, size) <= size <==> Doubled(cap, size) <= size + cap
  {
    CopiesExactly(cap, size);
  }

  function Pow2(k: nat): (p: nat)
    ensures p >= 1
  {
    if k == 0 then 1 else 2 * Pow2(k - 1)
  }

  /** The first doubling that reaches a size between two of them. */
  lemma {:induction false} DoubledBetween(cap: nat, k: nat, size: nat)
    requires cap > 0 && cap * Pow2(k) < size <= cap * Pow2(k + 1)
    ensures Doubled(cap, size) == cap * Pow2(k + 1)
    decreases k
  {
    if k == 0 {
      assert cap * Pow2(1) == 2 * cap;
    } else {
      Twice(cap, k);
      Twice(cap, k + 1);
      AtLeast(cap, k);
      DoubledBetween(2 * cap, k - 1, size);
    }
  }

  lemma Twice(cap: nat, k: nat)
    requires k > 0
    ensures cap * Pow2(k) == (2 * cap) * Pow2(k - 1)
  {
    var p := Pow2(k - 1);
    assert Pow2(k) == 2 * p;
    hide Pow2;
    assert cap * (2 * p) == (2 * cap) * p;
  }

  lemma AtLeast(cap: nat, k: nat)
    ensures cap <= cap * Pow2(k)
  {
    var p := Pow2(k);
    hide Pow2;
    assert cap * 1 <= cap * p;
  }

  /** Between two doublings it copies no more than the payload exactly within the last cap bytes below the next one. */
  lemma CopiesOnceBetween(cap: nat, k: nat, size: nat)
    requires cap > 0 && cap * Pow2(k) < size <= cap * Pow2(k + 1)
    ensures Copies(cap, size) <= size <==> cap * Pow2(k + 1) - cap <= size
  {
    hide Copies, Doubled, Pow2;
    DoubledBetween(cap, k, size);
    CopiesOnceExactly(cap, size);
  }

  /** One byte past a doubling it copies almost twice the payload, not about once. */
  lemma CopiesWorstCase(cap: nat, k: nat)
    requires cap > 0
    ensures Copies(cap, cap * Pow2(k) + 1) == 2 * (cap * Pow2(k) + 1) - 2 - cap
  {
    var size := cap * Pow2(k) + 1;
    hide Copies, Doubled, Pow2;
    Twice(cap, k + 1);
    Redouble(cap, Pow2(k));
    AtLeast(cap, k);
    CopiesExactly(cap, size);
    DoubledBetween(cap, k, size);
  }

  lemma Redouble(cap: nat, p: nat)
    ensures (2 * cap) * p == 2 * (cap * p)
  {
  }

  /** A buffer allocated when received bytes had arrived. */
  datatype Allocation = Allocation(capacity: nat, received: nat)

  /** No allocation trusts the claimed size: each is within the claim, and one chunk or twice what had arrived. */
  predicate Modest(allocations: seq<Allocation>, size: nat, chunk: nat) {
    forall a :: a in allocations ==> a.capacity <= size && a.capacity <= Max(chunk, 2 * a.received)
  }

  lemma ModestSnoc(allocations: seq<Allocation>, a: Allocation, size: nat, chunk: nat)
    requires Modest(allocations, size, chunk) && a.capacity <= size && a.capacity <= Max(chunk, 2 * a.received)
    ensures Modest(allocations + [a], size, chunk)
  {
  }

  lemma ModestStart(a: Allocation, size: nat, chunk: nat)
    requires a.capacity <= size && a.capacity <= chunk
    ensures Modest([a], size, chunk)
  {
  }

  method Grow(payload: array<Byte>, capacity: nat) returns (grown: array<Byte>)
    requires payload.Length <= capacity
    ensures fresh(grown) && grown.Length == capacity && grown[..payload.Length] == payload[..]
  {
    grown := new Byte[capacity];
    forall i | 0 <= i < payload.Length {
      grown[i] := payload[i];
    }
  }

  lemma CopiesStep(start: nat, copied: nat, cap: nat, size: nat)
    requires 0 < start && 0 < cap < size && copied + Copies(cap, size) == Copies(start, size)
    ensures copied + cap + Copies(Min(2 * cap, size), size) == Copies(start, size)
  {
  }

  lemma PrefixGrows(whole: Bytes, a: nat, b: nat)
    requires a <= b <= |whole|
    ensures whole[..b] == whole[..a] + whole[a..][..b - a] && whole[a..][b - a..] == whole[b..]
  {
  }

  /** Reads on to the end of the buffer. */
  method FillUp(src: Source, payload: array<Byte>, start: nat, ghost whole: Bytes) returns (ok: bool)
    requires start <= payload.Length && start <= |whole| && payload[..start] == whole[..start] && src.rest == whole[start..]
    modifies src, payload
    ensures ok <==> payload.Length <= |whole|
    ensures ok ==> payload[..] == whole[..payload.Length] && src.rest == whole[payload.Length..]
    ensures !ok ==> src.rest == []
  {
    ok := src.ReadFull(payload, start, payload.Length);
    if ok {
      PrefixGrows(whole, start, payload.Length);
      assert payload[..] == payload[..start] + payload[start..payload.Length];
    }
  }

  /**
   ReadPayload returns exactly the next size bytes, or fails exactly when fewer
   exist.  No allocation trusts the claimed size: each stays within the claim and
   within one chunk or twice the bytes that have arrived.
   */
  method ReadPayload(src: Source, size: nat, chunk: nat)
    returns (payload: array<Byte>, ok: bool, ghost allocations: seq<Allocation>, ghost copied: nat)
    requires chunk > 0
    modifies src
    ensures fresh(payload)
    ensures ok <==> size <= |old(src.rest)|
    ensures ok ==> payload.Length == size && payload[..] == old(src.rest)[..size] && src.rest == old(src.rest)[size..]
    ensures !ok ==> src.rest == [] && payload.Length <= size && payload.Length <= Max(chunk, 2 * |old(src.rest)|)
    ensures Modest(allocations, size, chunk)
    ensures ok && size > 0 ==> copied == Copies(Min(size, chunk), size)
    ensures copied < 2 * size || size == copied == 0
    ensures ok && size > 0 ==> (copied <= size <==> Doubled(Min(size, chunk), size) <= size + Min(size, chunk))
  {
    hide Copies, Doubled, Modest;
    ghost var whole := src.rest;
    ghost var total := if size > 0 then Copies(Min(size, chunk), size) else 0;
    assert size > 0 ==> total < 2 * size by {
      if size > 0 { CopiesBelow(Min(size, chunk), size); }
    }
    payload := new Byte[Min(size, chunk)];
    allocations, copied := [Allocation(payload.Length, 0)], 0;
    ModestStart(allocations[0], size, chunk);
    var len := 0;
    while len < size
      invariant fresh(payload) && len <= payload.Length <= size && (size > 0 ==> payload.Length > 0)
      invariant len == payload.Length || len == 0
      invariant payload.Length <= Max(chunk, 2 * len)
      invariant len <= |whole| && payload[..len] == whole[..len] && src.rest == whole[len..]
      invariant Modest(allocations, size, chunk)
      invariant if size > 0 then copied + Copies(payload.Length, size) == total else copied == 0
      decreases size - len
    {
      if len == payload.Length {
        CopiesStep(Min(size, chunk), copied, len, size);
        var grown := Grow(payload, Min(2 * payload.Length, size));
        assert payload[..] == payload[..len];
        copied := copied + len;
        ModestSnoc(allocations, Allocation(grown.Length, len), size, chunk);
        allocations := allocations + [Allocation(grown.Length, len)];
        payload := grown;
      }
      var read := FillUp(src, payload, len, whole);
      if !read {
        return payload, false, allocations, copied;
      }
      len := payload.Length;
    }
    assert payload[..] == payload[..len];
    if size > 0 {
      CopiesDone(payload.Length, size);
      CopiesOnceExactly(Min(size, chunk), size);
    }
    ok := true;
  }

  lemma CopiesBelow(cap: nat, size: nat)
    requires 0 < cap && 0 < size
    ensures Copies(cap, size) < 2 * size
  {
    CopiesBound(cap, size);
  }

  lemma CopiesDone(cap: nat, size: nat)
    requires 0 < cap && size <= cap
    ensures Copies(cap, size) == 0
  {
  }
}

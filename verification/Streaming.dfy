/**
  The streaming loop of `_send_resource` in `wsgidav/request_server.py`, over a file object
  whose reads may come up short.
*/
module Streaming {
  import opened Bytes
  import opened Wrappers
  import opened Ranges

  /** A file object: `read` gives up to `n` bytes, none only at the end of the file. */
  class ContentFile {
    const content: bytes
    var pos: nat

    constructor (content: bytes)
      ensures this.content == content && pos == 0
    {
      this.content, pos := content, 0;
    }

    method Seek(p: nat)
      modifies this
      ensures pos == p
    {
      pos := p;
    }

    method Read(n: nat) returns (buffer: bytes)
      modifies this
      ensures |buffer| <= n && pos == old(pos) + |buffer|
      ensures buffer == [] <==> n == 0 || old(pos) >= |content|
      ensures buffer != [] ==> pos <= |content| && buffer == content[old(pos)..pos]
    {
      if n == 0 || pos >= |content| { return []; }
      var k: nat :| 0 < k <= n && pos + k <= |content| by { assert 1 <= n && pos + 1 <= |content|; }
      buffer := content[pos..pos + k];
      pos := pos + k;
    }
  }

  /** `length` bytes from `start` on, or as many as there are; all of them for a negative length. */
  function Slice(content: bytes, start: nat, length: int): bytes {
    if start >= |content| then []
    else if length < 0 || start + length > |content| then content[start..]
    else content[start..start + length]
  }

  /** Blocks of at most the block size, empty ones only at the end. */
  predicate Blocks(chunks: seq<bytes>, blockSize: nat) {
    && (forall i :: 0 <= i < |chunks| ==> |chunks[i]| <= blockSize)
    && (forall i :: 0 <= i < |chunks| - 1 ==> chunks[i] != [])
  }

  /** The part of the file sent so far. */
  predicate Sent(sent: bytes, content: bytes, start: nat) {
    sent == [] || (start + |sent| <= |content| && sent == content[start..start + |sent|])
  }

  lemma SentMore(sent: bytes, buffer: bytes, content: bytes, start: nat)
    requires Sent(sent, content, start)
    requires buffer == [] || (start + |sent| + |buffer| <= |content| && buffer == content[start + |sent|..start + |sent| + |buffer|])
    ensures Sent(sent + buffer, content, start)
  {
  }

  /** One block: at most the block size and what remains, nothing only if nothing remains or at the end. */
  method NextBlock(f: ContentFile, start: nat, remaining: int, blockSize: nat, ghost sent: bytes)
    returns (buffer: bytes)
    requires blockSize > 0 && Sent(sent, f.content, start) && f.pos == start + |sent|
    modifies f
    ensures Sent(sent + buffer, f.content, start) && f.pos == start + |sent + buffer|
    ensures |buffer| <= blockSize && (remaining >= 0 ==> |buffer| <= remaining)
    ensures buffer == [] ==> remaining == 0 || f.pos >= |f.content|
  {
    if remaining < 0 || remaining > blockSize {
      buffer := f.Read(blockSize);
    } else {
      buffer := f.Read(remaining);
    }
    SentMore(sent, buffer, f.content, start);
  }

  /** All that was to be sent is sent. */
  lemma AllSent(sent: bytes, content: bytes, start: nat, length: int)
    requires Sent(sent, content, start) && (length >= 0 ==> |sent| <= length)
    requires length == |sent| || start + |sent| >= |content|
    ensures sent == Slice(content, start, length)
  {
  }

  /** The loop at the end of `_send_resource`: the blocks it yields are the slice. */
  method StreamContent(f: ContentFile, start: nat, length: int, blockSize: nat, ignoreRanges: bool)
    returns (chunks: seq<bytes>)
    requires blockSize > 0 && f.pos == 0 && (ignoreRanges ==> start == 0)
    modifies f
    ensures Flat(chunks) == Slice(f.content, start, length) && Blocks(chunks, blockSize)
  {
    chunks := [];
    if !ignoreRanges { f.Seek(start); }
    var remaining, done := length, false;
    ghost var sent: bytes := [];
    while !done
      invariant sent == Flat(chunks) && Sent(sent, f.content, start) && f.pos == start + |sent|
      invariant remaining == length - |sent| && (length >= 0 ==> remaining >= 0)
      invariant Blocks(chunks, blockSize) && (!done ==> forall i :: 0 <= i < |chunks| ==> chunks[i] != [])
      invariant done ==> remaining == 0 || f.pos >= |f.content|
      decreases !done, |f.content| - |sent|
    {
      var buffer := NextBlock(f, start, remaining, blockSize, sent);
      FlatSnoc(chunks, buffer);
      chunks := chunks + [buffer];
      sent := sent + buffer;
      remaining := remaining - |buffer|;
      if |buffer| == 0 || remaining == 0 { done := true; }
    }
    AllSent(sent, f.content, start, length);
  }

  /** A range of the file, streamed, is its bytes from the first to the last position. */
  lemma RangeIsSlice(content: bytes, p: Part)
    requires Sound(p, |content|)
    ensures Slice(content, p.range.first, p.length) == content[p.range.first..p.range.last + 1]
  {
  }

  /** Without a length, or with that of the file, the file is sent from the start position on. */
  lemma {:induction false} RestIsSlice(content: bytes, start: nat, length: int)
    requires start <= |content|
    ensures length < 0 || length >= |content| - start ==> Slice(content, start, length) == content[start..]
    ensures 0 <= length <= |content| - start ==> Slice(content, start, length) == content[start..start + length]
  {
  }

  /** GET with a Range header: 416, or the bytes of the one part that is served. */
  method ServeRanges(specs: seq<Specifier>, f: ContentFile, blockSize: nat) returns (body: Option<(Range, seq<bytes>)>)
    requires blockSize > 0 && f.pos == 0
    modifies f
    ensures body.None? <==> SomeUnsatisfiable(specs, |f.content|) || NothingAsked(specs)
    ensures body.Some? ==>
              var r := body.value.0;
              && Inside(r, |f.content|) && Flat(body.value.1) == f.content[r.first..r.last + 1]
              && (forall x :: r.first <= x <= r.last ==> SomeAsks(specs, |f.content|, x))
              && (forall x :: SomeAsks(specs, |f.content|, x) ==> x <= r.last)
              && (Flat(body.value.1) == [] <==> ServesNothing(specs, |f.content|))
  {
    var result := ObtainContentRanges(specs, |f.content|);
    if result.None? { return None; }
    var parts := result.value.0;
    if |parts| == 0 { return None; }
    var p := parts[0];
    forall x | p.range.first <= x <= p.range.last ensures SomeAsks(specs, |f.content|, x) {
      assert RangesIn(parts)[0] == p.range;
      assert Covers(RangesIn(parts), x);
    }
    RangeIsSlice(f.content, p);
    var chunks := StreamContent(f, p.range.first, p.length, blockSize, false);
    return Some((p.range, chunks));
  }
}

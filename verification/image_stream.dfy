/** Streaming an image to a sink: the size bound and the digest gate. */
module ImageStream {
  import opened Bytes
  import opened Wrappers

  const READ_BUF_BYTES: nat := 1024 * 1024

  type Sha256 = seq<byte>

  datatype ImageError =
    | TooLarge(maxBytes: u64)
    | ReadFailed
    | WriteFailed
    | DigestMismatch(expected: Sha256, computed: Sha256)

  /** A hash function fed piece by piece. */
  datatype Hash<!S> = Hash(init: S, update: (S, seq<byte>) -> S, finish: S -> Sha256)

  /** Feeding two pieces is feeding their concatenation. */
  ghost predicate Incremental<S(!new)>(h: Hash<S>) {
    && (forall s :: h.update(s, []) == s)
    && (forall s, a, b :: h.update(h.update(s, a), b) == h.update(s, a + b))
  }

  function DigestOf<S>(h: Hash<S>, data: seq<byte>): Sha256 {
    h.finish(h.update(h.init, data))
  }

  // ---------------------------------------------------------------- bodies, readers, sinks

  /** What a connection would deliver; without a length it never ends. */
  datatype Body = Body(at: nat -> byte, length: Option<nat>)

  predicate Has(body: Body, n: nat) {
    body.length.Some? ==> n <= body.length.value
  }

  /** The bytes of `body` from `i` up to `j`. */
  function Slice(body: Body, i: nat, j: nat): (r: seq<byte>)
    requires i <= j
    ensures |r| == j - i
    ensures forall k :: 0 <= k < j - i ==> r[k] == body.at(i + k)
    decreases j - i
  {
    if i == j then [] else Slice(body, i, j - 1) + [body.at(j - 1)]
  }

  lemma SlicesJoin(body: Body, i: nat, j: nat, k: nat)
    requires i <= j <= k
    ensures Slice(body, i, j) + Slice(body, j, k) == Slice(body, i, k)
  {
    hide Slice;
  }

  /** A reader that hands out its body in chunks of its own choosing, and may fail at any read. */
  class Reader {
    const body: Body
    const chunk: nat -> nat
    const fault: nat -> bool
    var pos: nat
    var calls: nat

    constructor (body: Body, chunk: nat -> nat, fault: nat -> bool)
      ensures this.body == body && this.chunk == chunk && this.fault == fault && pos == 0 && calls == 0
    {
      this.body, this.chunk, this.fault := body, chunk, fault;
      pos, calls := 0, 0;
    }

    /** The last read has failed. */
    ghost predicate Failed()
      reads this`calls
    {
      calls > 0 && fault(calls - 1)
    }

    /** Between one and `capacity` bytes, none only at the end of the body. */
    method Read(capacity: nat) returns (r: Option<seq<byte>>)
      requires capacity > 0 && Has(body, pos)
      modifies this
      ensures calls == old(calls) + 1 && Has(body, pos)
      ensures r.None? <==> fault(old(calls))
      ensures Failed() <==> r.None?
      ensures r.None? ==> pos == old(pos)
      ensures r.Some? ==> pos == old(pos) + |r.value| && |r.value| <= capacity && r.value == Slice(body, old(pos), pos)
      ensures r.Some? && r.value == [] ==> body.length == Some(pos)
    {
      var now := calls;
      calls := calls + 1;
      if fault(now) {
        return None;
      }
      var n := if chunk(now) == 0 then 1 else if chunk(now) > capacity then capacity else chunk(now);
      if body.length.Some? && n > body.length.value - pos {
        n := body.length.value - pos;
      }
      r := Some(Slice(body, pos, pos + n));
      pos := pos + n;
    }
  }

  /** A sink whose `n`-th call, a write or a flush, may fail; of a failing write some first part still gets through. */
  class Sink {
    const fault: nat -> Option<nat>
    var written: seq<byte>
    var calls: nat

    constructor (fault: nat -> Option<nat>)
      ensures this.fault == fault && written == [] && calls == 0
    {
      this.fault := fault;
      written, calls := [], 0;
    }

    /** The last call has failed. */
    ghost predicate Failed()
      reads this`calls
    {
      calls > 0 && fault(calls - 1).Some?
    }

    method WriteAll(bytes: seq<byte>) returns (ok: bool)
      modifies this
      ensures calls == old(calls) + 1 && (ok <==> !Failed())
      ensures ok ==> written == old(written) + bytes
      ensures !ok ==> exists n: nat :: n <= |bytes| && written == old(written) + bytes[..n]
    {
      calls := calls + 1;
      match fault(calls - 1)
      case None =>
        written := written + bytes;
        return true;
      case Some(k) =>
        var n := if k <= |bytes| then k else |bytes|;
        written := written + bytes[..n];
        return false;
    }

    method Flush() returns (ok: bool)
      modifies this`calls
      ensures calls == old(calls) + 1 && (ok <==> !Failed())
    {
      calls := calls + 1;
      ok := fault(calls - 1).None?;
    }
  }

  // ---------------------------------------------------------------- what is to come out

  /** `max_bytes.saturating_add(1)`. */
  function Limit(max: u64): u64 {
    if max == U64_MAX then U64_MAX else max + 1
  }

  /** How many bytes of the body can be seen through the limit. */
  function Seen(body: Body, max: u64): nat {
    match body.length
    case Some(n) => if n < Limit(max) then n else Limit(max)
    case None => Limit(max)
  }

  /** What streaming comes to when nothing fails: chunk sizes have no say in it. */
  function Verdict<S>(body: Body, h: Hash<S>, expected: Sha256, max: u64): Result<u64, ImageError> {
    var n := Seen(body, max);
    if n > max then Err(TooLarge(max))
    else
      var computed := DigestOf(h, Slice(body, 0, n));
      if computed == expected then Ok(n) else Err(DigestMismatch(expected, computed))
  }

  /** The sink gained the first `n` bytes of the body. */
  predicate Gained(body: Body, before: seq<byte>, after: seq<byte>, n: nat) {
    Has(body, n) && after == before + Slice(body, 0, n)
  }

  /** The sink gained some first part of the body, of at most `bound` bytes. */
  ghost predicate GainedWithin(body: Body, before: seq<byte>, after: seq<byte>, bound: nat) {
    exists n: nat :: n <= bound && Gained(body, before, after, n)
  }

  /** Reads through `reader.take(limit)`, hashing and writing chunk by chunk. */
  method StreamVerify<S(!new)>(reader: Reader, h: Hash<S>, expected: Sha256, max: u64, sink: Sink)
    returns (r: Result<u64, ImageError>)
    requires reader.pos == 0 && !reader.Failed() && !sink.Failed() && Incremental(h)
    modifies reader, sink
    ensures r == Err(ReadFailed) <==> reader.Failed()
    ensures r == Err(WriteFailed) <==> sink.Failed()
    ensures !reader.Failed() && !sink.Failed() ==> r == Verdict(reader.body, h, expected, max)
    ensures reader.pos <= Limit(max) && Has(reader.body, reader.pos)
    ensures GainedWithin(reader.body, old(sink.written), sink.written, if reader.pos < max then reader.pos else max)
    ensures r.Ok? || (r.Err? && r.error.DigestMismatch?) ==>
              Gained(reader.body, old(sink.written), sink.written, Seen(reader.body, max))
                  && reader.pos == Seen(reader.body, max)
  {
    hide Slice, Gained, GainedWithin, Incremental;
    var body := reader.body;
    var limit: nat := Limit(max);
    var hasher := h.init;
    var total: u64 := 0;
    ghost var before := sink.written;
    NothingYet(body, h, before);
    while true
      invariant !reader.Failed() && !sink.Failed() && Has(body, reader.pos)
      invariant total == reader.pos && total <= max && limit == Limit(max) - total
      invariant hasher == h.update(h.init, Slice(body, 0, total))
      invariant Gained(body, before, sink.written, total)
      decreases limit
    {
      GainedSome(body, before, sink.written, total, total);
      var read := Some([]);
      if limit > 0 {
        read := reader.Read(if limit < READ_BUF_BYTES then limit else READ_BUF_BYTES);
      }
      if read.None? {
        return Err(ReadFailed);
      }
      var n := |read.value|;
      if n == 0 {
        break;
      }
      limit := limit - n;
      ghost var sofar, mid := total, sink.written;
      if total + n > max {
        GainedSome(body, before, sink.written, sofar, max);
        return Err(TooLarge(max));
      }
      total := total + n;
      hasher := h.update(hasher, read.value);
      HashedMore(body, h, sofar, total);
      var ok := sink.WriteAll(read.value);
      if !ok {
        GainedPart(body, before, mid, sink.written, sofar, total);
        return Err(WriteFailed);
      }
      GainedMore(body, before, mid, sink.written, sofar, total);
    }
    var flushed := sink.Flush();
    if !flushed {
      return Err(WriteFailed);
    }
    var computed := h.finish(hasher);
    if computed != expected {
      return Err(DigestMismatch(expected, computed));
    }
    return Ok(total);
  }

  lemma NothingYet<S(!new)>(body: Body, h: Hash<S>, before: seq<byte>)
    requires Incremental(h)
    ensures h.init == h.update(h.init, Slice(body, 0, 0)) && Gained(body, before, before, 0)
  {
    assert Slice(body, 0, 0) == [];
  }

  lemma HashedMore<S(!new)>(body: Body, h: Hash<S>, i: nat, j: nat)
    requires Incremental(h) && i <= j
    ensures h.update(h.update(h.init, Slice(body, 0, i)), Slice(body, i, j)) == h.update(h.init, Slice(body, 0, j))
  {
    SlicesJoin(body, 0, i, j);
  }

  lemma GainedSome(body: Body, before: seq<byte>, after: seq<byte>, n: nat, bound: nat)
    requires Gained(body, before, after, n) && n <= bound
    ensures GainedWithin(body, before, after, bound)
  {
  }

  lemma GainedMore(body: Body, before: seq<byte>, mid: seq<byte>, after: seq<byte>, i: nat, j: nat)
    requires Gained(body, before, mid, i) && i <= j && Has(body, j) && after == mid + Slice(body, i, j)
    ensures Gained(body, before, after, j)
  {
    SlicesJoin(body, 0, i, j);
    hide Slice;
  }

  lemma GainedPart(body: Body, before: seq<byte>, mid: seq<byte>, after: seq<byte>, i: nat, j: nat)
    requires Gained(body, before, mid, i) && i <= j && Has(body, j)
    requires exists n: nat :: n <= j - i && after == mid + Slice(body, i, j)[..n]
    ensures GainedWithin(body, before, after, j)
  {
    hide Slice;
    var n: nat :| n <= j - i && after == mid + Slice(body, i, j)[..n];
    assert Slice(body, i, j)[..n] == Slice(body, i, i + n);
    GainedMore(body, before, mid, after, i, i + n);
  }

  // ---------------------------------------------------------------- what the verdict means

  /** The body as a whole is within the bound and hashes to what was asked for. */
  predicate Genuine<S>(body: Body, h: Hash<S>, expected: Sha256, max: u64) {
    body.length.Some? && body.length.value <= max && DigestOf(h, Slice(body, 0, body.length.value)) == expected
  }

  /** The one bound at which a longer body is cut instead of refused. */
  predicate CutAtTheTop(body: Body, max: u64) {
    max == U64_MAX && (body.length.None? || body.length.value > max)
  }

  /**
   Accepted exactly when genuine; at the largest bound there is, a longer body is judged by its first 2^64 - 1 bytes.
   */
  lemma AcceptedIffGenuine<S>(body: Body, h: Hash<S>, expected: Sha256, max: u64)
    ensures Verdict(body, h, expected, max).Ok? <==>
            Genuine(body, h, expected, max)
                || (CutAtTheTop(body, max) && DigestOf(h, Slice(body, 0, U64_MAX)) == expected)
    ensures Genuine(body, h, expected, max) ==> Verdict(body, h, expected, max) == Ok(body.length.value)
    ensures Verdict(body, h, expected, max) == Err(TooLarge(max)) <==>
            max < U64_MAX && (body.length.None? || body.length.value > max)
  {
  }
}

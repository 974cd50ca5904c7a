/**
  The buffered copy loop behind CopyBufferWithContext: before each read it
  checks the cancellation signal, reads one chunk into the buffer, writes that
  chunk to the sink, counts the bytes the writer accepted and classifies how
  the copy ended. direct.go and client.go each carry a copy of the loop; they
  differ only in what a cancelled copy returns, which `Variant` selects.

  The reader and the writer are foreign code, so they are given as scripts:
  the i-th Read returns `source[i]` (and (0, io.EOF) once the script is used up),
  the j-th Write returns `replies[j]` (and writes everything once the script is
  used up). Cancellation is the index of the first loop check that sees the
  context done; a context stays done once it is, so every later check sees it too.
*/
module StreamCopy {
  import opened Wrappers
  import opened Errors

  type byte = b: int | 0 <= b < 256

  /** The size of the buffer allocated when the caller passes none: 32 KiB. */
  const DefaultBufferSize: nat := 32 * 1024

  function Min(a: int, b: int): int { if a <= b then a else b }

  /**
    The size of the buffer the copy allocates for a nil buffer. `limit` is the
    remaining N of the source when it is an io.LimitedReader, None otherwise.
  */
  function AllocSize(limit: Option<int>): (size: nat)
    ensures 1 <= size <= DefaultBufferSize
    ensures limit.None? ==> size == DefaultBufferSize
    ensures limit.Some? && limit.value >= 1 ==> size == Min(DefaultBufferSize, limit.value)
    ensures limit.Some? && limit.value < 1 ==> size == 1
  {
    if limit.Some? && DefaultBufferSize > limit.value then
      (if limit.value < 1 then 1 else limit.value)
    else
      DefaultBufferSize
  }

  /** The length of the buffer the loop reads into: the caller's, or the one it allocates. */
  function BufferLength(buf: array?<byte>, limit: Option<int>): nat
  {
    if buf == null then AllocSize(limit) else buf.Length
  }

  /** The two copies of the loop: direct.go's and client.go's. */
  datatype Variant = Direct | Client

  /** What a cancelled copy returns as its error. */
  function CancelErr(v: Variant): (e: Option<Err>)
    ensures v.Direct? <==> e == Some(Interrupted)
    ensures v.Client? <==> e.None?
  {
    if v.Direct? then Some(Interrupted) else None
  }

  /** One Read: the bytes it put into the buffer and the error it returned. */
  datatype ReadResult = ReadResult(data: seq<byte>, err: Option<Err>)

  /** One Write: `Full` writes all of p and returns nil; `Reply` returns (n, err). */
  datatype WriteReply = Full | Reply(n: int, err: Option<Err>)

  function ReadAt(source: seq<ReadResult>, i: nat): ReadResult
  {
    if i < |source| then source[i] else ReadResult([], Some(EOF))
  }

  function ReplyAt(replies: seq<WriteReply>, j: nat): WriteReply
  {
    if j < |replies| then replies[j] else Full
  }

  /** The (nw, ew) a Write of `nr` bytes returns. */
  function WriterReturns(reply: WriteReply, nr: nat): (int, Option<Err>)
  {
    if reply.Full? then (nr, None) else (reply.n, reply.err)
  }

  /** Whether the check before read number i sees the context done. */
  predicate Cancelled(cancelAt: Option<nat>, i: nat)
  {
    cancelAt.Some? && cancelAt.value <= i
  }

  /**
    The count the loop accepts and the error it records for a Write of `nr`
    bytes: a count below 0 or above nr is counted as 0 and, unless the writer
    reported an error, recorded as errInvalidWrite.
  */
  function WriteStep(nr: nat, reply: WriteReply): (r: (nat, Option<Err>))
    ensures r.0 <= nr
    ensures reply.Reply? && (reply.n < 0 || reply.n > nr) ==>
              r == (0, if reply.err.None? then Some(InvalidWrite) else reply.err)
    ensures !(reply.Reply? && (reply.n < 0 || reply.n > nr)) ==> r == WriterReturns(reply, nr)
    ensures r.1.None? <==> (reply.Full? || (0 <= reply.n <= nr && reply.err.None?))
    ensures r.1.None? ==> r.0 == WriterReturns(reply, nr).0
  {
    var (nw, ew) := WriterReturns(reply, nr);
    if nw < 0 || nr < nw then (0, if ew.None? then Some(InvalidWrite) else ew)
    else (nw, ew)
  }

  /** The error a copy ends with when a Read returns `e`: io.EOF is a clean end. */
  function ReadEndErr(e: Err): Option<Err>
  {
    if e == EOF then None else Some(e)
  }

  /**
    What a copy, or the rest of one, produces: the count it returns, the error
    it returns, the payloads it passed to Write in order, the bytes the writer
    accepted, how many Reads it made, and whether it stopped on cancellation.
  */
  datatype Outcome = Outcome(
    written: int,
    err: Option<Err>,
    payloads: seq<seq<byte>>,
    acked: seq<byte>,
    readCalls: nat,
    cancelled: bool)

  /** The outcome of some iterations followed by the outcome of the rest. */
  function Join(a: Outcome, b: Outcome): Outcome
  {
    Outcome(a.written + b.written, b.err, a.payloads + b.payloads, a.acked + b.acked,
            a.readCalls + b.readCalls, b.cancelled)
  }

  /**
    The copy loop from iteration i on, when w Writes have been made. The
    written count always equals the number of bytes the writer accepted.
  */
  function Run(v: Variant, source: seq<ReadResult>, replies: seq<WriteReply>,
               cancelAt: Option<nat>, i: nat, w: nat): (o: Outcome)
    ensures o.written == |o.acked|
    decreases |source| - i
  {
    if Cancelled(cancelAt, i) then Outcome(0, CancelErr(v), [], [], 0, true)
    else
      var r := ReadAt(source, i);
      if |r.data| > 0 then
        var (nw, ew) := WriteStep(|r.data|, ReplyAt(replies, w));
        var here := Outcome(nw, None, [r.data], r.data[..nw], 1, false);
        if ew.Some? then here.(err := ew)
        else if nw != |r.data| then here.(err := Some(ShortWrite))
        else if r.err.Some? then here.(err := ReadEndErr(r.err.value))
        else Join(here, Run(v, source, replies, cancelAt, i + 1, w + 1))
      else if r.err.Some? then Outcome(0, ReadEndErr(r.err.value), [], [], 1, false)
      else Join(Outcome(0, None, [], [], 1, false), Run(v, source, replies, cancelAt, i + 1, w))
  }

  /** A whole copy. */
  function Copy(v: Variant, source: seq<ReadResult>, replies: seq<WriteReply>,
                cancelAt: Option<nat>): Outcome
  {
    Run(v, source, replies, cancelAt, 0, 0)
  }

  /**
    The buffered copy loop. `buf` is the caller's buffer (null for Go's nil);
    every chunk the reader delivers fits the buffer it is given, as the
    io.Reader contract requires. The returned count and error are those of
    `Copy`, and `sent` is what the loop handed to Write, taken from the buffer.
  */
  method CopyBuffer(v: Variant, source: seq<ReadResult>, replies: seq<WriteReply>,
                    cancelAt: Option<nat>, buf: array?<byte>, limit: Option<int>)
    returns (written: int, err: Option<Err>, ghost sent: seq<seq<byte>>)
    requires forall k | 0 <= k < |source| :: |source[k].data| <= BufferLength(buf, limit)
    modifies buf
    ensures written == Copy(v, source, replies, cancelAt).written
    ensures err == Copy(v, source, replies, cancelAt).err
    ensures sent == Copy(v, source, replies, cancelAt).payloads
  {
    var b: array<byte>;
    if buf == null {
      b := new byte[AllocSize(limit)];
    } else {
      b := buf;
    }
    written, err, sent := 0, None, [];
    var i, w := 0, 0;
    ghost var acc := Outcome(0, None, [], [], 0, false);
    while true
      invariant i <= |source|
      invariant b.Length == BufferLength(buf, limit)
      invariant written == acc.written >= 0 && sent == acc.payloads
      invariant Copy(v, source, replies, cancelAt) == Join(acc, Run(v, source, replies, cancelAt, i, w))
      decreases |source| - i
    {
      if Cancelled(cancelAt, i) {
        err := CancelErr(v);
        return;
      }
      var r := ReadAt(source, i);
      var nr := |r.data|;
      Fill(b, r.data);
      ghost var rest := Run(v, source, replies, cancelAt, i, w);
      var here := Outcome(0, None, [], [], 1, false);
      if nr > 0 {
        var returned := WriterReturns(ReplyAt(replies, w), nr);
        var nw, ew := returned.0, returned.1;
        sent := sent + [b[..nr]];
        if nw < 0 || nr < nw {
          nw := 0;
          if ew == None {
            ew := Some(InvalidWrite);
          }
        }
        assert (nw, ew) == WriteStep(nr, ReplyAt(replies, w));
        written := written + nw;
        here := Outcome(nw, None, [r.data], r.data[..nw], 1, false);
        if ew != None {
          assert rest == here.(err := ew) by { }
          err := ew;
          return;
        }
        if nr != nw {
          assert rest == here.(err := Some(ShortWrite)) by { }
          err := Some(ShortWrite);
          return;
        }
        w := w + 1;
      }
      if r.err != None {
        assert rest == here.(err := ReadEndErr(r.err.value)) by { }
        if r.err != Some(EOF) {
          err := r.err;
        }
        return;
      }
      assert rest == Join(here, Run(v, source, replies, cancelAt, i + 1, w));
      JoinAssociative(acc, here, Run(v, source, replies, cancelAt, i + 1, w));
      acc := Join(acc, here);
      i := i + 1;
    }
  }

  lemma JoinAssociative(a: Outcome, b: Outcome, c: Outcome)
    ensures Join(a, Join(b, c)) == Join(Join(a, b), c)
  {
    assert a.payloads + (b.payloads + c.payloads) == (a.payloads + b.payloads) + c.payloads;
    assert a.acked + (b.acked + c.acked) == (a.acked + b.acked) + c.acked;
  }

  /** A Read filling the front of the buffer with the bytes it delivers. */
  method Fill(b: array<byte>, data: seq<byte>)
    requires |data| <= b.Length
    modifies b
    ensures b[..|data|] == data
  {
    forall k | 0 <= k < |data| {
      b[k] := data[k];
    }
  }

  // ---------------------------------------------------------------------------
  // Properties of the loop

  /** All bytes the reader delivers from read i on, in order. */
  function Stream(source: seq<ReadResult>, i: nat): seq<byte>
    decreases |source| - i
  {
    if i < |source| then source[i].data + Stream(source, i + 1) else []
  }

  /** The payloads laid end to end. */
  function Flatten(ps: seq<seq<byte>>): seq<byte>
  {
    if ps == [] then [] else ps[0] + Flatten(ps[1..])
  }

  lemma FlattenAppend(a: seq<seq<byte>>, b: seq<seq<byte>>)
    ensures Flatten(a + b) == Flatten(a) + Flatten(b)
  {
    if a == [] {
      assert a + b == b;
    } else {
      assert (a + b)[0] == a[0];
      assert (a + b)[1..] == a[1..] + b;
      FlattenAppend(a[1..], b);
    }
  }

  /**
    The sink never receives more than, or anything other than, what the source
    delivered: the accepted bytes are a prefix of the payloads passed to Write,
    which are a prefix of the source's stream; and the written count is never
    negative.
  */
  lemma {:induction false} AckedIsPrefixOfStream(v: Variant, source: seq<ReadResult>, replies: seq<WriteReply>,
                                                 cancelAt: Option<nat>, i: nat, w: nat)
    ensures var o := Run(v, source, replies, cancelAt, i, w);
      o.acked <= Flatten(o.payloads) && Flatten(o.payloads) <= Stream(source, i) && o.written >= 0
    decreases |source| - i
  {
    var o := Run(v, source, replies, cancelAt, i, w);
    if Cancelled(cancelAt, i) {
    } else {
      var r := ReadAt(source, i);
      if i < |source| {
        assert Stream(source, i) == r.data + Stream(source, i + 1);
        var (nw, ew) := WriteStep(|r.data|, ReplyAt(replies, w));
        if |r.data| > 0 && ew.None? && nw == |r.data| && r.err.None? {
          AckedIsPrefixOfStream(v, source, replies, cancelAt, i + 1, w + 1);
          var rest := Run(v, source, replies, cancelAt, i + 1, w + 1);
          FlattenAppend([r.data], rest.payloads);
          assert Flatten([r.data]) == r.data;
        } else if |r.data| == 0 && r.err.None? {
          AckedIsPrefixOfStream(v, source, replies, cancelAt, i + 1, w);
          var rest := Run(v, source, replies, cancelAt, i + 1, w);
          assert o.payloads == rest.payloads && o.acked == rest.acked;
          assert Stream(source, i) == Stream(source, i + 1);
        } else if |r.data| > 0 {
          assert o.payloads == [r.data];
          assert Flatten(o.payloads) == r.data;
        }
      }
    }
  }

  /** The source has no read error other than an io.EOF on its last read. */
  predicate CleanSource(source: seq<ReadResult>)
  {
    forall k | 0 <= k < |source| :: source[k].err.None? || (k == |source| - 1 && source[k].err == Some(EOF))
  }

  /** Every Write writes all it is given and returns nil. */
  predicate FullWriter(replies: seq<WriteReply>)
  {
    forall j | 0 <= j < |replies| :: replies[j].Full?
  }

  /**
    Round trip: a source that yields chunks and then EOF, copied uncancelled to
    a writer that takes every byte, ends with a nil error, the sink holds the
    source's bytes in order, and the count is their number.
  */
  lemma {:induction false} RoundTripFrom(v: Variant, source: seq<ReadResult>, replies: seq<WriteReply>, i: nat, w: nat)
    requires CleanSource(source) && FullWriter(replies)
    ensures var o := Run(v, source, replies, None, i, w);
      o.err.None? && !o.cancelled && o.acked == Stream(source, i) && o.written == |Stream(source, i)|
    decreases |source| - i
  {
    if i < |source| {
      var r := source[i];
      if r.err.None? {
        if |r.data| > 0 {
          RoundTripFrom(v, source, replies, i + 1, w + 1);
        } else {
          RoundTripFrom(v, source, replies, i + 1, w);
        }
      } else {
        assert i == |source| - 1;
        assert Stream(source, i + 1) == [];
      }
    }
  }

  lemma RoundTrip(v: Variant, source: seq<ReadResult>, replies: seq<WriteReply>)
    requires CleanSource(source) && FullWriter(replies)
    ensures var o := Copy(v, source, replies, None);
      o.err.None? && o.acked == Stream(source, 0) && o.written == |Stream(source, 0)|
  {
    RoundTripFrom(v, source, replies, 0, 0);
  }

  /**
    Cancellation: once the context is done the loop makes no further Read; a
    copy that stops on cancellation has made exactly the Reads before the
    check that saw it and returns the variant's cancellation error; without
    a cancellation the copy never stops on one.
  */
  lemma {:induction false} CancellationStopsReading(v: Variant, source: seq<ReadResult>, replies: seq<WriteReply>,
                                                    cancelAt: Option<nat>, i: nat, w: nat)
    ensures var o := Run(v, source, replies, cancelAt, i, w);
      && (cancelAt.Some? && i <= cancelAt.value ==> i + o.readCalls <= cancelAt.value)
      && (o.cancelled ==> cancelAt.Some? && o.err == CancelErr(v)
                          && (i <= cancelAt.value ==> i + o.readCalls == cancelAt.value))
    decreases |source| - i
  {
    if !Cancelled(cancelAt, i) {
      var r := ReadAt(source, i);
      if i < |source| {
        CancellationStopsReading(v, source, replies, cancelAt, i + 1, w + 1);
        CancellationStopsReading(v, source, replies, cancelAt, i + 1, w);
      }
    }
  }

  /** A copy cancelled before its first read writes nothing and reports cancellation, never an I/O fault. */
  lemma CancelBeforeFirstRead(v: Variant, source: seq<ReadResult>, replies: seq<WriteReply>)
    ensures var o := Copy(v, source, replies, Some(0));
      o.written == 0 && o.readCalls == 0 && o.cancelled && o.err == CancelErr(v)
  {
  }

  /**
    The two copies of the loop agree on everything except the error of a
    cancelled copy, which is interruptedErr in direct.go and nil in client.go.
  */
  lemma {:induction false} VariantsDifferOnlyOnCancel(source: seq<ReadResult>, replies: seq<WriteReply>,
                                                      cancelAt: Option<nat>, i: nat, w: nat)
    ensures var d := Run(Direct, source, replies, cancelAt, i, w);
      Run(Client, source, replies, cancelAt, i, w) == d.(err := if d.cancelled then None else d.err)
    decreases |source| - i
  {
    if !Cancelled(cancelAt, i) && i < |source| {
      VariantsDifferOnlyOnCancel(source, replies, cancelAt, i + 1, w + 1);
      VariantsDifferOnlyOnCancel(source, replies, cancelAt, i + 1, w);
    }
  }

  /** No reader or writer of the script returns the package's private interruptedErr. */
  predicate NoInterrupted(source: seq<ReadResult>, replies: seq<WriteReply>)
  {
    && (forall k | 0 <= k < |source| :: source[k].err != Some(Interrupted))
    && (forall j | 0 <= j < |replies| :: replies[j].Reply? ==> replies[j].err != Some(Interrupted))
  }

  /** In direct.go's copy, interruptedErr is returned exactly when the copy was cancelled. */
  lemma {:induction false} DirectInterruptedIffCancelled(source: seq<ReadResult>, replies: seq<WriteReply>,
                                                         cancelAt: Option<nat>, i: nat, w: nat)
    requires NoInterrupted(source, replies)
    ensures var o := Run(Direct, source, replies, cancelAt, i, w);
      o.err == Some(Interrupted) <==> o.cancelled
    decreases |source| - i
  {
    if !Cancelled(cancelAt, i) && i < |source| {
      DirectInterruptedIffCancelled(source, replies, cancelAt, i + 1, w + 1);
      DirectInterruptedIffCancelled(source, replies, cancelAt, i + 1, w);
    }
  }

  // One iteration, stated at the iteration the copy has reached.

  /**
    A Write whose count is negative or larger than its payload is counted as 0
    bytes and ends the copy with the writer's error, or errInvalidWrite if it
    reported none.
  */
  lemma InvalidWriteCountsZero(v: Variant, source: seq<ReadResult>, replies: seq<WriteReply>,
                               cancelAt: Option<nat>, i: nat, w: nat)
    requires !Cancelled(cancelAt, i) && |ReadAt(source, i).data| > 0
    requires ReplyAt(replies, w).Reply?
    requires ReplyAt(replies, w).n < 0 || ReplyAt(replies, w).n > |ReadAt(source, i).data|
    ensures var o := Run(v, source, replies, cancelAt, i, w);
      && o.written == 0 && o.acked == [] && o.readCalls == 1
      && o.err == (if ReplyAt(replies, w).err.None? then Some(InvalidWrite) else ReplyAt(replies, w).err)
  {
  }

  /** A writer error ends the copy with that error, after the bytes it accepted are counted. */
  lemma WriterErrorEndsCopy(v: Variant, source: seq<ReadResult>, replies: seq<WriteReply>,
                            cancelAt: Option<nat>, i: nat, w: nat)
    requires !Cancelled(cancelAt, i) && |ReadAt(source, i).data| > 0
    requires ReplyAt(replies, w).Reply? && ReplyAt(replies, w).err.Some?
    requires 0 <= ReplyAt(replies, w).n <= |ReadAt(source, i).data|
    ensures var o := Run(v, source, replies, cancelAt, i, w);
      && o.written == ReplyAt(replies, w).n && o.err == ReplyAt(replies, w).err
      && o.acked == ReadAt(source, i).data[..ReplyAt(replies, w).n] && o.readCalls == 1
  {
  }

  /** A partial Write with no error ends the copy with io.ErrShortWrite. */
  lemma ShortWriteEndsCopy(v: Variant, source: seq<ReadResult>, replies: seq<WriteReply>,
                           cancelAt: Option<nat>, i: nat, w: nat)
    requires !Cancelled(cancelAt, i) && |ReadAt(source, i).data| > 0
    requires ReplyAt(replies, w).Reply? && ReplyAt(replies, w).err.None?
    requires 0 <= ReplyAt(replies, w).n < |ReadAt(source, i).data|
    ensures var o := Run(v, source, replies, cancelAt, i, w);
      o.written == ReplyAt(replies, w).n && o.err == Some(ShortWrite) && o.readCalls == 1
  {
  }

  /**
    Data a Read returns together with an error is written before the error is
    considered; io.EOF then ends the copy with a nil error and any other error
    ends it with that error.
  */
  lemma ReadErrorAfterData(v: Variant, source: seq<ReadResult>, replies: seq<WriteReply>,
                           cancelAt: Option<nat>, i: nat, w: nat)
    requires !Cancelled(cancelAt, i) && ReadAt(source, i).err.Some?
    requires ReplyAt(replies, w).Full?
    ensures var o := Run(v, source, replies, cancelAt, i, w);
      && o.acked == ReadAt(source, i).data && o.written == |ReadAt(source, i).data|
      && o.readCalls == 1 && !o.cancelled
      && (ReadAt(source, i).err == Some(EOF) ==> o.err.None?)
      && (ReadAt(source, i).err != Some(EOF) ==> o.err == ReadAt(source, i).err)
  {
  }
}

/**
  direct.go: the Director, which forwards local connections to a remote
  target over an established SSH connection. The model keeps the sequential
  skeleton: the buffer allocation, one direction of a binding (copy, then close
  both connections), the dial-failure path, and the accept loops' termination
  rules. The goroutines the code starts per binding and per accepted
  connection are not modelled; a binding's two directions are run one after
  the other.
*/
module Director {
  import opened Wrappers
  import opened Errors
  import opened StreamCopy

  /** A network connection; only whether it has been closed is observed. */
  class Conn {
    var closed: bool

    constructor ()
      ensures !closed
    {
      closed := false;
    }

    /** net.Conn.Close; closing a closed connection again is harmless. */
    method Close()
      modifies this
      ensures closed
    {
      closed := true;
    }
  }

  /** The script of one copy direction: what its reader and writer return, and when its context fires. */
  datatype Transfer = Transfer(source: seq<ReadResult>, replies: seq<WriteReply>, cancelAt: Option<nat>)

  /** Every chunk the direction's reader delivers fits a buffer of n bytes. */
  predicate FitsBuffer(t: Transfer, n: nat)
  {
    forall k | 0 <= k < |t.source| :: |t.source[k].data| <= n
  }

  /** direct.go's copy loop: a cancelled copy returns interruptedErr. */
  method CopyBufferWithContext(source: seq<ReadResult>, replies: seq<WriteReply>, cancelAt: Option<nat>,
                               buf: array?<byte>, limit: Option<int>)
    returns (written: int, err: Option<Err>)
    requires forall k | 0 <= k < |source| :: |source[k].data| <= BufferLength(buf, limit)
    modifies buf
    ensures written == Copy(Direct, source, replies, cancelAt).written
    ensures err == Copy(Direct, source, replies, cancelAt).err
    ensures Copy(Direct, source, replies, cancelAt).cancelled ==> err == Some(Interrupted)
  {
    ghost var sent: seq<seq<byte>>;
    written, err, sent := CopyBuffer(Direct, source, replies, cancelAt, buf, limit);
    CancellationStopsReading(Direct, source, replies, cancelAt, 0, 0);
  }

  /**
    The buffers of a binding: two separate buffers of bufSize bytes when
    bufSize is positive, otherwise none (each copy then allocates its own).
  */
  method AllocateBuffers(bufSize: int) returns (readBuf: array?<byte>, writeBuf: array?<byte>)
    ensures bufSize <= 0 ==> readBuf == null && writeBuf == null
    ensures bufSize > 0 ==> && readBuf != null && writeBuf != null && readBuf != writeBuf
                            && fresh(readBuf) && fresh(writeBuf)
                            && readBuf.Length == bufSize && writeBuf.Length == bufSize
  {
    readBuf, writeBuf := null, null;
    if bufSize > 0 {
      readBuf := new byte[bufSize];
      writeBuf := new byte[bufSize];
    }
  }

  /** One direction of a binding: copy, then close both connections whatever the copy returned. */
  method CopyThenClose(lconn: Conn, rconn: Conn, t: Transfer, buf: array?<byte>)
    returns (written: int, err: Option<Err>)
    requires FitsBuffer(t, BufferLength(buf, None))
    modifies lconn, rconn, buf
    ensures lconn.closed && rconn.closed
    ensures written == Copy(Direct, t.source, t.replies, t.cancelAt).written
    ensures err == Copy(Direct, t.source, t.replies, t.cancelAt).err
  {
    written, err := CopyBufferWithContext(t.source, t.replies, t.cancelAt, buf, None);
    lconn.Close();
    rconn.Close();
  }

  /** The buffer size each direction of a binding ends up reading into. */
  function BindingBufferSize(bufSize: int): nat
  {
    if bufSize > 0 then bufSize else DefaultBufferSize
  }

  /**
    bindConnsWithBuffer: local to remote with the write buffer and context,
    remote to local with the read buffer and context; both connections are
    closed once the binding returns.
  */
  method BindConnsWithBuffer(lconn: Conn, rconn: Conn, bufSize: int, toRemote: Transfer, toLocal: Transfer)
    requires FitsBuffer(toRemote, BindingBufferSize(bufSize)) && FitsBuffer(toLocal, BindingBufferSize(bufSize))
    modifies lconn, rconn
    ensures lconn.closed && rconn.closed
  {
    var readBuf, writeBuf := AllocateBuffers(bufSize);
    var _, _ := CopyThenClose(lconn, rconn, toRemote, writeBuf);
    var _, _ := CopyThenClose(lconn, rconn, toLocal, readBuf);
  }

  /**
    BindConnToWithBuffer: a failed dial is returned as it is and nothing is
    bound, leaving the local connection open for its owner; after a
    successful dial the binding runs and both connections end closed.
  */
  method BindConnToWithBuffer(lconn: Conn, dial: Result<Conn, Err>, bufSize: int,
                              toRemote: Transfer, toLocal: Transfer)
    returns (err: Option<Err>)
    requires FitsBuffer(toRemote, BindingBufferSize(bufSize)) && FitsBuffer(toLocal, BindingBufferSize(bufSize))
    modifies lconn, if dial.Success? then {dial.value} else {}
    ensures dial.Failure? ==> err == Some(dial.error) && lconn.closed == old(lconn.closed)
    ensures dial.Success? ==> err.None? && lconn.closed && dial.value.closed
  {
    if dial.Failure? {
      return Some(dial.error);
    }
    BindConnsWithBuffer(lconn, dial.value, bufSize, toRemote, toLocal);
    err := None;
  }

  // ---------------------------------------------------------------------------
  // Accept loops

  /** A local connection, as far as the accept loops see it. */
  type ConnId = nat

  /** One Accept: a connection or an error. */
  datatype AcceptResult = Accepted(conn: ConnId) | AcceptFailed(err: Err)

  /** The listener's k-th Accept; past its script the listener is closed. */
  function AcceptAt(accepts: seq<AcceptResult>, k: nat): AcceptResult
  {
    if k < |accepts| then accepts[k] else AcceptFailed(Foreign("use of closed network connection"))
  }

  /** The Director's connection-transform hook, NewConnCb; None when it is nil. */
  datatype Director = Director(newConnCb: Option<ConnId -> Result<ConnId, Err>>)

  /** The connection a loop iteration forwards, or the hook's error. */
  function Transform(d: Director, c: ConnId): Result<ConnId, Err>
  {
    if d.newConnCb.None? then Success(c) else d.newConnCb.value(c)
  }

  /**
    The iteration at which RedirectToWithBuffer returns, from iteration k on:
    the first whose cancellation check fires or whose Accept fails.
  */
  function RedirectStop(accepts: seq<AcceptResult>, cancelAt: Option<nat>, k: nat): nat
    decreases |accepts| - k
  {
    if Cancelled(cancelAt, k) || AcceptAt(accepts, k).AcceptFailed? then k
    else RedirectStop(accepts, cancelAt, k + 1)
  }

  /** RedirectStop is the first iteration that is cancelled or whose Accept fails. */
  lemma {:induction false} RedirectStopIsFirstFailure(accepts: seq<AcceptResult>, cancelAt: Option<nat>, k: nat)
    ensures var n := RedirectStop(accepts, cancelAt, k);
      && k <= n <= Max(k, |accepts|)
      && (Cancelled(cancelAt, n) || AcceptAt(accepts, n).AcceptFailed?)
      && (forall j | k <= j < n :: !Cancelled(cancelAt, j) && AcceptAt(accepts, j).Accepted?)
    decreases |accepts| - k
  {
    if !(Cancelled(cancelAt, k) || AcceptAt(accepts, k).AcceptFailed?) {
      RedirectStopIsFirstFailure(accepts, cancelAt, k + 1);
    }
  }

  function Max(a: int, b: int): int { if a >= b then a else b }

  /**
    RedirectToWithBuffer's loop: check the context, Accept, return on an
    Accept error, otherwise hand the connection to a forwarding goroutine.
    `served` lists the connections handed off, `acceptCalls` counts the Accepts.
  */
  method RedirectToWithBuffer(accepts: seq<AcceptResult>, cancelAt: Option<nat>)
    returns (served: seq<ConnId>, acceptCalls: nat)
    ensures |served| == RedirectStop(accepts, cancelAt, 0)
    ensures forall j | 0 <= j < |served| :: AcceptAt(accepts, j) == Accepted(served[j])
    ensures acceptCalls == |served| + (if Cancelled(cancelAt, |served|) then 0 else 1)
    ensures cancelAt.Some? ==> acceptCalls <= cancelAt.value
  {
    served, acceptCalls := [], 0;
    var k := 0;
    while true
      invariant k == |served| == acceptCalls
      invariant RedirectStop(accepts, cancelAt, 0) == RedirectStop(accepts, cancelAt, k)
      invariant forall j | 0 <= j < k :: AcceptAt(accepts, j) == Accepted(served[j])
      invariant cancelAt.Some? ==> k <= cancelAt.value
      decreases |accepts| - k
    {
      if Cancelled(cancelAt, k) {
        return;
      }
      var a := AcceptAt(accepts, k);
      acceptCalls := acceptCalls + 1;
      if a.AcceptFailed? {
        return;
      }
      served := served + [a.conn];
      k := k + 1;
    }
  }

  /**
    The iteration at which DirectTcpToWithBuffer returns, from iteration k on:
    the first that is cancelled, whose Accept fails, or whose connection the
    hook rejects.
  */
  function TcpStop(d: Director, accepts: seq<AcceptResult>, cancelAt: Option<nat>, k: nat): nat
    decreases |accepts| - k
  {
    if Cancelled(cancelAt, k) || AcceptAt(accepts, k).AcceptFailed?
       || Transform(d, AcceptAt(accepts, k).conn).Failure?
    then k
    else TcpStop(d, accepts, cancelAt, k + 1)
  }

  /**
    TcpStop is the first iteration that is cancelled, fails to Accept, or has
    its connection rejected by the hook: a rejected connection ends the whole
    loop, it is not skipped.
  */
  lemma {:induction false} TcpStopIsFirstFailure(d: Director, accepts: seq<AcceptResult>, cancelAt: Option<nat>, k: nat)
    ensures var n := TcpStop(d, accepts, cancelAt, k);
      && k <= n <= Max(k, |accepts|)
      && (|| Cancelled(cancelAt, n) || AcceptAt(accepts, n).AcceptFailed?
          || Transform(d, AcceptAt(accepts, n).conn).Failure?)
      && (forall j | k <= j < n :: && !Cancelled(cancelAt, j) && AcceptAt(accepts, j).Accepted?
                                   && Transform(d, AcceptAt(accepts, j).conn).Success?)
    decreases |accepts| - k
  {
    if !(Cancelled(cancelAt, k) || AcceptAt(accepts, k).AcceptFailed?
         || Transform(d, AcceptAt(accepts, k).conn).Failure?) {
      TcpStopIsFirstFailure(d, accepts, cancelAt, k + 1);
    }
  }

  /**
    DirectTcpToWithBuffer's loop: like RedirectToWithBuffer's, except that an
    accepted connection first goes through the hook when one is set, the
    hook's connection is the one forwarded, and a hook error ends the loop.
  */
  method DirectTcpToWithBuffer(d: Director, accepts: seq<AcceptResult>, cancelAt: Option<nat>)
    returns (served: seq<ConnId>, acceptCalls: nat)
    ensures |served| == TcpStop(d, accepts, cancelAt, 0)
    ensures forall j | 0 <= j < |served| ::
      AcceptAt(accepts, j).Accepted? && Transform(d, AcceptAt(accepts, j).conn) == Success(served[j])
    ensures acceptCalls == |served| + (if Cancelled(cancelAt, |served|) then 0 else 1)
  {
    served, acceptCalls := [], 0;
    var k := 0;
    while true
      invariant k == |served| == acceptCalls
      invariant TcpStop(d, accepts, cancelAt, 0) == TcpStop(d, accepts, cancelAt, k)
      invariant forall j | 0 <= j < k ::
        AcceptAt(accepts, j).Accepted? && Transform(d, AcceptAt(accepts, j).conn) == Success(served[j])
      decreases |accepts| - k
    {
      if Cancelled(cancelAt, k) {
        return;
      }
      var a := AcceptAt(accepts, k);
      acceptCalls := acceptCalls + 1;
      if a.AcceptFailed? {
        return;
      }
      var lconn := a.conn;
      if d.newConnCb.Some? {
        var transformed := d.newConnCb.value(lconn);
        if transformed.Failure? {
          return;
        }
        lconn := transformed.value;
      }
      served := served + [lconn];
      k := k + 1;
    }
  }

  /**
    A listener serving three connections in turn, without cancellation, has
    all three forwarded and stops only when its next Accept fails.
  */
  lemma ThreeConnectionsServed(a: ConnId, b: ConnId, c: ConnId, e: Err)
    ensures RedirectStop([Accepted(a), Accepted(b), Accepted(c), AcceptFailed(e)], None, 0) == 3
  {
    var accepts := [Accepted(a), Accepted(b), Accepted(c), AcceptFailed(e)];
    assert RedirectStop(accepts, None, 3) == 3;
    assert RedirectStop(accepts, None, 2) == 3;
    assert RedirectStop(accepts, None, 1) == 3;
  }
}

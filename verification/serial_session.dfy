/**
 * The serial device session (`serial_connect`, `serial_disconnect`): the
 * descriptor, the `connected` flag and the device attributes saved for
 * restoration, which the C program keeps in globals.
 */
module SerialSession {
  import opened Wrappers
  import opened Termios
  import opened Os

  /** `errno` value reported when the lock is held by another process (Linux). */
  const EWOULDBLOCK: int := 11

  /** The flags the device is opened with. */
  const OpenFlags: bv32 := O_RDWR | O_NOCTTY | O_NONBLOCK

  /** What `flock` returned, with `errno` as it stood afterwards. */
  datatype FlockResult = FlockResult(status: int, errno: int)

  /**
   * The outcomes of the calls `serial_connect` makes: the descriptor `open`
   * returned, whether `isatty` said yes, the record `tcgetattr` produced
   * (None when it failed), the `flock` result and the status `tcsetattr`
   * returned.
   */
  datatype ConnectOutcomes = ConnectOutcomes(
    openFd: Fd,
    isTty: bool,
    saved: Option<Attrs>,
    lock: FlockResult,
    setStatus: int)

  /** The reasons `serial_connect` ends the process. */
  datatype ConnectError = OpenFailed | NotATty | SaveFailed | DeviceLocked | ApplyFailed

  datatype ConnectResult = Connected(status: int) | ConnectFatal(error: ConnectError)

  /** The one `flock` failure that is fatal: the lock is held elsewhere. */
  predicate LockBusy(lock: FlockResult)
  {
    lock.status == -1 && lock.errno == EWOULDBLOCK
  }

  /** Everything `serial_connect` does when every step passes, in order. */
  function FullConnectCalls(path: string, fd: Fd, serialio: Attrs): seq<SysCall>
  {
    [Open(path, OpenFlags), IsATty(fd), TcGetAttr(fd), Flock(fd, LockExclusiveNonBlocking),
     TcFlush(fd, TcIOFlush), TcSetAttr(fd, TcsaNow, serialio)]
  }

  /**
   * The result of `serial_connect` and the calls it issues, given the
   * outcomes of those calls. The calls are always a prefix of the full
   * sequence: the first failing check is the last call made, and it
   * determines the error.
   */
  function ConnectSteps(path: string, serialio: Attrs, o: ConnectOutcomes): (r: (ConnectResult, seq<SysCall>))
    ensures 1 <= |r.1| <= 6 && r.1 == FullConnectCalls(path, o.openFd, serialio)[..|r.1|]
    ensures r.0 == ConnectFatal(OpenFailed) <==> o.openFd < 0
    ensures r.0 == ConnectFatal(OpenFailed) ==> |r.1| == 1
    ensures r.0 == ConnectFatal(NotATty) <==> o.openFd >= 0 && !o.isTty
    ensures r.0 == ConnectFatal(NotATty) ==> |r.1| == 2
    ensures r.0 == ConnectFatal(SaveFailed) <==> o.openFd >= 0 && o.isTty && o.saved.None?
    ensures r.0 == ConnectFatal(SaveFailed) ==> |r.1| == 3
    ensures r.0 == ConnectFatal(DeviceLocked) <==> o.openFd >= 0 && o.isTty && o.saved.Some? && LockBusy(o.lock)
    ensures r.0 == ConnectFatal(DeviceLocked) ==> |r.1| == 4
    ensures r.0 == ConnectFatal(ApplyFailed) <==> o.openFd >= 0 && o.isTty && o.saved.Some? && !LockBusy(o.lock) && o.setStatus == -1
    ensures r.0.Connected? <==> o.openFd >= 0 && o.isTty && o.saved.Some? && !LockBusy(o.lock) && o.setStatus != -1
    ensures r.0.Connected? || r.0 == ConnectFatal(ApplyFailed) <==> |r.1| == 6
    ensures r.0.Connected? ==> r.0.status == o.setStatus
  {
    var fd := o.openFd;
    if fd < 0 then (ConnectFatal(OpenFailed), [Open(path, OpenFlags)])
    else if !o.isTty then (ConnectFatal(NotATty), [Open(path, OpenFlags), IsATty(fd)])
    else if o.saved.None? then (ConnectFatal(SaveFailed), [Open(path, OpenFlags), IsATty(fd), TcGetAttr(fd)])
    else if LockBusy(o.lock) then
      (ConnectFatal(DeviceLocked), [Open(path, OpenFlags), IsATty(fd), TcGetAttr(fd), Flock(fd, LockExclusiveNonBlocking)])
    else
      var calls := FullConnectCalls(path, fd, serialio);
      if o.setStatus == -1 then (ConnectFatal(ApplyFailed), calls) else (Connected(o.setStatus), calls)
  }

  /** A `flock` failure other than the lock being held elsewhere does not stop the connection. */
  lemma {:induction false} OtherLockFailuresFallThrough(path: string, serialio: Attrs, o: ConnectOutcomes)
    requires o.openFd >= 0 && o.isTty && o.saved.Some? && o.setStatus != -1
    requires o.lock.status == -1 && o.lock.errno != EWOULDBLOCK
    ensures ConnectSteps(path, serialio, o).0.Connected?
    ensures Flock(o.openFd, LockExclusiveNonBlocking) in ConnectSteps(path, serialio, o).1
  {
    assert ConnectSteps(path, serialio, o).1[3] == Flock(o.openFd, LockExclusiveNonBlocking);
  }

  /** The calls `serial_disconnect` issues. */
  function DisconnectCalls(wasConnected: bool, fd: Fd, saved: Attrs): (r: seq<SysCall>)
    ensures |r| == (if wasConnected then 3 else 1) && r[0] == TcSetAttr(fd, TcsaNow, saved)
    ensures wasConnected ==> r[1] == Flock(fd, LockUnlock) && r[2] == Close(fd)
    ensures LastApplied(r, fd) == Some(saved)
    ensures multiset(r)[Flock(fd, LockUnlock)] == (if wasConnected then 1 else 0)
    ensures multiset(r)[Close(fd)] == (if wasConnected then 1 else 0)
  {
    var restore := TcSetAttr(fd, TcsaNow, saved);
    if wasConnected then
      assert [restore, Flock(fd, LockUnlock), Close(fd)][..2] == [restore, Flock(fd, LockUnlock)];
      assert [restore, Flock(fd, LockUnlock)][..1] == [restore];
      assert LastApplied([restore, Flock(fd, LockUnlock)], fd) == Some(saved);
      [restore, Flock(fd, LockUnlock), Close(fd)]
    else [restore]
  }

  /** The calls issued by `n` consecutive calls of `serial_disconnect`. */
  function RepeatedDisconnect(wasConnected: bool, fd: Fd, saved: Attrs, n: nat): seq<SysCall>
  {
    if n == 0 then [] else DisconnectCalls(wasConnected, fd, saved) + RepeatedDisconnect(false, fd, saved, n - 1)
  }

  /**
   * However often `serial_disconnect` runs, the device is unlocked and closed
   * at most once, and exactly once when it was connected.
   */
  lemma {:induction false} DisconnectReleasesOnce(wasConnected: bool, fd: Fd, saved: Attrs, n: nat)
    requires n > 0
    ensures multiset(RepeatedDisconnect(wasConnected, fd, saved, n))[Close(fd)] == (if wasConnected then 1 else 0)
    ensures multiset(RepeatedDisconnect(wasConnected, fd, saved, n))[Flock(fd, LockUnlock)] == (if wasConnected then 1 else 0)
  {
    var first := DisconnectCalls(wasConnected, fd, saved);
    var rest := RepeatedDisconnect(false, fd, saved, n - 1);
    if n > 1 {
      DisconnectReleasesOnce(false, fd, saved, n - 1);
    }
    assert multiset(first + rest) == multiset(first) + multiset(rest);
  }

  /** However often `serial_disconnect` runs, the attributes last requested for the device are the saved ones. */
  lemma {:induction false} RepeatedDisconnectRestores(wasConnected: bool, fd: Fd, saved: Attrs, n: nat)
    requires n > 0
    ensures LastApplied(RepeatedDisconnect(wasConnected, fd, saved, n), fd) == Some(saved)
  {
    var first := DisconnectCalls(wasConnected, fd, saved);
    var rest := RepeatedDisconnect(false, fd, saved, n - 1);
    if n == 1 {
      assert RepeatedDisconnect(wasConnected, fd, saved, n) == first by {
        assert rest == [] && first + rest == first;
      }
    } else {
      assert LastApplied(first + rest, fd) == Some(saved) by {
        RepeatedDisconnectRestores(false, fd, saved, n - 1);
        LastAppliedOfSuffix(first, rest, fd);
      }
    }
  }

  /** Once the later calls set the attributes of `fd`, the earlier calls no longer matter. */
  lemma {:induction false} LastAppliedOfSuffix(front: seq<SysCall>, back: seq<SysCall>, fd: Fd)
    requires LastApplied(back, fd).Some?
    ensures LastApplied(front + back, fd) == LastApplied(back, fd)
  {
    assert back != [];
    var init := back[..|back| - 1];
    assert (front + back)[..|front + back| - 1] == front + init;
    assert (front + back)[|front + back| - 1] == back[|back| - 1];
    if !SetsAttrsOf(back[|back| - 1], fd) {
      LastAppliedOfSuffix(front, init, fd);
    }
  }

  class Session {
    var serialfd: Fd
    var connected: bool
    var serialioOld: Attrs

    /** The static initial values of the globals. */
    constructor ()
      ensures serialfd == 0 && !connected && serialioOld == Zeroed
    {
      serialfd := 0;
      connected := false;
      serialioOld := Zeroed;
    }

    /** While the session is connected, its cleanup handler is registered. */
    predicate CleanupRegistered(p: Process)
      reads this, p
    {
      connected ==> DisconnectSerial in p.atexit
    }

    /**
     * `serial_connect` with the line settings `serialio`. A fatal result
     * stands for the process exiting with failure status.
     */
    method Connect(p: Process, path: string, serialio: Attrs, o: ConnectOutcomes) returns (r: ConnectResult)
      modifies this, p
      ensures r == ConnectSteps(path, serialio, o).0
      ensures p.calls == old(p.calls) + ConnectSteps(path, serialio, o).1
      ensures serialfd == o.openFd
      ensures serialioOld == if o.openFd >= 0 && o.isTty && o.saved.Some? then o.saved.value else old(serialioOld)
      ensures connected == (r.Connected? || old(connected))
      ensures p.atexit == old(p.atexit) + if r.Connected? then [DisconnectSerial] else []
      ensures old(CleanupRegistered(p)) ==> CleanupRegistered(p)
      ensures r.Connected? ==> CleanupRegistered(p)
    {
      p.calls := p.calls + [Open(path, OpenFlags)];
      serialfd := o.openFd;
      if serialfd < 0 {
        return ConnectFatal(OpenFailed);
      }
      p.calls := p.calls + [IsATty(serialfd)];
      if !o.isTty {
        return ConnectFatal(NotATty);
      }
      p.calls := p.calls + [TcGetAttr(serialfd)];
      if o.saved.None? {
        return ConnectFatal(SaveFailed);
      }
      serialioOld := o.saved.value;
      p.calls := p.calls + [Flock(serialfd, LockExclusiveNonBlocking)];
      if LockBusy(o.lock) {
        return ConnectFatal(DeviceLocked);
      }
      p.calls := p.calls + [TcFlush(serialfd, TcIOFlush)];
      p.calls := p.calls + [TcSetAttr(serialfd, TcsaNow, serialio)];
      if o.setStatus == -1 {
        return ConnectFatal(ApplyFailed);
      }
      connected := true;
      p.atexit := p.atexit + [DisconnectSerial];
      r := Connected(o.setStatus);
    }

    /** `serial_disconnect`: the saved attributes are always re-applied; unlock and close only while connected. */
    method Disconnect(p: Process)
      modifies this, p
      ensures p.calls == old(p.calls) + DisconnectCalls(old(connected), serialfd, serialioOld)
      ensures !connected && serialfd == old(serialfd) && serialioOld == old(serialioOld)
      ensures p.atexit == old(p.atexit)
      ensures CleanupRegistered(p)
    {
      p.calls := p.calls + [TcSetAttr(serialfd, TcsaNow, serialioOld)];
      if connected {
        p.calls := p.calls + [Flock(serialfd, LockUnlock)];
        p.calls := p.calls + [Close(serialfd)];
        connected := false;
      }
    }
  }
}

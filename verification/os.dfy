/**
 * The operating system as the program sees it: the system calls it issues,
 * in order, and the handlers it registers with `atexit`. The outcome of each
 * call is not computed here; the operations that issue a call take its
 * outcome as a parameter.
 */
module Os {
  import opened Wrappers
  import opened Termios

  type Fd = int

  const STDIN_FILENO: Fd := 0
  const STDOUT_FILENO: Fd := 1

  /** `open` flags (Linux values). */
  const O_RDWR: bv32 := 0x2
  const O_NOCTTY: bv32 := 0x100     // 0o400
  const O_NONBLOCK: bv32 := 0x800   // 0o4000

  /** `LOCK_EX | LOCK_NB` and `LOCK_UN`. */
  datatype LockOp = LockExclusiveNonBlocking | LockUnlock

  /** When `tcsetattr` takes effect. */
  datatype SetWhen = TcsaNow | TcsaDrain | TcsaFlush

  /** Which queues `tcflush` discards. */
  datatype FlushQueue = TcIFlush | TcOFlush | TcIOFlush

  datatype SysCall =
    | Open(path: string, flags: bv32)
    | IsATty(fd: Fd)
    | TcGetAttr(fd: Fd)
    | Flock(fd: Fd, op: LockOp)
    | TcFlush(fd: Fd, queue: FlushQueue)
    | TcSetAttr(fd: Fd, when: SetWhen, attrs: Attrs)
    | Close(fd: Fd)

  /** The cleanup functions registered with `atexit`. */
  datatype ExitHandler = RestoreTerminal(fd: Fd) | DisconnectSerial

  class Process {
    /** Every system call issued so far, oldest first. */
    var calls: seq<SysCall>
    /** Every handler registered so far, in registration order. */
    var atexit: seq<ExitHandler>

    constructor ()
      ensures calls == [] && atexit == []
    {
      calls := [];
      atexit := [];
    }
  }

  /** True when `c` sets the attributes of `fd`. */
  predicate SetsAttrsOf(c: SysCall, fd: Fd)
  {
    c.TcSetAttr? && c.fd == fd
  }

  /** The attributes most recently requested for `fd`, if any were. */
  function LastApplied(calls: seq<SysCall>, fd: Fd): Option<Attrs>
  {
    if calls == [] then None
    else
      var last := calls[|calls| - 1];
      if SetsAttrsOf(last, fd) then Some(last.attrs) else LastApplied(calls[..|calls| - 1], fd)
  }

  /** One more call changes the attributes requested for `g` only when it sets them. */
  lemma {:induction false} LastAppliedAfter(calls: seq<SysCall>, c: SysCall, g: Fd)
    ensures LastApplied(calls + [c], g) == if SetsAttrsOf(c, g) then Some(c.attrs) else LastApplied(calls, g)
  {
    assert (calls + [c])[..|calls|] == calls;
  }

  /**
   * `LastApplied` is `None` exactly when no call sets the attributes of
   * `fd`, and otherwise the attributes of the latest call that does.
   */
  lemma {:induction false} LastAppliedIsLatest(calls: seq<SysCall>, fd: Fd)
    ensures LastApplied(calls, fd).None? <==> forall k :: 0 <= k < |calls| ==> !SetsAttrsOf(calls[k], fd)
    ensures LastApplied(calls, fd).Some? ==>
              exists k :: 0 <= k < |calls| && SetsAttrsOf(calls[k], fd) && calls[k].attrs == LastApplied(calls, fd).value
                          && forall m :: k < m < |calls| ==> !SetsAttrsOf(calls[m], fd)
  {
    if calls != [] {
      var n := |calls| - 1;
      var init := calls[..n];
      if !SetsAttrsOf(calls[n], fd) {
        LastAppliedIsLatest(init, fd);
        assert forall k :: 0 <= k < n ==> calls[k] == init[k];
        if LastApplied(calls, fd).Some? {
          var k :| 0 <= k < n && SetsAttrsOf(init[k], fd) && init[k].attrs == LastApplied(init, fd).value
                   && forall m :: k < m < n ==> !SetsAttrsOf(init[m], fd);
          assert forall m :: k < m < |calls| ==> !SetsAttrsOf(calls[m], fd);
        }
      }
    }
  }
}

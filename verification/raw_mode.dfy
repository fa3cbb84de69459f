/**
 * Raw mode for standard input and standard output (`stdin_configure`,
 * `stdin_restore`, `stdout_configure`, `stdout_restore`). The two pairs
 * differ only in the descriptor and in the globals they use, so one class
 * models both: an `Endpoint` for descriptor 0 and one for descriptor 1.
 * The library's `cfmakeraw` is passed in as an uninterpreted function.
 */
module RawMode {
  import opened Wrappers
  import opened Termios
  import opened Os

  datatype RawError = SaveFailed | ApplyFailed

  datatype RawResult = RawConfigured | RawFatal(error: RawError)

  /**
   * The raw record derived from the saved one: the library's raw transform,
   * then no inter-character timer and a one-character minimum read.
   */
  function RawAttrs(cfmakeraw: Attrs -> Attrs, saved: Attrs): (r: Attrs)
    ensures r.cc[VTIME] == 0 && r.cc[VMIN] == 1
    ensures r.(cc := cfmakeraw(saved).cc) == cfmakeraw(saved)
    ensures forall k :: 0 <= k < NCCS && k != VTIME && k != VMIN ==> r.cc[k] == cfmakeraw(saved).cc[k]
  {
    BlockingTiming(cfmakeraw(saved))
  }

  class Endpoint {
    const fd: Fd
    /** `stdin_old` / `stdout_old`: the attributes captured before the change. */
    var saved: Attrs
    /** `stdin_new` / `stdout_new`: the raw attributes applied. */
    var raw: Attrs

    constructor (fd: Fd)
      ensures this.fd == fd && saved == Zeroed && raw == Zeroed
    {
      this.fd := fd;
      saved := Zeroed;
      raw := Zeroed;
    }

    /**
     * Save the current attributes (`got` is what `tcgetattr` produced, None
     * when it failed), derive and apply the raw ones (`setStatus` is what
     * `tcsetattr` returned) and register the restore handler. A fatal result
     * stands for the process exiting with failure status.
     */
    method Configure(p: Process, cfmakeraw: Attrs -> Attrs, got: Option<Attrs>, setStatus: int) returns (r: RawResult)
      modifies this, p
      ensures got.None? ==> r == RawFatal(SaveFailed) && p.calls == old(p.calls) + [TcGetAttr(fd)]
      ensures got.None? ==> saved == old(saved) && raw == old(raw)
      ensures got.Some? ==> saved == got.value && raw == RawAttrs(cfmakeraw, got.value)
      ensures got.Some? ==> p.calls == old(p.calls) + [TcGetAttr(fd), TcSetAttr(fd, TcsaNow, raw)]
      ensures r == RawConfigured <==> got.Some? && setStatus != -1
      ensures got.Some? && setStatus == -1 ==> r == RawFatal(ApplyFailed)
      ensures p.atexit == old(p.atexit) + if r == RawConfigured then [RestoreTerminal(fd)] else []
      ensures got.None? ==> forall g :: LastApplied(p.calls, g) == LastApplied(old(p.calls), g)
      ensures got.Some? ==> LastApplied(p.calls, fd) == Some(raw)
      ensures forall g :: g != fd ==> LastApplied(p.calls, g) == LastApplied(old(p.calls), g)
    {
      ghost var before := p.calls;
      p.calls := p.calls + [TcGetAttr(fd)];
      forall g {
        LastAppliedAfter(before, TcGetAttr(fd), g);
      }
      if got.None? {
        return RawFatal(SaveFailed);
      }
      saved := got.value;
      raw := saved;
      raw := RawAttrs(cfmakeraw, raw);
      ghost var read := p.calls;
      p.calls := p.calls + [TcSetAttr(fd, TcsaNow, raw)];
      forall g {
        LastAppliedAfter(read, TcSetAttr(fd, TcsaNow, raw), g);
      }
      if setStatus == -1 {
        return RawFatal(ApplyFailed);
      }
      p.atexit := p.atexit + [RestoreTerminal(fd)];
      r := RawConfigured;
    }

    /** Re-apply the saved attributes; the outcome of `tcsetattr` is ignored. */
    method Restore(p: Process)
      modifies p
      ensures p.calls == old(p.calls) + [TcSetAttr(fd, TcsaNow, saved)]
      ensures LastApplied(p.calls, fd) == Some(saved)
      ensures forall g :: g != fd ==> LastApplied(p.calls, g) == LastApplied(old(p.calls), g)
      ensures p.atexit == old(p.atexit)
    {
      p.calls := p.calls + [TcSetAttr(fd, TcsaNow, saved)];
    }
  }

  /**
   * Restoring twice leaves every descriptor with the attributes one restore
   * left it with.
   */
  lemma {:induction false} RestoreIdempotent(calls: seq<SysCall>, fd: Fd, saved: Attrs, g: Fd)
    ensures LastApplied(calls + [TcSetAttr(fd, TcsaNow, saved), TcSetAttr(fd, TcsaNow, saved)], g)
         == LastApplied(calls + [TcSetAttr(fd, TcsaNow, saved)], g)
  {
    var once := calls + [TcSetAttr(fd, TcsaNow, saved)];
    assert (calls + [TcSetAttr(fd, TcsaNow, saved), TcSetAttr(fd, TcsaNow, saved)])[..|once|] == once;
  }

  /**
   * The restores of two different descriptors can run in either order: the
   * attributes left on every descriptor are the same.
   */
  lemma {:induction false} RestoresCommute(calls: seq<SysCall>, a: Fd, sa: Attrs, b: Fd, sb: Attrs, g: Fd)
    requires a != b
    ensures LastApplied(calls + [TcSetAttr(a, TcsaNow, sa), TcSetAttr(b, TcsaNow, sb)], g)
         == LastApplied(calls + [TcSetAttr(b, TcsaNow, sb), TcSetAttr(a, TcsaNow, sa)], g)
  {
    var ab := calls + [TcSetAttr(a, TcsaNow, sa), TcSetAttr(b, TcsaNow, sb)];
    var ba := calls + [TcSetAttr(b, TcsaNow, sb), TcSetAttr(a, TcsaNow, sa)];
    assert ab[..|ab| - 1][..|ab| - 2] == calls;
    assert ba[..|ba| - 1][..|ba| - 2] == calls;
  }

  /**
   * The program's start and end for the standard streams: `stdin_configure`,
   * then `stdout_configure` only when the first succeeded (a fatal result
   * ends the process), then the process exit, which runs the restore
   * handlers registered so far, last registered first. Neither restore
   * handler is registered beforehand, as at the start of the program.
   */
  method ConfigureBothThenExit(input: Endpoint, output: Endpoint, p: Process, cfmakeraw: Attrs -> Attrs,
                               gotIn: Option<Attrs>, inStatus: int, gotOut: Option<Attrs>, outStatus: int)
      returns (rIn: RawResult, rOut: Option<RawResult>)
    requires input != output && input.fd == STDIN_FILENO && output.fd == STDOUT_FILENO
    requires RestoreTerminal(STDIN_FILENO) !in p.atexit && RestoreTerminal(STDOUT_FILENO) !in p.atexit
    modifies input, output, p
    ensures rIn == RawConfigured <==> gotIn.Some? && inStatus != -1
    ensures rOut.Some? <==> rIn == RawConfigured
    ensures rOut == Some(RawConfigured) <==> rIn == RawConfigured && gotOut.Some? && outStatus != -1
    ensures RestoreTerminal(STDIN_FILENO) in p.atexit <==> rIn == RawConfigured
    ensures RestoreTerminal(STDOUT_FILENO) in p.atexit <==> rOut == Some(RawConfigured)
    ensures rIn != RawConfigured ==> p.atexit == old(p.atexit)
    ensures rIn == RawConfigured ==> LastApplied(p.calls, STDIN_FILENO) == gotIn
    ensures rOut == Some(RawConfigured) ==> LastApplied(p.calls, STDOUT_FILENO) == gotOut
    ensures rIn == RawFatal(SaveFailed) ==> p.calls == old(p.calls) + [TcGetAttr(STDIN_FILENO)]
    ensures rIn == RawFatal(ApplyFailed) ==> gotIn.Some? && LastApplied(p.calls, STDIN_FILENO) == Some(RawAttrs(cfmakeraw, gotIn.value))
    ensures rOut == Some(RawFatal(ApplyFailed)) ==> gotOut.Some? && LastApplied(p.calls, STDOUT_FILENO) == Some(RawAttrs(cfmakeraw, gotOut.value))
    ensures rOut.None? || rOut == Some(RawFatal(SaveFailed)) ==>
              LastApplied(p.calls, STDOUT_FILENO) == LastApplied(old(p.calls), STDOUT_FILENO)
  {
    rIn := input.Configure(p, cfmakeraw, gotIn, inStatus);
    if rIn != RawConfigured {
      rOut := None;
      return;
    }
    var r := output.Configure(p, cfmakeraw, gotOut, outStatus);
    rOut := Some(r);
    if r == RawConfigured {
      output.Restore(p);
    }
    input.Restore(p);
  }
}

/**
 * The terminal attribute record (`struct termios`) with the Linux layout and
 * the Linux values of the constants the program uses.
 */
module Termios {

  /** `unsigned int`, the type of the requested baud rate. */
  newtype uint32 = x: int | 0 <= x < 0x1_0000_0000

  /** `tcflag_t`, `speed_t` and `cc_t`. */
  type TcFlag = bv32
  type Speed = bv32
  type CcT = bv8

  /** Number of control characters, and the two slots the program sets. */
  const NCCS: nat := 32
  const VTIME: nat := 5
  const VMIN: nat := 6

  /** Control-mode bits set on the serial line. */
  const CS8: TcFlag := 0x30      // 0o60
  const CREAD: TcFlag := 0x80    // 0o200
  const CLOCAL: TcFlag := 0x800  // 0o4000

  /** Speed constants of the four supported rates. */
  const B2400: Speed := 11   // 0o13
  const B4800: Speed := 12   // 0o14
  const B9600: Speed := 13   // 0o15
  const B19200: Speed := 14  // 0o16

  const ZeroChars: seq<CcT> := [0, 0, 0, 0, 0, 0, 0, 0, 0, 0, 0, 0, 0, 0, 0, 0, 0, 0, 0, 0, 0, 0, 0, 0, 0, 0, 0, 0, 0, 0, 0, 0]

  type ControlChars = s: seq<CcT> | |s| == NCCS witness ZeroChars

  datatype Attrs = Attrs(
    iflag: TcFlag,
    oflag: TcFlag,
    cflag: TcFlag,
    lflag: TcFlag,
    line: CcT,
    cc: ControlChars,
    ispeed: Speed,
    ospeed: Speed)

  /** The record after `memset(&t, 0, sizeof t)` (and the value of a static record). */
  const Zeroed: Attrs := Attrs(0, 0, 0, 0, 0, ZeroChars, 0, 0)

  predicate HasFlags(flags: TcFlag, mask: TcFlag)
  {
    flags & mask == mask
  }

  /**
   * Forces the character-timing controls every configured endpoint uses:
   * no inter-character timer, a read blocks until one character arrived.
   */
  function BlockingTiming(a: Attrs): (r: Attrs)
    ensures r.cc[VTIME] == 0 && r.cc[VMIN] == 1
    ensures forall k :: 0 <= k < NCCS && k != VTIME && k != VMIN ==> r.cc[k] == a.cc[k]
    ensures r.(cc := a.cc) == a
  {
    Attrs(a.iflag, a.oflag, a.cflag, a.lflag, a.line, a.cc[VTIME := 0][VMIN := 1], a.ispeed, a.ospeed)
  }
}

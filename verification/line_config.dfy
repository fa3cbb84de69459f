/**
 * Derivation of the serial line settings from the requested baud rate
 * (`serial_configure`): a whitelist of four rates, then a fixed raw record.
 */
module LineConfig {
  import opened Wrappers
  import opened Termios

  /** Why the configuration step ends the process. */
  datatype ConfigError =
    | InvalidBaudrate(rate: uint32)
    | InputSpeedFailed
    | OutputSpeedFailed

  /** The rates the program accepts. */
  predicate Supported(baudrate: uint32)
  {
    baudrate in {2400, 4800, 9600, 19200}
  }

  /** Reference table: the baud rate each supported speed constant names. */
  function RateOf(speed: Speed): Option<uint32>
  {
    if speed == B2400 then Some(2400)
    else if speed == B4800 then Some(4800)
    else if speed == B9600 then Some(9600)
    else if speed == B19200 then Some(19200)
    else None
  }

  /** The `switch` on the requested rate. */
  function SpeedFor(baudrate: uint32): (r: Option<Speed>)
    ensures r.Some? <==> Supported(baudrate)
    ensures r.Some? ==> RateOf(r.value) == Some(baudrate)
  {
    if baudrate == 2400 then Some(B2400)
    else if baudrate == 4800 then Some(B4800)
    else if baudrate == 9600 then Some(B9600)
    else if baudrate == 19200 then Some(B19200)
    else None
  }

  /**
   * `serial_configure`. The statuses returned by `cfsetispeed` and
   * `cfsetospeed` are supplied; -1 means the call failed.
   */
  function SerialConfigure(baudrate: uint32, ispeedStatus: int, ospeedStatus: int): (r: Result<Attrs, ConfigError>)
    ensures r == Failure(InvalidBaudrate(baudrate)) <==> !Supported(baudrate)
    ensures r.Success? <==> Supported(baudrate) && ispeedStatus != -1 && ospeedStatus != -1
    ensures Supported(baudrate) && ispeedStatus == -1 ==> r == Failure(InputSpeedFailed)
    ensures Supported(baudrate) && ispeedStatus != -1 && ospeedStatus == -1 ==> r == Failure(OutputSpeedFailed)
    ensures r.Success? ==> IsLineSetting(r.value, baudrate)
  {
    match SpeedFor(baudrate)
    case None => Failure(InvalidBaudrate(baudrate))
    case Some(speed) =>
      if ispeedStatus == -1 then Failure(InputSpeedFailed)
      else if ospeedStatus == -1 then Failure(OutputSpeedFailed)
      else
        Success(BlockingTiming(Zeroed.(ispeed := speed, ospeed := speed, cflag := Zeroed.cflag | CLOCAL | CREAD | CS8, oflag := 0, lflag := 0)))
  }

  /**
   * What the serial line is configured with for `baudrate`: both speeds name
   * that rate, modem lines ignored, receiver on, 8 data bits and nothing else
   * in the control modes, no input, output or local processing, the line
   * discipline and every control character left zero except the timing pair.
   */
  ghost predicate IsLineSetting(a: Attrs, baudrate: uint32)
  {
    && a.ispeed == a.ospeed
    && RateOf(a.ispeed) == Some(baudrate)
    && HasFlags(a.cflag, CLOCAL) && HasFlags(a.cflag, CREAD) && HasFlags(a.cflag, CS8)
    && a.cflag == CLOCAL | CREAD | CS8
    && a.iflag == 0 && a.oflag == 0 && a.lflag == 0 && a.line == 0
    && a.cc[VTIME] == 0 && a.cc[VMIN] == 1
    && (forall k :: 0 <= k < NCCS && k != VTIME && k != VMIN ==> a.cc[k] == 0)
  }

  /** Every supported rate maps to a distinct speed constant. */
  lemma {:induction false} SpeedForInjective(x: uint32, y: uint32)
    requires Supported(x) && Supported(y) && SpeedFor(x) == SpeedFor(y)
    ensures x == y
  {
    assert RateOf(SpeedFor(x).value) == Some(x);
    assert RateOf(SpeedFor(y).value) == Some(y);
  }
}

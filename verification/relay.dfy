/**
 * The relay loop shared by `serial_input_thread` (serial device to standard
 * output) and `stdin_input_loop` (standard input to serial device): gather
 * bytes one read at a time into a fixed buffer until it is full or a poll
 * times out, then flush the buffer with a write loop, forever.
 *
 * The environment is scripted: `events` gives, in order, the outcome of
 * every poll together with the outcome of the read that follows a ready
 * poll; `writes` gives the outcome of every write. The C loop never returns
 * on its own, so the model also stops when a script runs out.
 */
module Relay {
  import opened Wrappers

  /** Capacity of the batch buffer (glibc's `BUFSIZ`). */
  const BUFSIZ: nat := 8192

  /** `errno` of an interrupted call (Linux). */
  const EINTR: int := 4

  const EXIT_FAILURE: int := 1

  type Byte = bv8

  /** Outcome of `read(fd, &buffer[byte_count], 1)`. */
  datatype ReadResult = ReadByte(b: Byte) | ReadEof | ReadError(errno: int)

  /** Outcome of one `poll` (negative, zero, positive), and of the read a ready poll leads to. */
  datatype PollEvent = PollError | PollTimeout | PollReady(read: ReadResult)

  /**
   * Outcome of one `write`: either the destination takes up to `room` bytes
   * of those offered (the call returns `min(room, count)`, never more than
   * asked) or the call fails.
   */
  datatype WriteResult = WriteAccepts(room: nat) | WriteError(errno: int)

  datatype Direction = SerialToStdout | StdinToSerial

  /** Why a loop ends. */
  datatype Cause = PollFailed | EndOfInput | ReadFailed(errno: int)

  /** How it ends: the serial reader ends its thread, the stdin reader the process. */
  datatype Exit = ThreadExit | ProcessExit(status: int)

  function ExitFor(dir: Direction): Exit
  {
    match dir
    case SerialToStdout => ThreadExit
    case StdinToSerial => ProcessExit(EXIT_FAILURE)
  }

  /** The events after which accumulation goes on: a byte read, or a read interrupted by a signal. */
  predicate Continues(e: PollEvent)
  {
    e.PollReady? && (e.read.ReadByte? || e.read == ReadError(EINTR))
  }

  /** The events that end the loop, and why. */
  function FatalCause(e: PollEvent): Option<Cause>
  {
    match e
    case PollError => Some(PollFailed)
    case PollTimeout => None
    case PollReady(ReadByte(_)) => None
    case PollReady(ReadEof) => Some(EndOfInput)
    case PollReady(ReadError(errno)) => if errno == EINTR then None else Some(ReadFailed(errno))
  }

  /** The byte one event delivers, if any. */
  function Delivered(e: PollEvent): seq<Byte>
  {
    if e.PollReady? && e.read.ReadByte? then [e.read.b] else []
  }

  /** The bytes the source delivers, in arrival order. */
  function Stream(events: seq<PollEvent>): seq<Byte>
  {
    if events == [] then [] else Delivered(events[0]) + Stream(events[1..])
  }

  /** The concatenation of the chunks the destination took. */
  function Flatten(chunks: seq<seq<Byte>>): seq<Byte>
  {
    if chunks == [] then [] else Flatten(chunks[..|chunks| - 1]) + chunks[|chunks| - 1]
  }

  // ---------------------------------------------------------------------
  // Accumulation

  datatype FillStop = BufferFull | TimedOut | Fatal(cause: Cause) | EventsExhausted

  datatype Filled = Filled(next: nat, batch: seq<Byte>, stop: FillStop)

  /**
   * The inner read loop, from event `i` with `batch` already gathered: the
   * buffer check comes before every poll, a timeout stops it, a byte is
   * appended, an interrupted read is retried, anything else is fatal.
   */
  function Fill(events: seq<PollEvent>, i: nat, batch: seq<Byte>): (r: Filled)
    requires i <= |events| && |batch| <= BUFSIZ
    ensures i <= r.next <= |events|
    ensures |batch| <= |r.batch| <= BUFSIZ
    ensures |r.batch| - |batch| <= r.next - i
    ensures r.stop == BufferFull <==> |r.batch| == BUFSIZ
    ensures r.stop == EventsExhausted ==> r.next == |events|
    ensures r.stop == TimedOut || r.stop.Fatal? ==> i < r.next
    decreases |events| - i
  {
    if |batch| >= BUFSIZ then Filled(i, batch, BufferFull)
    else if i == |events| then Filled(i, batch, EventsExhausted)
    else
      match events[i]
      case PollError => Filled(i + 1, batch, Fatal(PollFailed))
      case PollTimeout => Filled(i + 1, batch, TimedOut)
      case PollReady(ReadByte(b)) => Fill(events, i + 1, batch + [b])
      case PollReady(ReadEof) => Filled(i + 1, batch, Fatal(EndOfInput))
      case PollReady(ReadError(errno)) =>
        if errno == EINTR then Fill(events, i + 1, batch) else Filled(i + 1, batch, Fatal(ReadFailed(errno)))
  }

  /**
   * Where accumulation stopped: every consumed event but the last let it go
   * on, and the last is the timeout or the fatal event that stopped it.
   */
  lemma {:induction false} FillStopsAt(events: seq<PollEvent>, i: nat, batch: seq<Byte>)
    requires i <= |events| && |batch| <= BUFSIZ
    ensures var r := Fill(events, i, batch);
            && (r.stop == TimedOut ==> events[r.next - 1] == PollTimeout)
            && (r.stop.Fatal? ==> FatalCause(events[r.next - 1]) == Some(r.stop.cause))
            && (forall k :: i <= k < r.next - 1 ==> Continues(events[k]))
            && ((r.stop == BufferFull || r.stop == EventsExhausted) && i < r.next ==> Continues(events[r.next - 1]))
    decreases |events| - i
  {
    if |batch| < BUFSIZ && i < |events| {
      match events[i]
      case PollReady(ReadByte(b)) =>
        FillStopsAt(events, i + 1, batch + [b]);
      case PollReady(ReadError(errno)) =>
        if errno == EINTR {
          FillStopsAt(events, i + 1, batch);
        }
      case _ =>
    }
  }

  lemma {:induction false} StreamAppend(a: seq<PollEvent>, b: seq<PollEvent>)
    ensures Stream(a + b) == Stream(a) + Stream(b)
  {
    if a == [] {
      assert a + b == b;
    } else {
      assert (a + b)[1..] == a[1..] + b;
      StreamAppend(a[1..], b);
    }
  }

  /** The batch is the bytes the consumed events delivered, in the order they arrived. */
  lemma {:induction false} FillReadsInOrder(events: seq<PollEvent>, i: nat, batch: seq<Byte>)
    requires i <= |events| && |batch| <= BUFSIZ
    ensures Fill(events, i, batch).batch == batch + Stream(events[i..Fill(events, i, batch).next])
    decreases |events| - i
  {
    var r := Fill(events, i, batch);
    if r.next == i {
      assert events[i..i] == [];
    } else {
      var rest := Stream(events[i + 1..r.next]);
      assert Stream(events[i..r.next]) == Delivered(events[i]) + rest by {
        assert events[i..r.next][1..] == events[i + 1..r.next];
      }
      assert r.batch == batch + (Delivered(events[i]) + rest) by {
        match events[i]
        case PollReady(ReadByte(b)) =>
          FillReadsInOrder(events, i + 1, batch + [b]);
          Reassociate(batch, [b], rest);
        case PollReady(ReadError(errno)) =>
          if errno == EINTR {
            FillReadsInOrder(events, i + 1, batch);
            Reassociate(batch, [], rest);
          } else {
            assert events[i + 1..r.next] == [];
            Reassociate(batch, [], []);
          }
        case _ =>
          assert events[i + 1..r.next] == [];
          Reassociate(batch, [], []);
      }
    }
  }

  /**
   * Bytes followed by a timeout, fewer than fill the buffer: the batch ends
   * at the timeout and holds exactly those bytes.
   */
  lemma {:induction false} FillUntilTimeout(events: seq<PollEvent>, i: nat, t: nat, batch: seq<Byte>)
    requires i <= t < |events| && |batch| + (t - i) < BUFSIZ
    requires forall m :: i <= m < t ==> events[m].PollReady? && events[m].read.ReadByte?
    requires events[t] == PollTimeout
    ensures Fill(events, i, batch) == Filled(t + 1, batch + Stream(events[i..t]), TimedOut)
    decreases t - i
  {
    var r := Fill(events, i, batch);
    if i == t {
      assert events[i..t] == [];
      assert batch + [] == batch;
    } else {
      var b := events[i].read.b;
      var rest := Stream(events[i + 1..t]);
      assert r == Filled(t + 1, batch + ([b] + rest), TimedOut) by {
        FillUntilTimeout(events, i + 1, t, batch + [b]);
        Reassociate(batch, [b], rest);
      }
      assert Stream(events[i..t]) == [b] + rest by {
        assert events[i..t][1..] == events[i + 1..t];
      }
    }
  }

  // ---------------------------------------------------------------------
  // Flushing

  datatype DrainStop = Flushed | Abandoned | WritesExhausted

  datatype Drained = Drained(next: nat, sent: seq<seq<Byte>>, stop: DrainStop)

  /** No write returns 0: without this the flush loop can spin forever. */
  predicate NeverWritesZero(writes: seq<WriteResult>)
  {
    forall k :: 0 <= k < |writes| ==> writes[k].WriteAccepts? ==> writes[k].room > 0
  }

  /** What `write` returns when `count` bytes are offered to a destination with `room`. */
  function Accepted(room: nat, count: nat): (n: nat)
    ensures n <= count && n <= room
    ensures n == count || n == room
  {
    if room < count then room else count
  }

  /**
   * The write loop, with `count` bytes of `batch` still to flush and
   * `sent` the chunks taken so far. Every write offers the buffer from
   * index 0, so every chunk is a prefix of the batch. A failed write
   * abandons the rest of the batch.
   */
  function Drain(writes: seq<WriteResult>, j: nat, batch: seq<Byte>, count: nat, sent: seq<seq<Byte>>): (r: Drained)
    requires j <= |writes| && count <= |batch| && NeverWritesZero(writes)
    ensures j <= r.next <= |writes|
    ensures |sent| <= |r.sent|
    ensures r.next - j == |r.sent| - |sent| + (if r.stop == Abandoned then 1 else 0)
    ensures r.stop == WritesExhausted ==> r.next == |writes| && count > 0
    ensures r.stop == Abandoned ==> writes[r.next - 1].WriteError?
    ensures count == 0 ==> r.next == j && r.sent == sent && r.stop == Flushed
    decreases count
  {
    if count == 0 then Drained(j, sent, Flushed)
    else if j == |writes| then Drained(j, sent, WritesExhausted)
    else
      match writes[j]
      case WriteError(_) => Drained(j + 1, sent, Abandoned)
      case WriteAccepts(room) =>
        var written := Accepted(room, count);
        Drain(writes, j + 1, batch, count - written, sent + [batch[..written]])
  }

  /**
   * Every write offers the buffer from index 0: the flush keeps the chunks
   * taken before it, and each chunk it adds is a non-empty prefix of the
   * batch, no longer than what remained to be written.
   */
  lemma {:induction false} DrainChunksArePrefixes(writes: seq<WriteResult>, j: nat, batch: seq<Byte>, count: nat, sent: seq<seq<Byte>>)
    requires j <= |writes| && count <= |batch| && NeverWritesZero(writes)
    ensures forall k :: 0 <= k < |sent| ==> Drain(writes, j, batch, count, sent).sent[k] == sent[k]
    ensures forall k :: |sent| <= k < |Drain(writes, j, batch, count, sent).sent| ==>
              var chunk := Drain(writes, j, batch, count, sent).sent[k];
              0 < |chunk| <= count && chunk == batch[..|chunk|]
    decreases count
  {
    if count > 0 && j < |writes| && writes[j].WriteAccepts? {
      var written := Accepted(writes[j].room, count);
      var more := sent + [batch[..written]];
      var r := Drain(writes, j + 1, batch, count - written, more);
      assert Drain(writes, j, batch, count, sent) == r;
      DrainChunksArePrefixes(writes, j + 1, batch, count - written, more);
      assert r.sent[|sent|] == batch[..written] by {
        assert more[|sent|] == batch[..written];
      }
    }
  }

  /** A completed flush hands the destination exactly `count` bytes in all. */
  lemma {:induction false} DrainSendsCount(writes: seq<WriteResult>, j: nat, batch: seq<Byte>, count: nat, sent: seq<seq<Byte>>)
    requires j <= |writes| && count <= |batch| && NeverWritesZero(writes)
    requires Drain(writes, j, batch, count, sent).stop == Flushed
    ensures |Flatten(Drain(writes, j, batch, count, sent).sent)| == |Flatten(sent)| + count
    decreases count
  {
    if count > 0 {
      assert j < |writes| && writes[j].WriteAccepts?;
      var written := Accepted(writes[j].room, count);
      var chunk := batch[..written];
      var r := Drain(writes, j + 1, batch, count - written, sent + [chunk]);
      assert Drain(writes, j, batch, count, sent) == r;
      assert |Flatten(r.sent)| == |Flatten(sent + [chunk])| + (count - written) by {
        DrainSendsCount(writes, j + 1, batch, count - written, sent + [chunk]);
      }
      assert |Flatten(sent + [chunk])| == |Flatten(sent)| + written by {
        FlattenSnoc(sent, chunk);
      }
    }
  }

  /** When the first write takes everything, the destination gets the batch as one chunk. */
  lemma {:induction false} CompleteFirstWrite(writes: seq<WriteResult>, j: nat, batch: seq<Byte>, sent: seq<seq<Byte>>)
    requires j < |writes| && NeverWritesZero(writes) && |batch| > 0
    requires writes[j].WriteAccepts? && writes[j].room >= |batch|
    ensures Drain(writes, j, batch, |batch|, sent) == Drained(j + 1, sent + [batch], Flushed)
  {
    assert batch[..|batch|] == batch;
  }

  lemma {:induction false} FlattenAppend(chunks: seq<seq<Byte>>, more: seq<seq<Byte>>)
    ensures Flatten(chunks + more) == Flatten(chunks) + Flatten(more)
    decreases |more|
  {
    if more == [] {
      assert chunks + more == chunks;
    } else {
      var init := more[..|more| - 1];
      assert (chunks + more)[..|chunks + more| - 1] == chunks + init;
      FlattenAppend(chunks, init);
      Reassociate(Flatten(chunks), Flatten(init), more[|more| - 1]);
    }
  }

  /**
   * After a partial first write of `room` bytes, the next write offers the
   * buffer from index 0 again: the byte the destination gets in position
   * `room` of the batch is the batch's first byte, not `batch[room]`.
   */
  lemma {:induction false} PartialWriteResendsHead(writes: seq<WriteResult>, j: nat, batch: seq<Byte>, sent: seq<seq<Byte>>)
    requires j + 1 < |writes| && NeverWritesZero(writes)
    requires writes[j].WriteAccepts? && writes[j].room < |batch|
    requires writes[j + 1].WriteAccepts?
    ensures var r := Drain(writes, j, batch, |batch|, sent);
            |r.sent| >= |sent| + 2 && r.sent[|sent|] == batch[..writes[j].room]
            && r.sent[|sent| + 1] != [] && r.sent[|sent| + 1][0] == batch[0]
            && |Flatten(r.sent)| > |Flatten(sent)| + writes[j].room
            && Flatten(r.sent)[|Flatten(sent)| + writes[j].room] == batch[0]
  {
    var room := writes[j].room;
    var first := batch[..room];
    var rest := |batch| - room;
    var second := batch[..Accepted(writes[j + 1].room, rest)];
    var prefix := sent + [first] + [second];
    var r := Drain(writes, j, batch, |batch|, sent);
    assert |prefix| <= |r.sent| && r.sent[..|prefix|] == prefix by {
      assert r == Drain(writes, j + 1, batch, rest, sent + [first]);
      assert r == Drain(writes, j + 2, batch, rest - |second|, prefix);
      DrainChunksArePrefixes(writes, j + 2, batch, rest - |second|, prefix);
    }
    assert r.sent[|sent|] == first && r.sent[|sent| + 1] == second by {
      assert prefix[|sent|] == first && prefix[|sent| + 1] == second;
    }
    assert second != [] && second[0] == batch[0] by {
      assert writes[j + 1].room > 0;
    }
    assert Flatten(prefix) == Flatten(sent) + first + second by {
      FlattenSnoc(sent, first);
      FlattenSnoc(sent + [first], second);
    }
    assert Flatten(r.sent) == Flatten(prefix) + Flatten(r.sent[|prefix|..]) by {
      assert r.sent == prefix + r.sent[|prefix|..];
      FlattenAppend(prefix, r.sent[|prefix|..]);
    }
  }

  /** The smallest instance: two bytes, two writes of one byte each; the second byte is never sent. */
  lemma {:induction false} PartialWriteLosesTail(a: Byte, b: Byte)
    ensures Drain([WriteAccepts(1), WriteAccepts(1)], 0, [a, b], 2, []) == Drained(2, [[a], [a]], Flushed)
    ensures a != b ==> Flatten(Drain([WriteAccepts(1), WriteAccepts(1)], 0, [a, b], 2, []).sent) != [a, b]
  {
    assert [a, b][..1] == [a];
    assert Flatten([[a], [a]]) == [a, a] by {
      assert [[a], [a]][..1] == [[a]];
      assert [[a]][..0] == [];
      assert Flatten([[a]]) == Flatten([]) + [a];
    }
  }

  // ---------------------------------------------------------------------
  // The whole loop

  datatype RelayEnd = Terminated(exit: Exit, cause: Cause) | ScriptEnded

  /**
   * `sent`: the chunks the destination took, one per successful write;
   * `flushedUpTo`: the events whose batches were handed to the write loop
   * end here (the final batch, if any, is never written).
   */
  datatype Relayed = Relayed(sent: seq<seq<Byte>>, end: RelayEnd, flushedUpTo: nat)

  /** The outer loop from event `i` and write `j`, batch after batch. */
  function Run(dir: Direction, events: seq<PollEvent>, writes: seq<WriteResult>, i: nat, j: nat, sent: seq<seq<Byte>>): (r: Relayed)
    requires i <= |events| && j <= |writes| && NeverWritesZero(writes)
    ensures i <= r.flushedUpTo <= |events|
    ensures r.end.Terminated? ==> r.end.exit == ExitFor(dir)
    decreases |events| - i
  {
    var f := Fill(events, i, []);
    match f.stop
    case Fatal(cause) => Relayed(sent, Terminated(ExitFor(dir), cause), i)
    case EventsExhausted => Relayed(sent, ScriptEnded, i)
    case _ =>
      var d := Drain(writes, j, f.batch, |f.batch|, sent);
      if d.stop == WritesExhausted then Relayed(d.sent, ScriptEnded, i)
      else Run(dir, events, writes, f.next, d.next, d.sent)
  }

  /**
   * The loop only ever adds chunks to what the destination already took,
   * each of at least one byte and at most a buffer's worth.
   */
  lemma {:induction false} RunOnlyAppends(dir: Direction, events: seq<PollEvent>, writes: seq<WriteResult>, i: nat, j: nat, sent: seq<seq<Byte>>)
    requires i <= |events| && j <= |writes| && NeverWritesZero(writes)
    ensures |sent| <= |Run(dir, events, writes, i, j, sent).sent|
    ensures forall k :: 0 <= k < |sent| ==> Run(dir, events, writes, i, j, sent).sent[k] == sent[k]
    ensures forall k :: |sent| <= k < |Run(dir, events, writes, i, j, sent).sent| ==>
              0 < |Run(dir, events, writes, i, j, sent).sent[k]| <= BUFSIZ
    decreases |events| - i
  {
    var f := Fill(events, i, []);
    if f.stop == BufferFull || f.stop == TimedOut {
      var d := Drain(writes, j, f.batch, |f.batch|, sent);
      DrainChunksArePrefixes(writes, j, f.batch, |f.batch|, sent);
      assert |f.batch| <= BUFSIZ;
      if d.stop == WritesExhausted {
        assert Run(dir, events, writes, i, j, sent).sent == d.sent;
      } else {
        var r := Run(dir, events, writes, i, j, sent);
        assert r == Run(dir, events, writes, f.next, d.next, d.sent) by {
          RunStep(dir, events, writes, i, j, sent);
        }
        RunOnlyAppends(dir, events, writes, f.next, d.next, d.sent);
        forall k | 0 <= k < |sent|
          ensures r.sent[k] == sent[k]
        {
          assert r.sent[k] == d.sent[k];
        }
        forall k | |sent| <= k < |r.sent|
          ensures 0 < |r.sent[k]| <= BUFSIZ
        {
          if k < |d.sent| {
            assert r.sent[k] == d.sent[k];
          }
        }
      }
    }
  }

  /** Every write takes all it is offered. */
  predicate WritesComplete(writes: seq<WriteResult>)
  {
    forall k :: 0 <= k < |writes| ==> writes[k].WriteAccepts? && writes[k].room >= BUFSIZ
  }

  /**
   * When every write is complete, the destination receives exactly the
   * source's bytes, in order, however they were split into batches, up to
   * the batch in which the loop ended.
   */
  lemma {:induction false} RelayDeliversInOrder(dir: Direction, events: seq<PollEvent>, writes: seq<WriteResult>, i: nat, j: nat, sent: seq<seq<Byte>>)
    requires i <= |events| && j <= |writes| && WritesComplete(writes)
    ensures NeverWritesZero(writes)
    ensures Flatten(Run(dir, events, writes, i, j, sent).sent) == Flatten(sent) + Stream(events[i..Run(dir, events, writes, i, j, sent).flushedUpTo])
    decreases |events| - i
  {
    var f := Fill(events, i, []);
    var r := Run(dir, events, writes, i, j, sent);
    if f.stop.Fatal? || f.stop == EventsExhausted || (f.batch != [] && j == |writes|) {
      RunStopsBeforeBatch(dir, events, writes, i, j, sent);
      assert events[i..i] == [];
    } else {
      var j', sent' := CompleteBatchStep(dir, events, writes, i, j, sent);
      var r' := Run(dir, events, writes, f.next, j', sent');
      RelayDeliversInOrder(dir, events, writes, f.next, j', sent');
      StreamSplit(events, i, f.next, r'.flushedUpTo);
      Regroup(Flatten(r'.sent), Flatten(sent'), Flatten(sent), Stream(events[i..f.next]),
              Stream(events[f.next..r'.flushedUpTo]), Stream(events[i..r'.flushedUpTo]));
      assert r == r';
    }
  }

  /**
   * Concatenation regrouped. This and `Regroup` model nothing in the
   * source: they exist only to keep the cost of the proofs that call them
   * down, which otherwise rediscover associativity at great expense.
   */
  lemma Reassociate(a: seq<Byte>, b: seq<Byte>, c: seq<Byte>)
    ensures (a + b) + c == a + (b + c)
    ensures [] + a == a && a + [] == a
  {
  }

  /** Two deliveries in a row, regrouped as one. */
  lemma Regroup(out: seq<Byte>, mid: seq<Byte>, start: seq<Byte>, head: seq<Byte>, tail: seq<Byte>, whole: seq<Byte>)
    requires out == mid + tail && mid == start + head && whole == head + tail
    ensures out == start + whole
  {
  }

  /** A loop that stops before flushing its first batch sends nothing more. */
  lemma {:induction false} RunStopsBeforeBatch(dir: Direction, events: seq<PollEvent>, writes: seq<WriteResult>, i: nat, j: nat, sent: seq<seq<Byte>>)
    requires i <= |events| && j <= |writes| && WritesComplete(writes)
    requires var f := Fill(events, i, []); f.stop.Fatal? || f.stop == EventsExhausted || (f.batch != [] && j == |writes|)
    ensures NeverWritesZero(writes)
    ensures Run(dir, events, writes, i, j, sent).sent == sent && Run(dir, events, writes, i, j, sent).flushedUpTo == i
  {
  }

  /**
   * One batch of the loop when every write is complete: the batch goes out
   * in one chunk (or not at all when empty) and the loop resumes after it.
   */
  lemma {:induction false} CompleteBatchStep(dir: Direction, events: seq<PollEvent>, writes: seq<WriteResult>, i: nat, j: nat, sent: seq<seq<Byte>>)
      returns (j': nat, sent': seq<seq<Byte>>)
    requires i <= |events| && j <= |writes| && WritesComplete(writes)
    requires var f := Fill(events, i, []); (f.stop == BufferFull || f.stop == TimedOut) && (f.batch == [] || j < |writes|)
    ensures NeverWritesZero(writes) && i < Fill(events, i, []).next && j' <= |writes|
    ensures Flatten(sent') == Flatten(sent) + Stream(events[i..Fill(events, i, []).next])
    ensures Run(dir, events, writes, i, j, sent) == Run(dir, events, writes, Fill(events, i, []).next, j', sent')
  {
    var f := Fill(events, i, []);
    var d := Drain(writes, j, f.batch, |f.batch|, sent);
    assert f.batch == Stream(events[i..f.next]) by {
      FillReadsInOrder(events, i, []);
      Reassociate(Stream(events[i..f.next]), [], []);
    }
    if f.batch == [] {
      assert d == Drained(j, sent, Flushed);
      assert Flatten(sent) + f.batch == Flatten(sent);
    } else {
      CompleteFirstWrite(writes, j, f.batch, sent);
      FlattenSnoc(sent, f.batch);
    }
    j', sent' := d.next, d.sent;
    RunStep(dir, events, writes, i, j, sent);
  }

  lemma {:induction false} FlattenSnoc(chunks: seq<seq<Byte>>, chunk: seq<Byte>)
    ensures Flatten(chunks + [chunk]) == Flatten(chunks) + chunk
  {
    assert (chunks + [chunk])[..|chunks|] == chunks;
  }

  /** One turn of the outer loop: a batch that was gathered, then flushed or abandoned. */
  lemma {:induction false} RunStep(dir: Direction, events: seq<PollEvent>, writes: seq<WriteResult>, i: nat, j: nat, sent: seq<seq<Byte>>)
    requires i <= |events| && j <= |writes| && NeverWritesZero(writes)
    requires var f := Fill(events, i, []); f.stop == BufferFull || f.stop == TimedOut
    requires var f := Fill(events, i, []); Drain(writes, j, f.batch, |f.batch|, sent).stop != WritesExhausted
    ensures var f := Fill(events, i, []);
            var d := Drain(writes, j, f.batch, |f.batch|, sent);
            Run(dir, events, writes, i, j, sent) == Run(dir, events, writes, f.next, d.next, d.sent)
  {
  }

  lemma {:induction false} StreamSplit(events: seq<PollEvent>, i: nat, n: nat, m: nat)
    requires i <= n <= m <= |events|
    ensures Stream(events[i..m]) == Stream(events[i..n]) + Stream(events[n..m])
  {
    assert events[i..m] == events[i..n] + events[n..m];
    StreamAppend(events[i..n], events[n..m]);
  }

  /**
   * The loop ends only at a fatal event of the final batch, the first event
   * since the last flush that does not let accumulation go on; a failed
   * write or an interrupted read never ends it.
   */
  lemma {:induction false} RelayEndsOnlyAtFatalEvent(dir: Direction, events: seq<PollEvent>, writes: seq<WriteResult>, i: nat, j: nat, sent: seq<seq<Byte>>)
    requires i <= |events| && j <= |writes| && NeverWritesZero(writes)
    ensures var r := Run(dir, events, writes, i, j, sent);
            r.end.Terminated? ==>
              exists k :: r.flushedUpTo <= k < |events| && FatalCause(events[k]) == Some(r.end.cause)
                          && forall m :: r.flushedUpTo <= m < k ==> Continues(events[m])
    decreases |events| - i
  {
    var r := Run(dir, events, writes, i, j, sent);
    var f := Fill(events, i, []);
    FillStopsAt(events, i, []);
    if f.stop.Fatal? {
      var k := f.next - 1;
      assert FatalCause(events[k]) == Some(r.end.cause);
    } else if f.stop != EventsExhausted {
      var d := Drain(writes, j, f.batch, |f.batch|, sent);
      if d.stop != WritesExhausted {
        RelayEndsOnlyAtFatalEvent(dir, events, writes, f.next, d.next, d.sent);
      }
    }
  }

  /**
   * A partial batch followed by a poll timeout is flushed at that timeout,
   * in a single write when the destination takes it all.
   */
  lemma {:induction false} TimeoutFlushesPartialBatch(dir: Direction, events: seq<PollEvent>, writes: seq<WriteResult>, i: nat, t: nat, j: nat, sent: seq<seq<Byte>>)
    requires i < t < |events| && t - i < BUFSIZ && j < |writes| && NeverWritesZero(writes)
    requires forall m :: i <= m < t ==> events[m].PollReady? && events[m].read.ReadByte?
    requires events[t] == PollTimeout
    requires writes[j].WriteAccepts? && writes[j].room >= t - i
    ensures var r := Run(dir, events, writes, i, j, sent);
            |r.sent| > |sent| && r.sent[|sent|] == Stream(events[i..t]) && r.flushedUpTo > t
  {
    var batch := Stream(events[i..t]);
    var r := Run(dir, events, writes, i, j, sent);
    assert |r.sent| > |sent| && r.sent[|sent|] == batch && r.flushedUpTo > t by {
      TimeoutBatchStep(dir, events, writes, i, t, j, sent);
      RunOnlyAppends(dir, events, writes, t + 1, j + 1, sent + [batch]);
      assert (sent + [batch])[|sent|] == batch;
    }
  }

  /** The batch ended by the timeout is written in one chunk, and the loop resumes after the timeout. */
  lemma {:induction false} TimeoutBatchStep(dir: Direction, events: seq<PollEvent>, writes: seq<WriteResult>, i: nat, t: nat, j: nat, sent: seq<seq<Byte>>)
    requires i < t < |events| && t - i < BUFSIZ && j < |writes| && NeverWritesZero(writes)
    requires forall m :: i <= m < t ==> events[m].PollReady? && events[m].read.ReadByte?
    requires events[t] == PollTimeout
    requires writes[j].WriteAccepts? && writes[j].room >= t - i
    ensures Run(dir, events, writes, i, j, sent) == Run(dir, events, writes, t + 1, j + 1, sent + [Stream(events[i..t])])
  {
    var batch := Stream(events[i..t]);
    assert Fill(events, i, []) == Filled(t + 1, batch, TimedOut) by {
      FillUntilTimeout(events, i, t, []);
      Reassociate(batch, [], []);
    }
    assert |batch| == t - i by {
      LengthOfBytes(events, i, t);
    }
    assert Drain(writes, j, batch, |batch|, sent) == Drained(j + 1, sent + [batch], Flushed) by {
      CompleteFirstWrite(writes, j, batch, sent);
    }
    RunStep(dir, events, writes, i, j, sent);
  }

  /** Events that are all bytes contribute one byte each. */
  lemma {:induction false} LengthOfBytes(events: seq<PollEvent>, i: nat, t: nat)
    requires i <= t <= |events|
    requires forall m :: i <= m < t ==> events[m].PollReady? && events[m].read.ReadByte?
    ensures |Stream(events[i..t])| == t - i
    decreases t - i
  {
    if i < t {
      assert events[i..t][1..] == events[i + 1..t];
      LengthOfBytes(events, i + 1, t);
    }
  }

  /**
   * The serial device sends "OK\r\n" in two low-level chunks ("OK", then
   * "\r\n") within one timeout window: standard output gets the four
   * bytes in a single write.
   */
  lemma OkReplyIsOneWrite()
    ensures var events := [PollReady(ReadByte(0x4F)), PollReady(ReadByte(0x4B)),
                           PollReady(ReadByte(0x0D)), PollReady(ReadByte(0x0A)), PollTimeout];
            var r := Run(SerialToStdout, events, [WriteAccepts(BUFSIZ)], 0, 0, []);
            r.sent == [[0x4F, 0x4B, 0x0D, 0x0A]] && r.end == ScriptEnded
  {
    var events := [PollReady(ReadByte(0x4F)), PollReady(ReadByte(0x4B)),
                   PollReady(ReadByte(0x0D)), PollReady(ReadByte(0x0A)), PollTimeout];
    var writes := [WriteAccepts(BUFSIZ)];
    var reply: seq<Byte> := [0x4F, 0x4B, 0x0D, 0x0A];
    assert Stream(events[0..4]) == reply by {
      assert events[3..4][1..] == [];
      assert Stream(events[3..4]) == [0x0A];
      assert events[2..4][1..] == events[3..4];
      assert Stream(events[2..4]) == [0x0D, 0x0A];
      assert events[1..4][1..] == events[2..4];
      assert Stream(events[1..4]) == [0x4B, 0x0D, 0x0A];
      assert events[0..4][1..] == events[1..4];
    }
    FillUntilTimeout(events, 0, 4, []);
    Reassociate(reply, [], []);
    CompleteFirstWrite(writes, 0, reply, []);
    assert Run(SerialToStdout, events, writes, 0, 0, []) == Run(SerialToStdout, events, writes, 5, 1, [reply]);
  }

  // ---------------------------------------------------------------------
  // The loop as the program runs it

  /**
   * The read loop of one batch: from event `start`, read one byte at a time
   * into `inputBuffer` at index `byteCount` until the buffer is full, a poll
   * times out, or an event ends the loop.
   */
  method GatherBatch(inputBuffer: array<Byte>, events: seq<PollEvent>, start: nat)
      returns (i: nat, byteCount: nat, stop: FillStop)
    requires inputBuffer.Length == BUFSIZ && start <= |events|
    modifies inputBuffer
    ensures byteCount <= BUFSIZ
    ensures Fill(events, start, []) == Filled(i, inputBuffer[..byteCount], stop)
  {
    i, byteCount := start, 0;
    while true
      invariant start <= i <= |events|
      invariant byteCount <= BUFSIZ
      invariant Fill(events, i, inputBuffer[..byteCount]) == Fill(events, start, [])
      decreases |events| - i
    {
      if byteCount >= BUFSIZ {
        return i, byteCount, BufferFull;
      }
      if i == |events| {
        return i, byteCount, EventsExhausted;
      }
      var event := events[i];
      i := i + 1;
      if event.PollError? {
        return i, byteCount, Fatal(PollFailed);
      }
      if event.PollTimeout? {
        return i, byteCount, TimedOut;
      }
      var outcome := event.read;
      if outcome.ReadError? {
        if outcome.errno == EINTR {
          continue;
        }
        return i, byteCount, Fatal(ReadFailed(outcome.errno));
      }
      if outcome.ReadEof? {
        return i, byteCount, Fatal(EndOfInput);
      }
      assert inputBuffer[..byteCount] + [outcome.b] == inputBuffer[..byteCount + 1][byteCount := outcome.b];
      inputBuffer[byteCount] := outcome.b;
      byteCount := byteCount + 1;
    }
  }

  /**
   * The write loop of one batch: while bytes remain, offer the buffer from
   * index 0 and subtract what was taken; a failed write abandons the batch.
   */
  method FlushBatch(inputBuffer: array<Byte>, byteCount: nat, writes: seq<WriteResult>, j: nat, sent: seq<seq<Byte>>)
      returns (next: nat, sent': seq<seq<Byte>>, stop: DrainStop)
    requires byteCount <= inputBuffer.Length && j <= |writes| && NeverWritesZero(writes)
    ensures Drain(writes, j, inputBuffer[..byteCount], byteCount, sent) == Drained(next, sent', stop)
  {
    ghost var batch := inputBuffer[..byteCount];
    var count: nat := byteCount;
    next, sent' := j, sent;
    while count > 0
      invariant j <= next <= |writes| && count <= byteCount
      invariant Drain(writes, next, batch, count, sent') == Drain(writes, j, batch, byteCount, sent)
      decreases count
    {
      if next == |writes| {
        return next, sent', WritesExhausted;
      }
      var outcome := writes[next];
      next := next + 1;
      if outcome.WriteError? {
        return next, sent', Abandoned;
      }
      var bytesWritten := Accepted(outcome.room, count);
      assert inputBuffer[..bytesWritten] == batch[..bytesWritten];
      sent' := sent' + [inputBuffer[..bytesWritten]];
      count := count - bytesWritten;
    }
    stop := Flushed;
  }

  /**
   * One relay direction: `dir` selects how a fatal read-side error ends it.
   * The batch lives in a fixed array of `BUFSIZ` bytes, filled by the read
   * loop and drained by the write loop, batch after batch.
   */
  method RelayLoop(dir: Direction, events: seq<PollEvent>, writes: seq<WriteResult>)
      returns (sent: seq<seq<Byte>>, end: RelayEnd, flushedUpTo: nat)
    requires NeverWritesZero(writes)
    ensures Relayed(sent, end, flushedUpTo) == Run(dir, events, writes, 0, 0, [])
  {
    var inputBuffer := new Byte[BUFSIZ];
    var i: nat, j: nat := 0, 0;
    sent := [];
    while true
      invariant i <= |events| && j <= |writes| && inputBuffer.Length == BUFSIZ
      invariant Run(dir, events, writes, i, j, sent) == Run(dir, events, writes, 0, 0, [])
      decreases |events| - i
    {
      var next, byteCount, stop := GatherBatch(inputBuffer, events, i);
      if stop.Fatal? {
        return sent, Terminated(ExitFor(dir), stop.cause), i;
      }
      if stop == EventsExhausted {
        return sent, ScriptEnded, i;
      }
      var j', sent', flushed := FlushBatch(inputBuffer, byteCount, writes, j, sent);
      if flushed == WritesExhausted {
        return sent', ScriptEnded, i;
      }
      i, j, sent := next, j', sent';
    }
  }
}

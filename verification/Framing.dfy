// packages/codex-app-server-client/src/client.ts, `#receiveStdout`: newline framing of the byte
// chunks of one stdout stream, with a buffer limit per chunk and a line limit.
module Framing {
  import opened Options

  type Byte = b: int | 0 <= b < 256

  type Bytes = seq<Byte>

  datatype FailureCode = PROTOCOL_LIMIT | PROTOCOL_MALFORMED | PROCESS_EXITED | OTHER_FAILURE(reason: int)

  const NEWLINE: Byte := 0x0A

  // The checks of limits.ts: both limits are positive and the buffer holds at least one line.
  datatype Limits = Limits(maximumBufferedStdoutBytes: nat, maximumProtocolLineBytes: nat)
  {
    ghost predicate Valid() { 1 <= maximumProtocolLineBytes <= maximumBufferedStdoutBytes }
  }

  // What becomes of a line: the failure of its bounded parse, and the failure of `#receiveMessage`
  // when the history of delivered lines ends with it.  No host action comes in between.
  datatype Receiver = Receiver(parse: Bytes -> Option<FailureCode>, receive: seq<Bytes> -> Option<FailureCode>)

  datatype Stream = Stream(buffer: Bytes, delivered: seq<Bytes>, failure: Option<FailureCode>)
  {
    function Fail(code: FailureCode): Stream { this.(failure := Some(code)) }
  }

  const START := Stream([], [], None)

  function NewlineIndex(b: Bytes): (n: nat)
    ensures n <= |b| && NEWLINE !in b[..n] && (n < |b| ==> b[n] == NEWLINE)
  {
    if b == [] || b[0] == NEWLINE then 0 else
      var n := NewlineIndex(b[1..]);
      assert b[..n + 1] == [b[0]] + b[1..][..n];
      n + 1
  }

  // One complete line, taken off the buffer.
  function TakeLine(s: Stream, n: nat, limits: Limits, rx: Receiver): Stream
    requires n < |s.buffer|
  {
    var line := s.buffer[..n];
    var t := s.(buffer := s.buffer[n + 1..]);
    if n == 0 then t.Fail(PROTOCOL_MALFORMED)
    else if n > limits.maximumProtocolLineBytes then t.Fail(PROTOCOL_LIMIT)
    else if rx.parse(line).Some? then t.Fail(rx.parse(line).value)
    else t.(delivered := s.delivered + [line], failure := rx.receive(s.delivered + [line]))
  }

  // All the complete lines of the buffer in order, and then the check of the partial line.
  function Drain(s: Stream, limits: Limits, rx: Receiver): (t: Stream)
    ensures t.failure.None? ==> NEWLINE !in t.buffer && |t.buffer| <= limits.maximumProtocolLineBytes
    decreases |s.buffer|
  {
    if s.failure.Some? then s else
    var n := NewlineIndex(s.buffer);
    if n < |s.buffer| then Drain(TakeLine(s, n, limits, rx), limits, rx)
    else
      assert s.buffer[..n] == s.buffer;
      if |s.buffer| > limits.maximumProtocolLineBytes then s.Fail(PROTOCOL_LIMIT) else s
  }

  predicate Trips(s: Stream, chunk: Bytes, limits: Limits) {
    s.failure.None? && |s.buffer| + |chunk| > limits.maximumBufferedStdoutBytes
  }

  function Receive(s: Stream, chunk: Bytes, limits: Limits, rx: Receiver): Stream {
    if s.failure.Some? then s
    else if Trips(s, chunk, limits) then s.Fail(PROTOCOL_LIMIT)
    else Drain(s.(buffer := s.buffer + chunk), limits, rx)
  }

  function Run(s: Stream, chunks: seq<Bytes>, limits: Limits, rx: Receiver): Stream
    decreases |chunks|
  {
    if chunks == [] then s else Run(Receive(s, chunks[0], limits, rx), chunks[1..], limits, rx)
  }

  predicate RunTrips(s: Stream, chunks: seq<Bytes>, limits: Limits, rx: Receiver)
    decreases |chunks|
  {
    chunks != [] && (Trips(s, chunks[0], limits) || RunTrips(Receive(s, chunks[0], limits, rx), chunks[1..], limits, rx))
  }

  function End(s: Stream, requestedShutdown: bool): Stream {
    if s.failure.Some? then s
    else if s.buffer != [] then s.Fail(PROTOCOL_MALFORMED)
    else if requestedShutdown then s
    else s.Fail(PROCESS_EXITED)
  }

  class FramedStdout {
    const limits: Limits
    const receiver: Receiver
    var stdoutBuffer: Bytes
    var failure: Option<FailureCode>
    var delivered: seq<Bytes>

    ghost function View(): Stream
      reads this
    {
      Stream(stdoutBuffer, delivered, failure)
    }

    constructor (limits: Limits, receiver: Receiver)
      ensures this.limits == limits && this.receiver == receiver && View() == START
    {
      this.limits, this.receiver := limits, receiver;
      stdoutBuffer, failure, delivered := [], None, [];
    }

    method ReceiveStdout(chunk: Bytes)
      modifies this
      ensures View() == Receive(old(View()), chunk, limits, receiver)
    {
      if failure.Some? { return; }
      if |stdoutBuffer| + |chunk| > limits.maximumBufferedStdoutBytes {
        failure := Some(PROTOCOL_LIMIT);
        return;
      }
      stdoutBuffer := stdoutBuffer + chunk;
      ghost var full := View();
      while true
        invariant failure.None?
        invariant Drain(View(), limits, receiver) == Drain(full, limits, receiver)
        decreases |stdoutBuffer|
      {
        var newline := NewlineIndex(stdoutBuffer);
        if newline == |stdoutBuffer| { break; }
        var line := stdoutBuffer[..newline];
        stdoutBuffer := stdoutBuffer[newline + 1..];
        if |line| == 0 {
          failure := Some(PROTOCOL_MALFORMED);
          return;
        }
        if |line| > limits.maximumProtocolLineBytes {
          failure := Some(PROTOCOL_LIMIT);
          return;
        }
        if receiver.parse(line).Some? {
          failure := receiver.parse(line);
          return;
        }
        delivered := delivered + [line];
        failure := receiver.receive(delivered);
        if failure.Some? { return; }
      }
      if |stdoutBuffer| > limits.maximumProtocolLineBytes {
        failure := Some(PROTOCOL_LIMIT);
      }
    }

    method StdoutEnded(requestedShutdown: bool)
      modifies this`failure
      ensures View() == End(old(View()), requestedShutdown)
    {
      if failure.Some? { return; }
      if |stdoutBuffer| != 0 {
        failure := Some(PROTOCOL_MALFORMED);
        return;
      }
      if requestedShutdown { return; }
      failure := Some(PROCESS_EXITED);
    }
  }

  // ---- The cut of the stream into chunks does not matter ----

  // The same lines were delivered, and both runs failed, with the same code, or neither did.
  ghost predicate Alike(a: Stream, b: Stream) {
    a.delivered == b.delivered && a.failure == b.failure && (a.failure.None? ==> a.buffer == b.buffer)
  }

  function Concat(chunks: seq<Bytes>): Bytes {
    if chunks == [] then [] else chunks[0] + Concat(chunks[1..])
  }

  // Draining may be done before or after more bytes arrive.
  lemma {:induction false} DrainAppend(s: Stream, more: Bytes, limits: Limits, rx: Receiver)
    requires limits.Valid()
    ensures var t := Drain(s, limits, rx); var u := Drain(s.(buffer := s.buffer + more), limits, rx);
      if t.failure.None? then u == Drain(t.(buffer := t.buffer + more), limits, rx) else Alike(t, u)
    decreases |s.buffer|
  {
    var n := NewlineIndex(s.buffer);
    var wide := s.(buffer := s.buffer + more);
    if s.failure.None? && n < |s.buffer| {
      NewlineAppend(s.buffer, more);
      assert wide.buffer[..n] == s.buffer[..n] && wide.buffer[n + 1..] == s.buffer[n + 1..] + more;
      var t := TakeLine(s, n, limits, rx);
      assert TakeLine(wide, n, limits, rx) == t.(buffer := t.buffer + more);
      DrainAppend(t, more, limits, rx);
    } else if s.failure.None? && |s.buffer| > limits.maximumProtocolLineBytes {
      NewlineAppend(s.buffer, more);
    }
  }

  lemma {:induction false} NewlineAppend(b: Bytes, more: Bytes)
    ensures NewlineIndex(b) < |b| ==> NewlineIndex(b + more) == NewlineIndex(b)
    ensures NewlineIndex(b) == |b| ==> NewlineIndex(b + more) >= |b|
  {
    if b != [] && b[0] != NEWLINE {
      assert (b + more)[1..] == b[1..] + more;
      NewlineAppend(b[1..], more);
    }
  }

  // A run that never trips the buffer limit is one draining of the whole stream.
  lemma {:induction false} RunIsDrain(s: Stream, chunks: seq<Bytes>, limits: Limits, rx: Receiver)
    requires limits.Valid() && !RunTrips(s, chunks, limits, rx) && Drain(s, limits, rx) == s
    ensures Alike(Run(s, chunks, limits, rx), Drain(s.(buffer := s.buffer + Concat(chunks)), limits, rx))
    decreases |chunks|
  {
    if chunks == [] {
      assert s.buffer + [] == s.buffer;
    } else {
      var t := Receive(s, chunks[0], limits, rx);
      var rest := Concat(chunks[1..]);
      RunIsDrain(t, chunks[1..], limits, rx) by { DrainTwice(s.(buffer := s.buffer + chunks[0]), limits, rx); }
      assert s.buffer + (chunks[0] + rest) == s.buffer + chunks[0] + rest;
      if s.failure.None? { DrainAppend(s.(buffer := s.buffer + chunks[0]), rest, limits, rx); }
    }
  }

  lemma {:induction false} DrainTwice(s: Stream, limits: Limits, rx: Receiver)
    ensures Drain(Drain(s, limits, rx), limits, rx) == Drain(s, limits, rx)
    decreases |s.buffer|
  {
    var n := NewlineIndex(s.buffer);
    if s.failure.None? && n < |s.buffer| { DrainTwice(TakeLine(s, n, limits, rx), limits, rx); }
  }

  // Two cuts of one stream that do not trip the buffer limit deliver the same lines and end alike.
  lemma {:induction false} ChunkingDoesNotMatter(one: seq<Bytes>, two: seq<Bytes>, limits: Limits, rx: Receiver)
    requires limits.Valid() && Concat(one) == Concat(two)
    requires !RunTrips(START, one, limits, rx) && !RunTrips(START, two, limits, rx)
    ensures Alike(Run(START, one, limits, rx), Run(START, two, limits, rx))
    ensures forall shutdown :: Alike(End(Run(START, one, limits, rx), shutdown), End(Run(START, two, limits, rx), shutdown))
  {
    RunIsDrain(START, one, limits, rx);
    RunIsDrain(START, two, limits, rx);
  }

  // Between calls an unfailed buffer is a proper partial line.
  lemma {:induction false} BufferBetweenCalls(chunks: seq<Bytes>, s: Stream, limits: Limits, rx: Receiver)
    requires s.failure.None? ==> NEWLINE !in s.buffer && |s.buffer| <= limits.maximumProtocolLineBytes
    ensures var t := Run(s, chunks, limits, rx);
      t.failure.None? ==> NEWLINE !in t.buffer && |t.buffer| <= limits.maximumProtocolLineBytes
    decreases |chunks|
  {
    if chunks != [] { BufferBetweenCalls(chunks[1..], Receive(s, chunks[0], limits, rx), limits, rx); }
  }

  // ---- What is delivered ----

  // The stream that these lines make up.
  function Lines(lines: seq<Bytes>): Bytes {
    if lines == [] then [] else Lines(lines[..|lines| - 1]) + (lines[|lines| - 1] + [NEWLINE])
  }

  lemma {:induction false} LinesMore(lines: seq<Bytes>, line: Bytes)
    ensures Lines(lines + [line]) == Lines(lines) + (line + [NEWLINE])
  {
    assert (lines + [line])[..|lines|] == lines;
  }

  // A line that is neither empty nor too long, is parsed, and is received without a failure.
  predicate Fine(lines: seq<Bytes>, k: nat, limits: Limits, rx: Receiver)
    requires k < |lines|
  {
    && 0 < |lines[k]| <= limits.maximumProtocolLineBytes && NEWLINE !in lines[k]
    && rx.parse(lines[k]).None? && rx.receive(lines[..k + 1]).None?
  }

  // The lines delivered make up the stream together with the rest, and all of them are fine; a failed
  // receiver is that of the last one.
  ghost predicate Accounts(t: Stream, stream: Bytes, rest: Bytes, limits: Limits, rx: Receiver) {
    && stream == Lines(t.delivered) + rest
    && (forall k: nat | k + 1 < |t.delivered| :: Fine(t.delivered, k, limits, rx))
    && (t.failure.None? ==> rest == t.buffer && forall k: nat | k < |t.delivered| :: Fine(t.delivered, k, limits, rx))
  }

  // Why the framing failed: the next line, the last one delivered, or a partial line that is too long.
  ghost predicate FailsOn(t: Stream, rest: Bytes, limits: Limits, rx: Receiver) {
    || (exists line, more :: NEWLINE !in line && rest == line + [NEWLINE] + more && t.failure == FaultOf(line, limits, rx))
    || (t.delivered != [] && t.failure == rx.receive(t.delivered))
    || (|rest| > limits.maximumProtocolLineBytes && NEWLINE !in rest && t.failure == Some(PROTOCOL_LIMIT))
  }

  function FaultOf(line: Bytes, limits: Limits, rx: Receiver): Option<FailureCode> {
    if line == [] then Some(PROTOCOL_MALFORMED)
    else if |line| > limits.maximumProtocolLineBytes then Some(PROTOCOL_LIMIT)
    else rx.parse(line)
  }

  lemma {:induction false} FineMore(lines: seq<Bytes>, line: Bytes, limits: Limits, rx: Receiver)
    requires forall k: nat | k < |lines| :: Fine(lines, k, limits, rx)
    ensures forall k: nat | k < |lines| :: Fine(lines + [line], k, limits, rx)
  {
    forall k: nat | k < |lines| ensures Fine(lines + [line], k, limits, rx) {
      assert Fine(lines, k, limits, rx) && (lines + [line])[..k + 1] == lines[..k + 1];
    }
  }

  lemma {:induction false} LineAccounts(s: Stream, stream: Bytes, n: nat, limits: Limits, rx: Receiver) returns (rest: Bytes)
    requires s.failure.None? && Accounts(s, stream, s.buffer, limits, rx) && n == NewlineIndex(s.buffer) < |s.buffer|
    ensures var t := TakeLine(s, n, limits, rx);
      Accounts(t, stream, rest, limits, rx) && (t.failure.Some? ==> FailsOn(t, rest, limits, rx))
  {
    var line, more, t := s.buffer[..n], s.buffer[n + 1..], TakeLine(s, n, limits, rx);
    assert s.buffer == line + [NEWLINE] + more;
    if FaultOf(line, limits, rx).Some? {
      rest := s.buffer;
    } else {
      rest := more;
      LineDelivered(s, stream, line, more, limits, rx);
    }
  }

  lemma {:induction false} LineDelivered(s: Stream, stream: Bytes, line: Bytes, more: Bytes, limits: Limits, rx: Receiver)
    requires s.failure.None? && Accounts(s, stream, s.buffer, limits, rx) && s.buffer == line + [NEWLINE] + more
    requires NEWLINE !in line && FaultOf(line, limits, rx).None?
    ensures var t := Stream(more, s.delivered + [line], rx.receive(s.delivered + [line]));
      Accounts(t, stream, more, limits, rx) && (t.failure.Some? ==> FailsOn(t, more, limits, rx))
  {
    var lines := s.delivered + [line];
    LinesMore(s.delivered, line);
    FineMore(s.delivered, line, limits, rx);
    assert Lines(s.delivered) + (line + [NEWLINE] + more) == (Lines(s.delivered) + (line + [NEWLINE])) + more;
    assert lines[..|s.delivered| + 1] == lines && lines[|s.delivered|] == line;
  }

  lemma {:induction false} DrainAccounts(s: Stream, stream: Bytes, limits: Limits, rx: Receiver) returns (rest: Bytes)
    requires s.failure.None? && Accounts(s, stream, s.buffer, limits, rx)
    ensures var t := Drain(s, limits, rx); Accounts(t, stream, rest, limits, rx) && (t.failure.Some? ==> FailsOn(t, rest, limits, rx))
    decreases |s.buffer|
  {
    var n := NewlineIndex(s.buffer);
    if n < |s.buffer| {
      rest := LineAccounts(s, stream, n, limits, rx);
      var t := TakeLine(s, n, limits, rx);
      if t.failure.None? { rest := DrainAccounts(t, stream, limits, rx); }
    } else {
      rest := s.buffer;
      assert s.buffer[..n] == s.buffer;
    }
  }

  // Of any stream: the lines that were delivered, each with its newline, and the rest make it up again,
  // and a framing that has failed without tripping the buffer limit failed on that rest or on its last line.
  lemma {:induction false} DeliversTheStream(chunks: seq<Bytes>, limits: Limits, rx: Receiver) returns (rest: Bytes)
    requires limits.Valid() && !RunTrips(START, chunks, limits, rx)
    ensures var t := Run(START, chunks, limits, rx);
      Accounts(t, Concat(chunks), rest, limits, rx) && (t.failure.Some? ==> FailsOn(t, rest, limits, rx))
  {
    RunIsDrain(START, chunks, limits, rx);
    var whole := START.(buffer := [] + Concat(chunks));
    assert whole.buffer == Concat(chunks);
    rest := DrainAccounts(whole, Concat(chunks), limits, rx);
  }

  // ---- The end of the stream ----

  // A run that trips the buffer limit fails with that limit, and no other chunk changes it.
  lemma {:induction false} TrippingFails(s: Stream, chunks: seq<Bytes>, limits: Limits, rx: Receiver)
    requires RunTrips(s, chunks, limits, rx)
    ensures Run(s, chunks, limits, rx).failure == Some(PROTOCOL_LIMIT)
    decreases |chunks|
  {
    if Trips(s, chunks[0], limits) {
      FailedStays(Receive(s, chunks[0], limits, rx), chunks[1..], limits, rx);
    } else {
      TrippingFails(Receive(s, chunks[0], limits, rx), chunks[1..], limits, rx);
    }
  }

  lemma {:induction false} FailedStays(s: Stream, chunks: seq<Bytes>, limits: Limits, rx: Receiver)
    requires s.failure.Some?
    ensures Run(s, chunks, limits, rx) == s
    decreases |chunks|
  {
    if chunks != [] { FailedStays(s, chunks[1..], limits, rx); }
  }

  // The stream of a framing that has not failed ends well exactly after a shutdown and with its last line
  // complete.
  lemma {:induction false} EndsExactly(chunks: seq<Bytes>, requestedShutdown: bool, limits: Limits, rx: Receiver)
    requires limits.Valid() && Run(START, chunks, limits, rx).failure.None?
    ensures var stream := Concat(chunks);
      End(Run(START, chunks, limits, rx), requestedShutdown).failure ==
        if stream != [] && stream[|stream| - 1] != NEWLINE then Some(PROTOCOL_MALFORMED)
        else if requestedShutdown then None
        else Some(PROCESS_EXITED)
  {
    if RunTrips(START, chunks, limits, rx) { TrippingFails(START, chunks, limits, rx); }
    var rest := DeliversTheStream(chunks, limits, rx);
    BufferBetweenCalls(chunks, START, limits, rx);
    var t := Run(START, chunks, limits, rx);
    if rest != [] {
      assert Concat(chunks)[|Concat(chunks)| - 1] == rest[|rest| - 1] && rest[|rest| - 1] in rest;
    } else if t.delivered != [] {
      var last := t.delivered[|t.delivered| - 1] + [NEWLINE];
      assert Concat(chunks) == Lines(t.delivered) + [] == Lines(t.delivered);
      assert last[|last| - 1] == NEWLINE && Lines(t.delivered)[|Lines(t.delivered)| - 1] == last[|last| - 1];
    }
  }

  // ---- The buffer limit ----

  function Singletons(b: Bytes): seq<Bytes> {
    seq(|b|, i requires 0 <= i < |b| => [b[i]])
  }

  lemma {:induction false} ByteWiseNeverTrips(s: Stream, b: Bytes, limits: Limits, rx: Receiver)
    requires limits.maximumBufferedStdoutBytes > limits.maximumProtocolLineBytes
    requires s.failure.None? ==> |s.buffer| <= limits.maximumProtocolLineBytes
    ensures !RunTrips(s, Singletons(b), limits, rx)
    decreases |b|
  {
    if b != [] {
      assert Singletons(b)[1..] == Singletons(b[1..]);
      ByteWiseNeverTrips(Receive(s, [b[0]], limits, rx), b[1..], limits, rx);
    }
  }

  function Repeat(u: Byte, n: nat): Bytes { seq(n, _ => u) }

  // A line of exactly the largest length, which the line limit allows.
  function LongestLine(limits: Limits): Bytes { Repeat(0x61, limits.maximumProtocolLineBytes) + [NEWLINE] }

  // With equal limits the longest line trips the buffer limit however it is cut.
  lemma {:induction false} LongestLineTrips(k: nat, chunks: seq<Bytes>, limits: Limits, rx: Receiver)
    requires limits.Valid() && limits.maximumBufferedStdoutBytes == limits.maximumProtocolLineBytes
    requires k <= limits.maximumProtocolLineBytes
    requires Concat(chunks) == Repeat(0x61, limits.maximumProtocolLineBytes - k) + [NEWLINE]
    ensures RunTrips(Stream(Repeat(0x61, k), [], None), chunks, limits, rx)
    decreases |chunks|
  {
    var s := Stream(Repeat(0x61, k), [], None);
    var c, rest := chunks[0], Concat(chunks[1..]);
    assert Concat(chunks) == c + rest;
    var all := Repeat(0x61, limits.maximumProtocolLineBytes - k) + [NEWLINE];
    if |c| <= limits.maximumProtocolLineBytes - k {
      assert c == (c + rest)[..|c|] == Repeat(0x61, |c|);
      assert rest == (c + rest)[|c|..] == Repeat(0x61, limits.maximumProtocolLineBytes - (k + |c|)) + [NEWLINE];
      assert s.buffer + c == Repeat(0x61, k + |c|);
      NoNewline(k + |c|);
      assert Receive(s, c, limits, rx) == Stream(Repeat(0x61, k + |c|), [], None);
      LongestLineTrips(k + |c|, chunks[1..], limits, rx);
    }
  }

  lemma {:induction false} NoNewline(k: nat)
    ensures NewlineIndex(Repeat(0x61, k)) == k
  {
    if k > 0 {
      NoNewline(k - 1);
      assert Repeat(0x61, k)[1..] == Repeat(0x61, k - 1);
    }
  }

  lemma {:induction false} ConcatSingletons(b: Bytes)
    ensures Concat(Singletons(b)) == b
  {
    if b != [] {
      assert Singletons(b)[1..] == Singletons(b[1..]);
      ConcatSingletons(b[1..]);
    }
  }

  // Delivery byte by byte never trips the buffer limit exactly when it exceeds the line limit;
  // the limits that the client accepts allow them to be equal.
  lemma {:induction false} ByteWiseTripsExactly(limits: Limits, rx: Receiver)
    requires limits.Valid()
    ensures (forall b :: !RunTrips(START, Singletons(b), limits, rx))
      <==> limits.maximumBufferedStdoutBytes > limits.maximumProtocolLineBytes
  {
    if limits.maximumBufferedStdoutBytes > limits.maximumProtocolLineBytes {
      forall b ensures !RunTrips(START, Singletons(b), limits, rx) {
        ByteWiseNeverTrips(START, b, limits, rx);
      }
    } else {
      var b := LongestLine(limits);
      ConcatSingletons(b);
      assert Repeat(0x61, 0) == [];
      LongestLineTrips(0, Singletons(b), limits, rx);
      assert RunTrips(START, Singletons(b), limits, rx);
    }
  }
}

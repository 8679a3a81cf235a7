/**
 Framed requests over a pipe under deadlines. The peer is a script: how many bytes each operation moves, how long it
 takes and whether it fails; time is in nanoseconds.
 */
module PipeIO {
  import opened Common
  import opened Utf8

  const IPC_MAX_FRAME: nat := 8 * 1024 * 1024

  datatype IoError = Deadline | Timeout | Failed | Closed | NoProgress | TooLarge(len: nat) | NotUtf8

  /** How an operation ends: it moves bytes, fails, or is aborted, which counts as zero bytes moved. */
  datatype Fate = Moves | Breaks | Aborts

  /** One operation of the peer: bytes it is ready to move, time it needs, and its fate. */
  datatype Turn = Turn(size: nat, nanos: nat, fate: Fate)

  // ---------------------------------------------------------------- frames

  function LeBytes(n: nat): (b: Bytes)
    requires n < 0x1_0000_0000
    ensures |b| == 4
  {
    var a := n / 256;
    var b := a / 256;
    [n % 256, a % 256, b % 256, b / 256]
  }

  function FromLe(b: Bytes): nat
    requires |b| == 4
  {
    Assemble(b[0], b[1], b[2], b[3])
  }

  function Assemble(a: nat, b: nat, c: nat, d: nat): nat { a + 256 * b + 0x1_0000 * c + 0x100_0000 * d }

  /** A length prefix in 32 bits, then the payload. */
  function Frame(payload: Bytes): Bytes { LeBytes(Truncated(|payload|)) + payload }

  /** A cast to u32. */
  function Truncated(n: nat): (r: nat)
    ensures r < 0x1_0000_0000
    ensures n < 0x1_0000_0000 ==> r == n
  {
    n % 0x1_0000_0000
  }

  function TextOf(payload: Bytes): Result<string, IoError> {
    match Decode(payload)
    case None => Err(NotUtf8)
    case Some(text) => Ok(text)
  }

  /** What a reader that sees the whole stream makes of its first frame. */
  function FrameOf(stream: Bytes): Result<string, IoError> {
    if |stream| < 4 then Err(Closed)
    else
      var len := FromLe(stream[..4]);
      if len > IPC_MAX_FRAME then Err(TooLarge(len))
      else if |stream| < 4 + len then Err(Closed)
      else TextOf(stream[4..4 + len])
  }

  datatype Deframed = Incomplete | Malformed(error: IoError) | Message(text: string, used: nat)

  /** The incremental reader: incomplete input asks for more. */
  function TryDeframe(buf: Bytes): Deframed {
    if |buf| < 4 then Incomplete
    else
      var len := FromLe(buf[..4]);
      if len > IPC_MAX_FRAME then Malformed(TooLarge(len))
      else if |buf| < 4 + len then Incomplete
      else
        match TextOf(buf[4..4 + len])
        case Err(e) => Malformed(e)
        case Ok(text) => Message(text, 4 + len)
  }

  lemma LeRoundTrip(n: nat)
    requires n < 0x1_0000_0000
    ensures FromLe(LeBytes(n)) == n
  {
    var a := n / 256;
    var b := a / 256;
    assert n == 256 * a + n % 256 && a == 256 * b + a % 256 && b == 256 * (b / 256) + b % 256;
  }

  /** The layout of a frame: the length, lowest byte first, and the payload. */
  lemma FrameLayout(p: Bytes)
    requires |p| < 0x1_0000_0000
    ensures |Frame(p)| == 4 + |p| && Frame(p)[4..] == p
    ensures |p| == Frame(p)[0] as int + 256 * Frame(p)[1] as int + 65536 * Frame(p)[2] as int
                   + 16777216 * Frame(p)[3] as int
  {
    LeRoundTrip(|p|);
  }

  /** Framing and reading back is the identity, whatever follows, up to the size cap of 8 MiB. */
  lemma FrameRoundTrip(text: string, rest: Bytes)
    requires |Encode(text)| <= 8388608
    ensures FrameOf(Frame(Encode(text)) + rest) == Ok(text)
    ensures TryDeframe(Frame(Encode(text)) + rest) == Message(text, |Frame(Encode(text))|)
  {
    FrameParts(Encode(text), rest);
    DecodeEncode(text);
  }

  lemma FrameParts(p: Bytes, rest: Bytes)
    requires |p| < 0x1_0000_0000
    ensures var s := Frame(p) + rest; |s| >= 4 + |p| && FromLe(s[..4]) == |p| && s[4..4 + |p|] == p
  {
    var h := LeBytes(|p|);
    assert FromLe(h) == |p| by { LeRoundTrip(|p|); }
    HeadAndBody(h, p, rest);
  }

  lemma HeadAndBody(h: Bytes, p: Bytes, rest: Bytes)
    ensures (h + p + rest)[..|h|] == h && (h + p + rest)[|h|..|h| + |p|] == p
  {
  }

  /** A payload over the cap is refused by its length prefix alone, for every payload a 32-bit prefix can carry. */
  lemma OversizeIsRefused(payload: Bytes, rest: Bytes)
    requires 8388608 < |payload| < 0x1_0000_0000
    ensures FrameOf(Frame(payload)[..4] + rest) == Err(TooLarge(|payload|))
    ensures TryDeframe(Frame(payload)[..4] + rest) == Malformed(TooLarge(|payload|))
  {
    FrameParts(payload, []);
    var h := Frame(payload)[..4];
    assert Frame(payload) + [] == Frame(payload);
    assert (h + rest)[..4] == h;
  }

  /** A payload that is not text is refused once it is complete. */
  lemma BadTextIsRefused(payload: Bytes, rest: Bytes)
    requires |payload| <= 8388608 && Decode(payload) == None
    ensures FrameOf(Frame(payload) + rest) == Err(NotUtf8)
    ensures TryDeframe(Frame(payload) + rest) == Malformed(NotUtf8)
  {
    FrameParts(payload, rest);
  }

  /** A frame cut anywhere is incomplete: one reader asks for more, the other reports the close. */
  lemma CutFrameIsIncomplete(payload: Bytes, m: nat)
    requires |payload| <= 8388608 && m < |Frame(payload)|
    ensures TryDeframe(Frame(payload)[..m]) == Incomplete && FrameOf(Frame(payload)[..m]) == Err(Closed)
  {
    FrameParts(payload, []);
    assert Frame(payload) + [] == Frame(payload);
    if m >= 4 { assert Frame(payload)[..m][..4] == Frame(payload)[..4]; }
  }

  /** More bytes never change a verdict, and the verdict is that of the whole stream. */
  lemma DeframeIsStable(buf: Bytes, more: Bytes)
    requires !TryDeframe(buf).Incomplete?
    ensures TryDeframe(buf + more) == TryDeframe(buf)
    ensures FrameOf(buf + more) == match TryDeframe(buf) case Malformed(e) => Err(e) case Message(text, _) => Ok(text)
  {
    var s := buf + more;
    assert s[..4] == buf[..4];
    var len := FromLe(buf[..4]);
    if len <= IPC_MAX_FRAME { assert s[4..4 + len] == buf[4..4 + len]; }
  }

  // ---------------------------------------------------------------- waiting

  /** Time left before the deadline in whole milliseconds, at most the cap and at least one. */
  function RemainingMs(now: nat, deadline: nat, cap: nat): Option<nat> {
    var left := SatSub(deadline, now);
    if left == 0 then None
    else
      var ms := if left / MS < cap then left / MS else cap;
      Some(if ms < 1 then 1 else ms)
  }

  /** A wait of that length ends less than one millisecond past the deadline. */
  lemma WaitStaysNear(now: nat, deadline: nat, cap: nat)
    requires RemainingMs(now, deadline, cap).Some?
    ensures now + RemainingMs(now, deadline, cap).value * MS < deadline + MS
  {
    var left := deadline - now;
    assert left / MS * MS <= left;
  }

  /** And it is the longest such wait within the cap: no wait is cut short. */
  lemma WaitIsLongest(now: nat, deadline: nat, cap: nat)
    ensures RemainingMs(now, deadline, cap).None? <==> now >= deadline
    ensures RemainingMs(now, deadline, cap).Some? ==>
              var ms := RemainingMs(now, deadline, cap).value;
              && ms >= 1 && (ms == 1 || ms <= cap)
              && (ms >= cap || now + (ms + 1) * MS > deadline)
  {
    if now < deadline {
      var left := deadline - now;
      assert left < (left / MS + 1) * MS;
    }
  }

  predicate EndsInTime(before: nat, after: nat, deadline: nat) {
    before <= after && (after == before || after < deadline + MS)
  }

  /** A peer that answers every operation at once. */
  predicate Prompt(script: seq<Turn>) {
    forall i :: 0 <= i < |script| ==> script[i].nanos == 0 && script[i].fate.Moves?
  }

  /** A peer that also takes at least a byte each time. */
  predicate Takes(script: seq<Turn>) { forall i :: 0 <= i < |script| ==> script[i].size > 0 }

  /** The peer answers the next n operations at once and takes a byte in each. */
  predicate Ready(script: seq<Turn>, n: int) { Prompt(script) && Takes(script) && |script| >= n }

  /** No operation of the peer is aborted. */
  predicate Unaborted(script: seq<Turn>) { forall i :: 0 <= i < |script| ==> !script[i].fate.Aborts? }

  /** Overwrite part of a buffer. */
  method CopyInto(buf: array<Byte>, off: nat, bytes: Bytes)
    requires off + |bytes| <= buf.Length
    modifies buf
    ensures buf[..] == old(buf[..])[..off] + bytes + old(buf[..])[off + |bytes|..]
  {
    for i := 0 to |bytes|
      invariant forall j :: 0 <= j < buf.Length ==> buf[j] == if off <= j < off + i then bytes[j - off] else old(buf[j])
    {
      buf[off + i] := bytes[i];
    }
  }

  class Pipe {
    var stream: Bytes
    var sent: Bytes
    var script: seq<Turn>
    var now: nat
    ghost var transfers: nat

    constructor (incoming: Bytes, turns: seq<Turn>, start: nat)
      ensures stream == incoming && sent == [] && script == turns && now == start && transfers == 0
    {
      stream, sent, script, now, transfers := incoming, [], turns, start, 0;
    }

    /** One overlapped operation: it completes within the timeout, or is cancelled at it. */
    method Wait(timeoutMs: nat) returns (r: Result<nat, IoError>, aborted: bool)
      modifies this`script, this`now
      ensures old(now) <= now <= old(now) + timeoutMs * MS
      ensures r.Err? ==> r.error == Timeout || r.error == Failed
      ensures aborted ==> r == Ok(0) && !Unaborted(old(script))
      ensures Unaborted(old(script)) ==> Unaborted(script)
      ensures script == if old(script) == [] then [] else old(script)[1..]
      ensures Prompt(old(script)) ==> Prompt(script) && (old(script) != [] ==> r.Ok? && !aborted && now == old(now))
      ensures Takes(old(script)) ==> Takes(script) && (r.Ok? && !aborted ==> r.value > 0)
    {
      aborted := false;
      if script == [] {
        now := now + timeoutMs * MS;
        return Err(Timeout), false;
      }
      var turn := script[0];
      script := script[1..];
      if turn.nanos > timeoutMs * MS {
        now := now + timeoutMs * MS;
        return Err(Timeout), false;
      }
      now := now + turn.nanos;
      if turn.fate.Breaks? { return Err(Failed), false; }
      if turn.fate.Aborts? { return Ok(0), true; }
      return Ok(turn.size), false;
    }

    /** One read into buf from offset off: zero bytes are taken to mean that the peer has closed. */
    method ReadChunk(buf: array<Byte>, off: nat, timeoutMs: nat) returns (r: Result<nat, IoError>)
      requires off < buf.Length
      modifies this`script, this`now, this`stream, this`transfers, buf
      ensures old(now) <= now <= old(now) + timeoutMs * MS
      ensures r.Err? ==> (r.error == Timeout || r.error == Failed) && stream == old(stream) && buf[..] == old(buf[..])
      ensures r.Ok? ==> r.value <= buf.Length - off && r.value <= |old(stream)|
      ensures r.Ok? ==> stream == old(stream)[r.value..]
      ensures r.Ok? && old(stream) == [] ==> r.value == 0
      ensures r == Ok(0) ==> old(stream) == [] || !Unaborted(old(script))
      ensures Unaborted(old(script)) ==> Unaborted(script)
      ensures r.Ok? ==> buf[..] == old(buf[..])[..off] + old(stream)[..r.value] + old(buf[..])[off + r.value..]
      ensures transfers == old(transfers) + (if r.Ok? && r.value > 0 then 1 else 0)
      ensures script == if old(script) == [] then [] else old(script)[1..]
      ensures Prompt(old(script)) ==> Prompt(script) && Unaborted(old(script))
      ensures Takes(old(script)) ==> Takes(script)
      ensures Prompt(old(script)) && old(script) != [] ==> r.Ok? && now == old(now)
    {
      var io, aborted := Wait(timeoutMs);
      if io.Err? { return io; }
      if stream == [] || aborted {
        assert buf[..off] + buf[off..] == buf[..];
        return Ok(0);
      }
      var n := if io.value < 1 then 1 else io.value;
      if n > buf.Length - off { n := buf.Length - off; }
      if n > |stream| { n := |stream|; }
      CopyInto(buf, off, stream[..n]);
      stream := stream[n..];
      transfers := transfers + 1;
      return Ok(n);
    }

    /** Fill buf exactly, or fail: with the bytes of the stream in order, whatever the chunks. */
    method ReadExact(buf: array<Byte>, timeoutMs: nat, deadline: nat) returns (r: Result<(), IoError>)
      modifies this`script, this`now, this`stream, this`transfers, buf
      ensures r.Ok? ==>
                && |old(stream)| >= buf.Length
                && buf[..] == old(stream)[..buf.Length]
                && stream == old(stream)[buf.Length..]
      ensures r.Err? ==> r.error == Deadline || r.error == Timeout || r.error == Failed || r.error == Closed
      ensures r == Err(Closed) ==> |old(stream)| < buf.Length || !Unaborted(old(script))
      ensures Unaborted(old(script)) ==> Unaborted(script)
      ensures transfers <= old(transfers) + buf.Length
      ensures EndsInTime(old(now), now, deadline)
      ensures Prompt(old(script)) && |old(script)| >= buf.Length && old(now) < deadline ==>
                && (r.Ok? || r.error == Closed)
                && Prompt(script) && |script| >= |old(script)| - buf.Length && now == old(now)
      ensures Takes(old(script)) ==> Takes(script)
    {
      ghost var incoming := stream;
      ghost var prompt := Prompt(script) && |script| >= buf.Length && now < deadline;
      var off := 0;
      while off < buf.Length
        invariant off <= buf.Length && off <= |incoming|
        invariant stream == incoming[off..] && buf[..off] == incoming[..off]
        invariant transfers <= old(transfers) + off
        invariant EndsInTime(old(now), now, deadline)
        invariant prompt ==> Prompt(script) && |script| >= |old(script)| - off && now == old(now)
        invariant Unaborted(old(script)) ==> Unaborted(script)
        invariant Takes(old(script)) ==> Takes(script)
        decreases buf.Length - off
      {
        var t := RemainingMs(now, deadline, timeoutMs);
        if t.None? { return Err(Deadline); }
        WaitStaysNear(now, deadline, timeoutMs);
        ghost var was := buf[..];
        var n := ReadChunk(buf, off, t.value);
        if n.Err? { return Err(n.error); }
        if n.value == 0 { return Err(Closed); }
        FillGrows(was, incoming, off, n.value, buf[..]);
        off := off + n.value;
      }
      assert buf[..] == buf[..off];
      r := Ok(());
    }

    method ReadFrame(timeoutMs: nat, deadline: nat) returns (r: Result<string, IoError>)
      modifies this`script, this`now, this`stream, this`transfers
      ensures r == FrameOf(old(stream)) || (r.Err? && r.error in {Deadline, Timeout, Failed})
              || (r == Err(Closed) && !Unaborted(old(script)))
      ensures EndsInTime(old(now), now, deadline)
      ensures transfers <= old(transfers) + 4 + IPC_MAX_FRAME
      ensures Prompt(old(script)) && |old(script)| >= 4 + IPC_MAX_FRAME && old(now) < deadline ==>
                && r == FrameOf(old(stream))
                && now == old(now) && Prompt(script) && |script| >= |old(script)| - (4 + IPC_MAX_FRAME)
      ensures r.Ok? ==> stream == old(stream)[4 + FromLe(old(stream)[..4])..]
      ensures Takes(old(script)) ==> Takes(script)
    {
      ghost var incoming := stream;
      var lenb := new Byte[4];
      var head := ReadExact(lenb, timeoutMs, deadline);
      if head.Err? { return Err(head.error); }
      var len := FromLe(lenb[..]);
      if len > IPC_MAX_FRAME { return Err(TooLarge(len)); }
      var buf := new Byte[len];
      var body := ReadExact(buf, timeoutMs, deadline);
      if body.Err? { return Err(body.error); }
      assert incoming[4..][..len] == incoming[4..4 + len];
      r := TextOf(buf[..]);
    }

    /** Send every byte or fail: the peer has received a prefix, all of it exactly on success. */
    method WriteAll(buf: Bytes, timeoutMs: nat, deadline: nat) returns (r: Result<(), IoError>)
      modifies this`script, this`now, this`sent, this`transfers
      ensures r.Ok? ==> sent == old(sent) + buf
      ensures exists n :: 0 <= n <= |buf| && sent == old(sent) + buf[..n] && transfers <= old(transfers) + n
      ensures r.Err? ==> r.error in {Deadline, Timeout, Failed, NoProgress}
      ensures EndsInTime(old(now), now, deadline)
      ensures Ready(old(script), |buf|) && old(now) < deadline ==>
                r.Ok? && now == old(now) && Ready(script, |old(script)| - |buf|)
    {
      ghost var ready := Ready(script, |buf|) && now < deadline;
      var off := 0;
      assert sent == old(sent) + buf[..0];
      while off < |buf|
        invariant off <= |buf| && sent == old(sent) + buf[..off] && transfers <= old(transfers) + off
        invariant ready ==> now == old(now) && Ready(script, |old(script)| - off)
        invariant EndsInTime(old(now), now, deadline)
        decreases |buf| - off
      {
        var t := RemainingMs(now, deadline, timeoutMs);
        if t.None? { return Err(Deadline); }
        WaitStaysNear(now, deadline, timeoutMs);
        var io, _ := Wait(t.value);
        if io.Err? { return Err(io.error); }
        if io.value == 0 { return Err(NoProgress); }
        var n := if io.value > |buf| - off then |buf| - off else io.value;
        assert buf[..off + n] == buf[..off] + buf[off..off + n];
        sent := sent + buf[off..off + n];
        off := off + n;
        transfers := transfers + 1;
      }
      assert buf[..|buf|] == buf;
      r := Ok(());
    }
  }

  lemma FillGrows(was: Bytes, incoming: Bytes, off: nat, n: nat, now: Bytes)
    requires off + n <= |was| && off + n <= |incoming| && was[..off] == incoming[..off]
    requires now == was[..off] + incoming[off..][..n] + was[off + n..]
    ensures now[..off + n] == incoming[..off + n] && incoming[off..][n..] == incoming[off + n..]
  {
    assert incoming[..off + n] == incoming[..off] + incoming[off..][..n];
  }

  /** One request: read, answer, write, and wait for the client to close; every part under one deadline. */
  method ServeConnection(conn: Pipe, handler: string -> string, handlerNanos: nat, ioTimeoutMs: nat)
    returns (r: Result<(), IoError>, ghost deadline: nat)
    modifies conn
    ensures deadline == old(conn.now) + (if 3 * ioTimeoutMs < 1000 then 1000 else 3 * ioTimeoutMs) * MS
    ensures r.Ok? ==> FrameOf(old(conn.stream)).Ok?
    ensures r.Ok? ==> conn.sent == old(conn.sent) + Frame(Encode(handler(FrameOf(old(conn.stream)).value)))
    ensures conn.now < deadline + handlerNanos + MS
    ensures var request := FrameOf(old(conn.stream));
            (&& request.Ok? && handlerNanos < deadline - old(conn.now)
             && Ready(old(conn.script), 5 + IPC_MAX_FRAME + |Frame(Encode(handler(request.value)))|)) ==> r.Ok?
  {
    var limit := conn.now + (if 3 * ioTimeoutMs < 1000 then 1000 else 3 * ioTimeoutMs) * MS;
    deadline := limit;
    var req := conn.ReadFrame(ioTimeoutMs, limit);
    if req.Err? { return Err(req.error), deadline; }
    var resp := handler(req.value);
    conn.now := conn.now + handlerNanos;
    var w := conn.WriteAll(Frame(Encode(resp)), ioTimeoutMs, limit);
    if w.Err? { return Err(w.error), deadline; }
    var t := RemainingMs(conn.now, limit, ioTimeoutMs);
    if t.None? { return Err(Deadline), deadline; }
    WaitStaysNear(conn.now, limit, ioTimeoutMs);
    var buf := new Byte[64];
    var n := conn.ReadChunk(buf, 0, t.value);
    if n.Err? { return Err(n.error), deadline; }
    r := Ok(());
  }
}

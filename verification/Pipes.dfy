/**
  The in-memory pipe (include/w2g/pipe.h): two ends, a channel of byte slices
  in each direction, unbuffered.

  A read that needs the channel meets either a blocked `Write` of the peer (its
  bytes, whole) or the peer's closed channel; `offer` is which of the two.  A
  read that would meet neither stays blocked and is no step.
 */
module Pipes {
  import opened Options
  import opened Bytes

  datatype Err = NotSupported | ClosedPipe | Eof
  datatype Result = Data(bytes: ByteString) | Failed(err: Err)

  /** `Read` into a buffer of `n` bytes: what stays left over, and the result. */
  function ReadStep(valid: bool, closed: bool, left: ByteString, n: nat,
                    offer: Option<ByteString>): (ByteString, Result) {
    if !valid then (left, Failed(NotSupported))
    else if closed then (left, Failed(ClosedPipe))
    else if left == [] && offer.None? then (left, Failed(Eof))
    else
      var chunk := if left == [] then offer.value else left;
      var k := Min(n, |chunk|);
      (chunk[k..], Data(chunk[..k]))
  }

  function ReadMsgStep(valid: bool, closed: bool, left: ByteString, offer: Option<ByteString>): (ByteString, Result) {
    if !valid then (left, Failed(NotSupported))
    else if closed then (left, Failed(ClosedPipe))
    else if left == [] && offer.None? then (left, Failed(Eof))
    else ([], Data(if left == [] then offer.value else left))
  }

  /** When reads fail, and why; otherwise as much of the left-over bytes, or else of the offer, as there is room for. */
  lemma {:induction false} ReadAnswers(valid: bool, closed: bool, left: ByteString, n: nat, offer: Option<ByteString>)
    ensures var r := ReadStep(valid, closed, left, n, offer).1;
            && (r == Failed(NotSupported) <==> !valid)
            && (r == Failed(ClosedPipe) <==> valid && closed)
            && (r == Failed(Eof) <==> valid && !closed && left == [] && offer.None?)
            && (r.Data? && left != [] ==> r.bytes <= left && |r.bytes| == Min(n, |left|))
            && (r.Data? && left == [] ==> r.bytes <= offer.value && |r.bytes| == Min(n, |offer.value|))
    ensures var (after, r) := ReadStep(valid, closed, left, n, offer);
            if r.Failed? then after == left else r.bytes + after == if left != [] then left else offer.value
  {
  }

  /** The same for whole messages. */
  lemma {:induction false} ReadMsgAnswers(valid: bool, closed: bool, left: ByteString, offer: Option<ByteString>)
    ensures var (after, r) := ReadMsgStep(valid, closed, left, offer);
            && (r == Failed(NotSupported) <==> !valid)
            && (r == Failed(ClosedPipe) <==> valid && closed)
            && (r == Failed(Eof) <==> valid && !closed && left == [] && offer.None?)
            && (r.Failed? ==> after == left)
            && (r.Data? ==> after == [] && r.bytes == if left != [] then left else offer.value)
  {
  }

  // ---------- one direction of a pipe ----------

  /** The reading end's state, the writing end's flag, and the history of the direction. */
  datatype Flow = Flow(
    readerClosed: bool,
    writerClosed: bool,
    left: ByteString,
    writes: seq<ByteString>,    // history: the writes delivered so far
    returned: ByteString,       // history: the bytes handed to the reader so far
    messages: seq<ByteString>)  // history: what `ReadMsg` returned, one by one

  function Start(): Flow {
    Flow(false, false, [], [], [], [])
  }

  datatype Op = Read(n: nat, offer: Option<ByteString>) | ReadMsg(offer: Option<ByteString>) | CloseReader | CloseWriter

  /** A read at an empty end needs a partner: a write of an open peer, or the peer's close. */
  predicate Enabled(f: Flow, op: Op) {
    match op
    case Read(_, offer) => f.readerClosed || f.left != [] || (offer.None? <==> f.writerClosed)
    case ReadMsg(offer) => f.readerClosed || f.left != [] || (offer.None? <==> f.writerClosed)
    case _ => true
  }

  function ResultOf(f: Flow, op: Op): Option<Result> {
    match op
    case Read(n, offer) => Some(ReadStep(true, f.readerClosed, f.left, n, offer).1)
    case ReadMsg(offer) => Some(ReadMsgStep(true, f.readerClosed, f.left, offer).1)
    case _ => None
  }

  /** The write a read consumes from the channel, if it goes there. */
  function Consumed(f: Flow, offer: Option<ByteString>): seq<ByteString> {
    if !f.readerClosed && f.left == [] && offer.Some? then [offer.value] else []
  }

  function Apply(f: Flow, op: Op): Flow {
    match op
    case Read(n, offer) =>
      var (left, r) := ReadStep(true, f.readerClosed, f.left, n, offer);
      f.(left := left, writes := f.writes + Consumed(f, offer),
         returned := f.returned + (match r case Data(bytes) => bytes case Failed(_) => []))
    case ReadMsg(offer) =>
      var (left, r) := ReadMsgStep(true, f.readerClosed, f.left, offer);
      (match r
       case Failed(_) => f
       case Data(bytes) =>
         f.(left := left, writes := f.writes + Consumed(f, offer),
            returned := f.returned + bytes, messages := f.messages + [bytes]))
    case CloseReader => f.(readerClosed := true)
    case CloseWriter => f.(writerClosed := true)
  }

  ghost predicate Runs(f: Flow, ops: seq<Op>, g: Flow)
    decreases |ops|
  {
    if ops == [] then f == g else Enabled(f, ops[0]) && Runs(Apply(f, ops[0]), ops[1..], g)
  }

  function Flatten(ws: seq<ByteString>): ByteString {
    if ws == [] then [] else ws[0] + Flatten(ws[1..])
  }

  lemma {:induction false} FlattenSnoc(ws: seq<ByteString>, w: ByteString)
    ensures Flatten(ws + [w]) == Flatten(ws) + w
  {
    if ws == [] {
      assert ws + [w] == [w];
      assert [w][1..] == [];
    } else {
      assert (ws + [w])[1..] == ws[1..] + [w];
      FlattenSnoc(ws[1..], w);
      assert ws[0] + (Flatten(ws[1..]) + w) == ws[0] + Flatten(ws[1..]) + w;
    }
  }

  /** The bytes returned and those left over are exactly the bytes written. */
  predicate Conserved(f: Flow) {
    f.returned + f.left == Flatten(f.writes)
  }

  /** A read at an end that is open takes its chunk from the left-over bytes or from a write. */
  lemma {:induction false} ConservedByRead(f: Flow, k: nat, offer: Option<ByteString>)
    requires Conserved(f) && (f.left != [] || offer.Some?)
    requires var chunk := if f.left == [] then offer.value else f.left; k <= |chunk|
    ensures var chunk := if f.left == [] then offer.value else f.left;
            var writes := f.writes + (if f.left == [] then [offer.value] else []);
            f.returned + chunk[..k] + chunk[k..] == Flatten(writes)
  {
    var chunk := if f.left == [] then offer.value else f.left;
    ChunkSplit(f.returned, chunk, k);
    if f.left == [] {
      FlattenSnoc(f.writes, offer.value);
      assert f.returned + [] == f.returned;
    } else {
      assert f.writes + [] == f.writes;
    }
  }

  lemma {:induction false} ConservedKept(f: Flow, op: Op)
    requires Conserved(f)
    ensures Conserved(Apply(f, op))
  {
    match op {
      case Read(n, offer) => ConservedByReadStep(f, n, offer);
      case ReadMsg(offer) => ConservedByReadMsgStep(f, offer);
      case _ =>
    }
  }

  lemma {:induction false} NothingAdded(f: Flow)
    ensures f.writes + [] == f.writes && f.returned + [] == f.returned
  {
  }

  lemma {:induction false} ConservedByReadStep(f: Flow, n: nat, offer: Option<ByteString>)
    requires Conserved(f)
    ensures Conserved(Apply(f, Read(n, offer)))
  {
    NothingAdded(f);
    if !f.readerClosed && (f.left != [] || offer.Some?) {
      var chunk := if f.left == [] then offer.value else f.left;
      ConservedByRead(f, Min(n, |chunk|), offer);
    }
  }

  lemma {:induction false} ConservedByReadMsgStep(f: Flow, offer: Option<ByteString>)
    requires Conserved(f)
    ensures Conserved(Apply(f, ReadMsg(offer)))
  {
    NothingAdded(f);
    if !f.readerClosed && (f.left != [] || offer.Some?) {
      var chunk := if f.left == [] then offer.value else f.left;
      ConservedByRead(f, |chunk|, offer);
      assert chunk[..|chunk|] == chunk && chunk[|chunk|..] == [];
    }
  }

  lemma {:induction false} ChunkSplit(returned: ByteString, chunk: ByteString, k: nat)
    requires k <= |chunk|
    ensures returned + chunk[..k] + chunk[k..] == returned + chunk
  {
  }

  /** For every interleaving of `Read`, with buffers of any size, `ReadMsg` and closes. */
  lemma {:induction false} StreamRefinement(f: Flow, ops: seq<Op>, g: Flow)
    requires Conserved(f) && Runs(f, ops, g)
    ensures Conserved(g)
    decreases |ops|
  {
    if ops != [] {
      ConservedKept(f, ops[0]);
      StreamRefinement(Apply(f, ops[0]), ops[1..], g);
    }
  }

  /** The end of the stream is reported exactly when an open reader has drained a closed writer. */
  lemma {:induction false} EofOnlyAfterDrained(ops: seq<Op>, f: Flow, op: Op)
    requires Runs(Start(), ops, f) && (op.Read? || op.ReadMsg?) && Enabled(f, op)
    ensures ResultOf(f, op) == Some(Failed(Eof)) <==>
            !f.readerClosed && f.writerClosed && f.returned == Flatten(f.writes)
  {
    StreamRefinement(Start(), ops, f);
    assert f.returned == Flatten(f.writes) <==> f.left == [] by {
      assert |f.returned| + |f.left| == |Flatten(f.writes)|;
      if f.left == [] {
        assert f.returned + f.left == f.returned;
      }
    }
  }

  /** With `ReadMsg` alone a write is a message: the messages are the writes, one by one, empty ones too. */
  lemma {:induction false} MessagesAreWrites(f: Flow, ops: seq<Op>, g: Flow)
    requires Runs(f, ops, g) && (forall i :: 0 <= i < |ops| ==> !ops[i].Read?)
    requires f.left == [] && f.messages == f.writes
    ensures g.left == [] && g.messages == g.writes
    decreases |ops|
  {
    if ops != [] {
      MessagesAreWrites(Apply(f, ops[0]), ops[1..], g);
    }
  }

  // ---------- the connection object ----------

  /** A slice of a buffer; the empty slice has none. */
  datatype Slice = Slice(buf: array?<Byte>, lo: nat, hi: nat)

  const NO_BYTES := Slice(null, 0, 0)

  ghost predicate SliceOk(s: Slice) {
    s.lo <= s.hi && if s.buf == null then s.hi == 0 else s.hi <= s.buf.Length
  }

  ghost function Contents(s: Slice): ByteString
    requires SliceOk(s)
    reads s.buf
  {
    if s.buf == null then [] else s.buf[s.lo..s.hi]
  }

  ghost function Offered(got: Option<Slice>): Option<ByteString>
    requires got.Some? ==> SliceOk(got.value)
    reads if got.Some? then {got.value.buf} else {}
  {
    if got.Some? then Some(Contents(got.value)) else None
  }

  /** `copy`: as much of the slice as the buffer holds. */
  method Copy(p: array<Byte>, src: Slice) returns (n: nat)
    requires SliceOk(src) && src.buf != p
    modifies p
    ensures n == Min(p.Length, |Contents(src)|)
    ensures p[..n] == Contents(src)[..n] && p[n..] == old(p[n..])
  {
    n := Min(p.Length, src.hi - src.lo);
    for i := 0 to n
      invariant p[..i] == Contents(src)[..i]
      invariant p[n..] == old(p[n..])
    {
      p[i] := src.buf[src.lo + i];
      assert p[..i + 1] == p[..i] + [p[i]];
      assert Contents(src)[..i + 1] == Contents(src)[..i] + [p[i]];
    }
  }

  /** `slice(n, -1)`: the same buffer, further on. */
  function Drop(s: Slice, n: nat): (t: Slice)
    requires SliceOk(s) && n <= |Contents(s)|
    reads s.buf
    ensures SliceOk(t) && t.buf == s.buf && Contents(t) == Contents(s)[n..]
  {
    if s.buf == null then s else Slice(s.buf, s.lo + n, s.hi)
  }

  /** What fits of a slice, and the rest of it. */
  method Take(p: array<Byte>, src: Slice) returns (n: nat, rest: Slice)
    requires SliceOk(src) && src.buf != p
    modifies p
    ensures n == Min(p.Length, |Contents(src)|) && p[..n] == Contents(src)[..n] && p[n..] == old(p[n..])
    ensures Contents(src) == old(Contents(src))
    ensures SliceOk(rest) && rest.buf == src.buf && Contents(rest) == Contents(src)[n..]
  {
    n := Copy(p, src);
    rest := Drop(src, n);
  }

  class Conn {
    var valid: bool
    var closed: bool
    var leftover: Slice

    constructor Connected()
      ensures valid && !closed && leftover == NO_BYTES
    {
      valid, closed, leftover := true, false, NO_BYTES;
    }

    /** Up to the channel send: the slice that is sent is a fresh copy, out of reach of the writer's buffer. */
    method Write(p: array<Byte>) returns (item: Option<Slice>, failure: Option<Err>)
      ensures failure == if !valid then Some(NotSupported) else if closed then Some(ClosedPipe) else None
      ensures item.Some? <==> failure.None?
      ensures item.Some? ==> item.value.buf != null && fresh(item.value.buf)
      ensures item.Some? ==> SliceOk(item.value) && Contents(item.value) == p[..]
    {
      if !valid {
        return None, Some(NotSupported);
      }
      if closed {
        return None, Some(ClosedPipe);
      }
      var cp := new Byte[p.Length];
      forall i | 0 <= i < p.Length {
        cp[i] := p[i];
      }
      assert cp[..] == p[..];
      return Some(Slice(cp, 0, p.Length)), None;
    }

    /** `got` is what the channel yields if it is asked: the peer's slice, or None from a closed channel. */
    method Read(p: array<Byte>, got: Option<Slice>) returns (n: nat, failure: Option<Err>)
      requires SliceOk(leftover) && leftover.buf != p
      requires got.Some? ==> SliceOk(got.value) && got.value.buf != p
      modifies `leftover, p
      ensures SliceOk(leftover) && leftover.buf != p
      ensures leftover.buf == old(leftover.buf) || (got.Some? && leftover.buf == got.value.buf)
      ensures n <= p.Length && p[n..] == old(p[n..])
      ensures (Contents(leftover), if failure.Some? then Failed(failure.value) else Data(p[..n]))
              == ReadStep(valid, closed, old(Contents(leftover)), p.Length, old(Offered(got)))
    {
      if !valid {
        return 0, Some(NotSupported);
      }
      if closed {
        return 0, Some(ClosedPipe);
      }
      ghost var before := Contents(leftover);
      if leftover.hi - leftover.lo == 0 {
        assert before == [];
        if got.None? {
          return 0, Some(Eof);
        }
        leftover := got.value;
      }
      assert Contents(leftover) == if before == [] then Offered(got).value else before;
      n, leftover := Take(p, leftover);
      return n, None;
    }

    method ReadMsg(got: Option<Slice>) returns (msg: Slice, failure: Option<Err>)
      requires SliceOk(leftover) && (got.Some? ==> SliceOk(got.value))
      modifies `leftover
      ensures SliceOk(leftover) && SliceOk(msg) && leftover.buf in {old(leftover.buf), null}
      ensures (Contents(leftover), if failure.Some? then Failed(failure.value) else Data(Contents(msg)))
              == ReadMsgStep(valid, closed, old(Contents(leftover)), old(Offered(got)))
    {
      if !valid {
        return NO_BYTES, Some(NotSupported);
      }
      if closed {
        return NO_BYTES, Some(ClosedPipe);
      }
      ghost var before := Contents(leftover);
      if leftover.hi - leftover.lo == 0 {
        assert before == [];
        if got.None? {
          return NO_BYTES, Some(Eof);
        }
        leftover := got.value;
      }
      assert Contents(leftover) == if before == [] then Offered(got).value else before;
      msg := leftover;
      leftover := NO_BYTES;
      return msg, None;
    }

    /** True in `closes` when this call closes the sending channel: the first close of a valid end. */
    method Close() returns (closes: bool, failure: Option<Err>)
      modifies `closed
      ensures failure == if valid then None else Some(NotSupported)
      ensures closes <==> valid && !old(closed)
      ensures closed == (old(closed) || valid)
    {
      if !valid {
        return false, Some(NotSupported);
      }
      if closed {
        return false, None;
      }
      closed := true;
      return true, None;
    }
  }

  /** A connection whose left-over bytes are those of the flow it reads. */
  ghost predicate Reads(c: Conn, f: Flow)
    reads c, c.leftover.buf
  {
    c.valid && SliceOk(c.leftover) && Contents(c.leftover) == f.left && c.closed == f.readerClosed
  }

  lemma {:induction false} FlagsKept(f: Flow, op: Op)
    requires op.Read? || op.ReadMsg?
    ensures Apply(f, op).readerClosed == f.readerClosed && Apply(f, op).writerClosed == f.writerClosed
  {
  }

  /** `Read` as a step of the flow. */
  method ReadEnd(c: Conn, q: array<Byte>, item: Option<Slice>, ghost f: Flow, ghost offer: Option<ByteString>)
    returns (n: nat, failure: Option<Err>)
    requires Reads(c, f) && Conserved(f) && c.leftover.buf != q
    requires (item.Some? ==> SliceOk(item.value) && item.value.buf != q) && Offered(item) == offer
    modifies c`leftover, q
    ensures Reads(c, Apply(f, Read(q.Length, offer))) && Conserved(Apply(f, Read(q.Length, offer)))
    ensures c.leftover.buf != q
    ensures c.leftover.buf == old(c.leftover.buf) || (item.Some? && c.leftover.buf == item.value.buf)
    ensures n <= q.Length && q[n..] == old(q[n..])
    ensures ResultOf(f, Read(q.Length, offer)) == Some(if failure.Some? then Failed(failure.value) else Data(q[..n]))
  {
    ConservedKept(f, Read(q.Length, offer));
    n, failure := c.Read(q, item);
  }

  method ReadMsgEnd(c: Conn, item: Option<Slice>, ghost f: Flow, ghost offer: Option<ByteString>)
    returns (msg: Slice, failure: Option<Err>)
    requires Reads(c, f) && Conserved(f)
    requires (item.Some? ==> SliceOk(item.value)) && Offered(item) == offer
    modifies c`leftover
    ensures Reads(c, Apply(f, ReadMsg(offer))) && Conserved(Apply(f, ReadMsg(offer)))
    ensures c.leftover.buf in {old(c.leftover.buf), null} && SliceOk(msg)
    ensures ResultOf(f, ReadMsg(offer)) == Some(if failure.Some? then Failed(failure.value) else Data(Contents(msg)))
  {
    ConservedKept(f, ReadMsg(offer));
    msg, failure := c.ReadMsg(item);
  }

  /** `Pipe`: two connected ends, and the flow of each direction as history. */
  class Duplex {
    const a: Conn
    const b: Conn
    ghost var toA: Flow
    ghost var toB: Flow

    ghost function FlowTo(atB: bool): Flow
      reads this
    {
      if atB then toB else toA
    }

    function Reader(atB: bool): Conn {
      if atB then b else a
    }

    /** The buffer is not one behind left-over bytes; those are copies that no caller has. */
    ghost predicate Apart(p: array<Byte>)
      reads a, b
    {
      p != a.leftover.buf && p != b.leftover.buf
    }

    /** An end agrees with the direction it reads and the one it writes. */
    ghost predicate EndOk(atB: bool)
      reads this, a, b, a.leftover.buf, b.leftover.buf
    {
      var c := Reader(atB);
      && c.valid && SliceOk(c.leftover) && Contents(c.leftover) == FlowTo(atB).left
      && c.closed == FlowTo(atB).readerClosed == FlowTo(!atB).writerClosed
    }

    ghost predicate Valid()
      reads this, a, b, a.leftover.buf, b.leftover.buf
    {
      a != b && EndOk(true) && EndOk(false) && Conserved(toA) && Conserved(toB)
    }

    constructor ()
      ensures Valid() && toA == Start() && toB == Start()
      ensures fresh(a) && fresh(b)
    {
      a := new Conn.Connected();
      b := new Conn.Connected();
      toA, toB := Start(), Start();
    }

    /** The flow of one direction moves on, the other stays. */
    ghost method Record(atB: bool, g: Flow)
      modifies this
      ensures FlowTo(atB) == g && FlowTo(!atB) == old(FlowTo(!atB))
    {
      if atB {
        toB := g;
      } else {
        toA := g;
      }
    }

    /** A read that needs the channel meets the peer's `Write` of `writing`, or the peer's close. */
    ghost predicate Ready(atB: bool, writing: array?<Byte>)
      reads this
    {
      var f := FlowTo(atB);
      if writing == null then f.readerClosed || f.left != [] || f.writerClosed
      else !f.readerClosed && f.left == [] && !f.writerClosed
    }

    /** What the peer sends: the private copy its `Write` makes. */
    method Sent(atB: bool, writing: array?<Byte>) returns (item: Option<Slice>)
      requires Valid() && Ready(atB, writing)
      ensures item.Some? <==> writing != null
      ensures item.Some? ==> SliceOk(item.value) && item.value.buf != null && fresh(item.value.buf)
      ensures item.Some? ==> Contents(item.value) == writing[..]
    {
      if writing == null {
        return None;
      }
      assert EndOk(!atB);
      var failure;
      item, failure := Reader(!atB).Write(writing);
    }

    /**
      `Read` at one end, with the `Write` it meets: whatever callers do with
      their own buffers afterwards, every byte returned or left over is a byte
      that was written.
     */
    method Read(atB: bool, q: array<Byte>, writing: array?<Byte>) returns (n: nat, failure: Option<Err>)
      requires Valid() && Ready(atB, writing) && Apart(q)
      modifies this, Reader(atB)`leftover, q
      ensures Valid() && Apart(q)
      ensures Reader(atB).leftover.buf == old(Reader(atB).leftover.buf) || fresh(Reader(atB).leftover.buf)
      ensures n <= q.Length && q[n..] == old(q[n..])
      ensures var op := Op.Read(q.Length, if writing == null then None else Some(old(writing[..])));
              && Enabled(old(FlowTo(atB)), op)
              && FlowTo(atB) == Apply(old(FlowTo(atB)), op) && FlowTo(!atB) == old(FlowTo(!atB))
              && ResultOf(old(FlowTo(atB)), op) ==
                 Some(if failure.Some? then Failed(failure.value) else Data(q[..n]))
    {
      assert EndOk(atB) && EndOk(!atB);
      ghost var offer := if writing == null then None else Some(writing[..]);
      var item := Sent(atB, writing);
      ghost var f, op := FlowTo(atB), Op.Read(q.Length, offer);
      ghost var other := Contents(Reader(!atB).leftover);
      FlagsKept(f, op);
      Record(atB, Apply(f, op));
      n, failure := ReadEnd(Reader(atB), q, item, f, offer);
      assert Contents(Reader(!atB).leftover) == other;
    }

    /** `ReadMsg` at one end: the message is handed over with its buffer. */
    method ReadMsg(atB: bool, writing: array?<Byte>) returns (msg: Slice, failure: Option<Err>)
      requires Valid() && Ready(atB, writing)
      modifies this, Reader(atB)`leftover
      ensures Valid() && SliceOk(msg) && Reader(atB).leftover.buf in {old(Reader(atB).leftover.buf), null}
      ensures var op := Op.ReadMsg(if writing == null then None else Some(old(writing[..])));
              && Enabled(old(FlowTo(atB)), op)
              && FlowTo(atB) == Apply(old(FlowTo(atB)), op) && FlowTo(!atB) == old(FlowTo(!atB))
              && ResultOf(old(FlowTo(atB)), op) ==
                 Some(if failure.Some? then Failed(failure.value) else Data(Contents(msg)))
    {
      assert EndOk(atB) && EndOk(!atB);
      ghost var offer := if writing == null then None else Some(writing[..]);
      var item := Sent(atB, writing);
      ghost var f, op := FlowTo(atB), Op.ReadMsg(offer);
      FlagsKept(f, op);
      Record(atB, Apply(f, op));
      msg, failure := ReadMsgEnd(Reader(atB), item, f, offer);
    }

    /** Closing an end stops its reads and ends the peer's stream. */
    method Close(atB: bool) returns (failure: Option<Err>)
      requires Valid()
      modifies this, Reader(atB)`closed
      ensures Valid() && failure.None?
      ensures FlowTo(atB) == Apply(old(FlowTo(atB)), CloseReader)
      ensures FlowTo(!atB) == Apply(old(FlowTo(!atB)), CloseWriter)
    {
      assert EndOk(atB) && EndOk(!atB);
      var closes;
      closes, failure := Reader(atB).Close();
      Record(atB, Apply(FlowTo(atB), CloseReader));
      Record(!atB, Apply(FlowTo(!atB), CloseWriter));
    }
  }

  /** A writer may reuse its buffer at once: the rest of the stream is still what it wrote before. */
  method ReusedBuffer(pipe: Duplex, p: array<Byte>, q: array<Byte>, c: Byte) returns (n: nat, m: nat)
    requires pipe.Valid() && pipe.Ready(true, p) && pipe.Apart(p) && pipe.Apart(q) && p != q
    requires 0 < q.Length < p.Length
    modifies pipe, pipe.b`leftover, p, q
    ensures pipe.Valid() && p.Length > 0 && p[0] == c
    ensures n == q.Length && m == Min(q.Length, p.Length - n)
    ensures q[..m] == old(p[..])[n..n + m]
  {
    ghost var f, was := pipe.FlowTo(true), p[..];
    TwoReads(f, was, q.Length);
    var failure;
    n, failure := pipe.Read(true, q, p);
    assert n == |q[..n]|;
    p[0] := c;
    m, failure := pipe.Read(true, q, null);
    assert m == |q[..m]|;
  }

  /** A write read in two parts. */
  lemma {:induction false} TwoReads(f: Flow, was: ByteString, k: nat)
    requires !f.readerClosed && f.left == [] && 0 < k < |was|
    ensures ResultOf(f, Read(k, Some(was))) == Some(Data(was[..k]))
    ensures var g := Apply(f, Read(k, Some(was)));
            && g.left == was[k..] != [] && !g.readerClosed
            && ResultOf(g, Read(k, None)) == Some(Data(was[k..k + Min(k, |was| - k)]))
  {
    var rest := was[k..];
    assert rest[..Min(k, |rest|)] == was[k..k + Min(k, |was| - k)];
  }
}

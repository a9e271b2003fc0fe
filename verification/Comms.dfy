/**
  Typed records over a fragmenting byte pipe (src/s2/comms.cc on the transfer
  loops of src/s2/os_posix.cc and src/s2/os_win.cc).

  One call of the operating system moves part of what is asked for; a script
  of `Io` results says what each call does, and is arbitrary.  An exhausted
  script is a call that never returns data again.
 */
module Comms {
  import opened Options
  import opened Bytes
  import opened Fields

  datatype Os = Posix | Windows
  datatype Io = Moved(n: nat) | Interrupted | Broken

  // ---------- the transfer loops ----------

  /** How many of `n` wanted bytes a loop moves when `avail` bytes can be moved at all. */
  function Transferred(os: Os, io: seq<Io>, n: nat, avail: nat): (k: nat)
    ensures k <= n && k <= avail
    decreases |io|
  {
    if n == 0 || io == [] then 0
    else match io[0]
      case Broken => 0
      case Interrupted => if os.Posix? then Transferred(os, io[1..], n, avail) else 0
      case Moved(k) =>
        var m := Min(k, Min(n, avail));
        if m == 0 || (os.Windows? && k > n) then 0 else m + Transferred(os, io[1..], n - m, avail - m)
  }

  /** The script moves all `n` bytes, in whatever pieces. */
  predicate Delivers(os: Os, io: seq<Io>, n: nat) {
    Transferred(os, io, n, n) == n
  }

  lemma {:induction false} AvailabilityIrrelevant(os: Os, io: seq<Io>, n: nat, avail: nat)
    requires avail >= n
    ensures Transferred(os, io, n, avail) == Transferred(os, io, n, n)
    decreases |io|
  {
    if n > 0 && io != [] {
      match io[0] {
        case Broken =>
        case Interrupted => AvailabilityIrrelevant(os, io[1..], n, avail);
        case Moved(k) =>
          var m := Min(k, n);
          if m > 0 {
            AvailabilityIrrelevant(os, io[1..], n - m, avail - m);
          }
      }
    }
  }

  // ---------- what a script moves ----------

  function Offered(io: seq<Io>): nat {
    if io == [] then 0 else (match io[0] case Moved(k) => k case _ => 0) + Offered(io[1..])
  }

  /** No call of the script ends a POSIX loop: data, or an interruption, which is retried. */
  predicate KeepsGoing(io: seq<Io>) {
    forall i :: 0 <= i < |io| ==> io[i].Interrupted? || (io[i].Moved? && io[i].n > 0)
  }

  /** All that is offered arrives, as far as it is wanted and there. */
  lemma {:induction false} PosixMoves(io: seq<Io>, n: nat, avail: nat)
    requires KeepsGoing(io)
    ensures Transferred(Posix, io, n, avail) == Min(Offered(io), Min(n, avail))
    decreases |io|
  {
    if io != [] && n > 0 {
      match io[0] {
        case Interrupted => PosixMoves(io[1..], n, avail);
        case Moved(k) =>
          var m := Min(k, Min(n, avail));
          PosixMoves(io[1..], n - m, avail - m);
      }
    }
  }

  /** A failing call, or one without data, ends the loop where it is. */
  lemma {:induction false} PosixStops(io: seq<Io>, stop: Io, more: seq<Io>, n: nat, avail: nat)
    requires stop.Broken? || stop == Moved(0)
    ensures Transferred(Posix, io + [stop] + more, n, avail) == Transferred(Posix, io, n, avail)
    decreases |io|
  {
    var all := io + [stop] + more;
    if io == [] {
      assert all[0] == stop;
    } else if n > 0 {
      assert all[0] == io[0] && all[1..] == io[1..] + [stop] + more;
      match io[0] {
        case Broken =>
        case Interrupted => PosixStops(io[1..], stop, more, n, avail);
        case Moved(k) =>
          var m := Min(k, Min(n, avail));
          PosixStops(io[1..], stop, more, n - m, avail - m);
      }
    }
  }

  /** On Windows data in pieces that together are not more than wanted. */
  lemma {:induction false} WindowsMoves(io: seq<Io>, n: nat, avail: nat)
    requires (forall i :: 0 <= i < |io| ==> io[i].Moved? && io[i].n > 0) && Offered(io) <= n
    ensures Transferred(Windows, io, n, avail) == Min(Offered(io), avail)
    decreases |io|
  {
    if io != [] && n > 0 {
      var m := Min(io[0].n, Min(n, avail));
      if m > 0 && m == io[0].n {
        WindowsMoves(io[1..], n - m, avail - m);
      } else if m > 0 {
        NothingLeft(Windows, io[1..], n - m);
      }
    }
  }

  lemma {:induction false} NothingLeft(os: Os, io: seq<Io>, n: nat)
    ensures Transferred(os, io, n, 0) == 0
    decreases |io|
  {
    if io != [] && io[0].Interrupted? && os.Posix? {
      NothingLeft(os, io[1..], n);
    }
  }

  /** There any failure ends the loop, an interruption and a piece that is too long included. */
  lemma {:induction false} WindowsStops(io: seq<Io>, stop: Io, more: seq<Io>, n: nat, avail: nat)
    requires !stop.Moved? || stop.n == 0 || stop.n > n - Transferred(Windows, io, n, avail)
    ensures Transferred(Windows, io + [stop] + more, n, avail) == Transferred(Windows, io, n, avail)
    decreases |io|
  {
    var all := io + [stop] + more;
    if io == [] {
      assert all[0] == stop;
    } else if n > 0 {
      assert all[0] == io[0] && all[1..] == io[1..] + [stop] + more;
      match io[0] {
        case Broken =>
        case Interrupted =>
        case Moved(k) =>
          var m := Min(k, Min(n, avail));
          if m > 0 && k <= n {
            WindowsStops(io[1..], stop, more, n - m, avail - m);
          }
      }
    }
  }

  // ---------- the loops ----------

  /** After `call` calls `b` bytes have moved, and the rest of the script moves the rest. */
  ghost predicate Moving(os: Os, io: seq<Io>, n: nat, avail: nat, call: nat, b: nat) {
    && call <= |io| && b <= n && b <= avail
    && Transferred(os, io, n, avail) == b + Transferred(os, io[call..], n - b, avail - b)
  }

  lemma {:induction false} Starts(os: Os, io: seq<Io>, n: nat, avail: nat)
    ensures Moving(os, io, n, avail, 0, 0)
  {
    assert io[0..] == io;
  }

  /** How much of the wanted bytes a call moves; zero ends the loop. */
  function Piece(os: Os, k: nat, left: nat, avail: nat): nat {
    if os.Windows? && k > left then 0 else Min(k, Min(left, avail))
  }

  lemma {:induction false} Goes(os: Os, io: seq<Io>, n: nat, avail: nat, call: nat, b: nat)
    requires Moving(os, io, n, avail, call, b) && call < |io| && b < n
    requires io[call].Moved? && Piece(os, io[call].n, n - b, avail - b) > 0
    ensures Moving(os, io, n, avail, call + 1, b + Piece(os, io[call].n, n - b, avail - b))
  {
    assert io[call..][1..] == io[call + 1..];
  }

  lemma {:induction false} Retries(os: Os, io: seq<Io>, n: nat, avail: nat, call: nat, b: nat)
    requires Moving(os, io, n, avail, call, b) && call < |io| && b < n
    requires io[call].Interrupted? && os.Posix?
    ensures Moving(os, io, n, avail, call + 1, b)
  {
    assert io[call..][1..] == io[call + 1..];
  }

  /** The call after which a loop gives up, or none is left to make, or all has moved. */
  ghost predicate Ending(os: Os, io: seq<Io>, n: nat, avail: nat, call: nat, b: nat)
    requires Moving(os, io, n, avail, call, b)
  {
    || b == n || call == |io| || io[call].Broken? || (io[call].Interrupted? && os.Windows?)
    || (io[call].Moved? && Piece(os, io[call].n, n - b, avail - b) == 0)
  }

  lemma {:induction false} Ends(os: Os, io: seq<Io>, n: nat, avail: nat, call: nat, b: nat)
    requires Moving(os, io, n, avail, call, b) && Ending(os, io, n, avail, call, b)
    ensures Transferred(os, io, n, avail) == b
  {
  }

  method PosixWrite(p: ByteString, io: seq<Io>) returns (ok: bool, sent: ByteString)
    ensures sent == p[..Transferred(Posix, io, |p|, |p|)]
    ensures ok <==> Delivers(Posix, io, |p|)
  {
    var b: nat, left: nat, call: nat := 0, |p|, 0;
    Starts(Posix, io, |p|, |p|);
    while left > 0
      invariant b + left == |p| && Moving(Posix, io, |p|, |p|, call, b)
      decreases |io| - call
    {
      if call == |io| {
        Ends(Posix, io, |p|, |p|, call, b);
        return false, p[..b];
      }
      var result := io[call];
      if result.Interrupted? {
        Retries(Posix, io, |p|, |p|, call, b);
        call := call + 1;
        continue;
      }
      if result.Broken? {
        Ends(Posix, io, |p|, |p|, call, b);
        return false, p[..b];
      }
      var nout := Min(result.n, left);
      if nout == 0 {
        Ends(Posix, io, |p|, |p|, call, b);
        return false, p[..b];
      }
      Goes(Posix, io, |p|, |p|, call, b);
      call := call + 1;
      b := b + nout;
      left := left - nout;
    }
    Ends(Posix, io, |p|, |p|, call, b);
    return true, p[..b];
  }

  method WinWrite(p: ByteString, io: seq<Io>) returns (ok: bool, sent: ByteString)
    ensures sent == p[..Transferred(Windows, io, |p|, |p|)]
    ensures ok <==> Delivers(Windows, io, |p|)
  {
    var b: nat, left: nat, call: nat := 0, |p|, 0;
    Starts(Windows, io, |p|, |p|);
    while left > 0
      invariant b + left == |p| && Moving(Windows, io, |p|, |p|, call, b)
      decreases |io| - call
    {
      if call == |io| || !io[call].Moved? || io[call].n == 0 || io[call].n > left {
        Ends(Windows, io, |p|, |p|, call, b);
        return false, p[..b];
      }
      Goes(Windows, io, |p|, |p|, call, b);
      b := b + io[call].n;
      left := left - io[call].n;
      call := call + 1;
    }
    Ends(Windows, io, |p|, |p|, call, b);
    return true, p[..b];
  }

  method PosixRead(p: array<Byte>, input: ByteString, io: seq<Io>) returns (ok: bool, rest: ByteString)
    modifies p
    ensures var k := Transferred(Posix, io, p.Length, |input|);
            p[..k] == input[..k] && rest == input[k..] && (ok <==> k == p.Length)
  {
    var b: nat, left: nat, call: nat := 0, p.Length, 0;
    Starts(Posix, io, p.Length, |input|);
    while left > 0
      invariant b + left == p.Length && Filled(p, b, input)
      invariant Moving(Posix, io, p.Length, |input|, call, b)
      decreases |io| - call
    {
      if call == |io| {
        ReadEnds(Posix, p, input, io, call, b);
        return false, input[b..];
      }
      var result := io[call];
      if result.Interrupted? {
        Retries(Posix, io, p.Length, |input|, call, b);
        call := call + 1;
        continue;
      }
      if result.Broken? {
        ReadEnds(Posix, p, input, io, call, b);
        return false, input[b..];
      }
      var nin := Min(result.n, Min(left, |input| - b));
      if nin == 0 {
        ReadEnds(Posix, p, input, io, call, b);
        return false, input[b..];
      }
      Goes(Posix, io, p.Length, |input|, call, b);
      call := call + 1;
      Fill(p, b, input, nin);
      b := b + nin;
      left := left - nin;
    }
    ReadEnds(Posix, p, input, io, call, b);
    return true, input[b..];
  }

  method WinRead(p: array<Byte>, input: ByteString, io: seq<Io>) returns (ok: bool, rest: ByteString)
    modifies p
    ensures var k := Transferred(Windows, io, p.Length, |input|);
            p[..k] == input[..k] && rest == input[k..] && (ok <==> k == p.Length)
  {
    var b: nat, left: nat, call: nat := 0, p.Length, 0;
    Starts(Windows, io, p.Length, |input|);
    while left > 0
      invariant b + left == p.Length && Filled(p, b, input)
      invariant Moving(Windows, io, p.Length, |input|, call, b)
      decreases |io| - call
    {
      if call == |io| {
        break;
      }
      var result := io[call];
      if !result.Moved? || result.n > left {
        break;
      }
      var nin := Min(result.n, |input| - b);
      assert nin == Piece(Windows, result.n, left, |input| - b);
      if nin == 0 {
        break;
      }
      Goes(Windows, io, p.Length, |input|, call, b);
      call := call + 1;
      Fill(p, b, input, nin);
      b := b + nin;
      left := left - nin;
    }
    ReadEnds(Windows, p, input, io, call, b);
    return left == 0, input[b..];
  }

  /** The operating system copies the next `n` bytes of the pipe behind the pointer. */
  method Fill(p: array<Byte>, b: nat, input: ByteString, n: nat)
    requires b + n <= p.Length && b + n <= |input| && Filled(p, b, input)
    modifies p
    ensures Filled(p, b + n, input)
  {
    for i := 0 to n
      invariant Filled(p, b + i, input)
    {
      p[b + i] := input[b + i];
    }
  }

  lemma {:induction false} ReadEnds(os: Os, p: array<Byte>, input: ByteString, io: seq<Io>, call: nat, b: nat)
    requires Moving(os, io, p.Length, |input|, call, b) && Ending(os, io, p.Length, |input|, call, b)
    requires Filled(p, b, input)
    ensures var k := Transferred(os, io, p.Length, |input|); p[..k] == input[..k] && k == b
  {
    Ends(os, io, p.Length, |input|, call, b);
  }

  /** The first `b` bytes of the buffer are those of the input. */
  ghost predicate Filled(p: array<Byte>, b: nat, input: ByteString)
    reads p
  {
    b <= p.Length && b <= |input| && forall i :: 0 <= i < b ==> p[i] == input[i]
  }

  // ---------- records ----------

  const MAX_MSG: U32 := 0x100_0000

  datatype Tlv = Tlv(tag: U32, data: ByteString)

  predicate Fits(r: Tlv) {
    |r.data| < 0x1_0000_0000
  }

  function Header(r: Tlv): (h: ByteString)
    requires Fits(r)
    ensures |h| == 8
  {
    PutU32(r.tag) + PutU32(|r.data|)
  }

  function Record(r: Tlv): ByteString
    requires Fits(r)
  {
    Header(r) + r.data
  }

  function Wire(rs: seq<Tlv>): ByteString
    requires forall i :: 0 <= i < |rs| ==> Fits(rs[i])
  {
    if rs == [] then [] else Record(rs[0]) + Wire(rs[1..])
  }

  /** One end of the channel: its two handles, its limit, what is still to be read and what was written. */
  datatype End = End(os: Os, readable: bool, writable: bool, max: U32, input: ByteString, out: ByteString)

  function Close(e: End): End {
    e.(readable := false, writable := false)
  }

  /** `SendTLV`: nothing for an oversize value, otherwise the header and then the data. */
  function Send(e: End, r: Tlv, io1: seq<Io>, io2: seq<Io>): (End, bool) {
    if |r.data| > e.max || !e.writable then (e, false)
    else
      var k := Transferred(e.os, io1, 8, 8);
      var e1 := e.(out := e.out + Header(r)[..k]);
      if k < 8 then (e1, false)
      else
        var m := Transferred(e.os, io2, |r.data|, |r.data|);
        (e1.(out := e1.out + r.data[..m]), m == |r.data|)
  }

  /** `RecvTLV`; without a place for the value only the header is consumed. */
  function Recv(e: End, wantValue: bool, io1: seq<Io>, io2: seq<Io>): (End, Option<Tlv>) {
    if !e.readable then (e, None)
    else
      var k := Transferred(e.os, io1, 8, |e.input|);
      var e1 := e.(input := e.input[k..]);
      if k < 8 || !wantValue then (e1, None)
      else
        var tag, n := GetU32(e.input[..4]), GetU32(e.input[4..8]);
        if n > e.max then (Close(e1), None)
        else
          var m := Transferred(e.os, io2, n, |e1.input|);
          (e1.(input := e1.input[m..]), if m == n then Some(Tlv(tag, e1.input[..n])) else None)
  }

  // ---------- typed values ----------

  type U64 = v: int | 0 <= v < 0x1_0000_0000_0000_0000

  datatype Value = ABool(b: bool) | AU32(v: U32) | AU64(w: U64) | AString(s: ByteString) | ABytes(d: ByteString)
  datatype Kind = KBool | KU32 | KU64 | KString | KBytes

  function TagOf(kind: Kind): U32 {
    match kind case KBool => 1 case KU32 => 2 case KU64 => 3 case KString => 4 case KBytes => 5
  }

  function KindOf(v: Value): Kind {
    match v
    case ABool(_) => KBool
    case AU32(_) => KU32
    case AU64(_) => KU64
    case AString(_) => KString
    case ABytes(_) => KBytes
  }

  /** What the typed `Send` functions put into a record. */
  function Pack(v: Value): Tlv {
    Tlv(TagOf(KindOf(v)),
        match v
        case ABool(b) => [if b then Low(1) else Low(0)]
        case AU32(n) => PutU32(n)
        case AU64(n) => PutU32(n % 0x1_0000_0000) + PutU32(n / 0x1_0000_0000)
        case AString(s) => s
        case ABytes(d) => d)
  }

  /** What the typed `Recv` functions make of a record: a wrong tag or size is a failure. */
  function Unpack(kind: Kind, r: Tlv): Option<Value> {
    if r.tag != TagOf(kind) then None
    else match kind
      case KBool => if |r.data| != 1 then None else Some(ABool(r.data[0] != Low(0)))
      case KU32 => if |r.data| != 4 then None else Some(AU32(GetU32(r.data)))
      case KU64 => if |r.data| != 8 then None else Some(AU64(GetU32(r.data[..4]) + 0x1_0000_0000 * GetU32(r.data[4..])))
      case KString => Some(AString(r.data))
      case KBytes => Some(ABytes(r.data))
  }

  /** A value arrives exactly at a receive of its own kind, unchanged. */
  lemma {:induction false} UnpackPack(kind: Kind, v: Value)
    ensures Unpack(kind, Pack(v)) == if kind == KindOf(v) then Some(v) else None
  {
    if kind == KindOf(v) {
      match v {
        case AU32(n) => U32RoundTrip(n, PutU32(0));
        case AU64(n) =>
          var d := Pack(v).data;
          assert d[..4] == PutU32(n % 0x1_0000_0000) && d[4..] == PutU32(n / 0x1_0000_0000);
          U32RoundTrip(n % 0x1_0000_0000, PutU32(0));
          U32RoundTrip(n / 0x1_0000_0000, PutU32(0));
        case _ =>
      }
    }
  }

  /** The bytes of a record: the tag and the length with the lowest byte first, then the data. */
  lemma {:induction false} RecordBytes(r: Tlv)
    requires Fits(r)
    ensures var w := Record(r);
            && |w| == 8 + |r.data| && w[8..] == r.data
            && w[0] as int + 256 * w[1] as int + 65536 * w[2] as int + 16777216 * w[3] as int == r.tag
            && w[4] as int + 256 * w[5] as int + 65536 * w[6] as int + 16777216 * w[7] as int == |r.data|
  {
    LittleEndian32(r.tag);
    LittleEndian32(|r.data|);
  }

  /** Tags and data of the typed values. */
  lemma {:induction false} ValueBytes(v: Value)
    ensures v.ABool? ==> Pack(v).tag == 1 && |Pack(v).data| == 1 && Pack(v).data[0] as int == if v.b then 1 else 0
    ensures v.AU32? ==>
              var d := Pack(v).data;
              && Pack(v).tag == 2 && |d| == 4
              && d[0] as int + 256 * d[1] as int + 65536 * d[2] as int + 16777216 * d[3] as int == v.v
    ensures v.AU64? ==>
              var d := Pack(v).data;
              && Pack(v).tag == 3 && |d| == 8
              && d[0] as int + 256 * d[1] as int + 65536 * d[2] as int + 16777216 * d[3] as int
                 + 4294967296 * (d[4] as int + 256 * d[5] as int + 65536 * d[6] as int + 16777216 * d[7] as int) == v.w
    ensures v.AString? ==> Pack(v) == Tlv(4, v.s)
    ensures v.ABytes? ==> Pack(v) == Tlv(5, v.d)
  {
    match v {
      case AU32(n) => LittleEndian32(n);
      case AU64(n) =>
        LittleEndian32(n % 0x1_0000_0000);
        LittleEndian32(n / 0x1_0000_0000);
      case _ =>
    }
  }

  /** A typed receive answers exactly a record of its tag and, where the kind has one, of its size. */
  lemma {:induction false} UnpackIff(kind: Kind, r: Tlv)
    ensures Unpack(kind, r).Some? <==>
            match kind
            case KBool => r.tag == 1 && |r.data| == 1
            case KU32 => r.tag == 2 && |r.data| == 4
            case KU64 => r.tag == 3 && |r.data| == 8
            case KString => r.tag == 4
            case KBytes => r.tag == 5
    ensures kind.KBool? && Unpack(kind, r).Some? ==> Unpack(kind, r).value == ABool(r.data[0] as int != 0)
    ensures !kind.KBool? && Unpack(kind, r).Some? ==> Pack(Unpack(kind, r).value) == r
  {
    if kind.KU32? && r.tag == 2 && |r.data| == 4 {
      U32Written(r.data);
    } else if kind.KU64? && r.tag == 3 && |r.data| == 8 {
      U64Written(r.data);
    }
  }

  lemma {:induction false} U64Written(d: ByteString)
    requires |d| == 8
    ensures var v := GetU32(d[..4]) + 0x1_0000_0000 * GetU32(d[4..]);
            PutU32(v % 0x1_0000_0000) + PutU32(v / 0x1_0000_0000) == d
  {
    var a, b := GetU32(d[..4]), GetU32(d[4..]);
    U32Written(d[..4]);
    U32Written(d[4..]);
    Halves(a, b);
    assert d[..4] + d[4..] == d;
  }

  lemma {:induction false} Halves(a: U32, b: U32)
    ensures (a + 0x1_0000_0000 * b) % 0x1_0000_0000 == a && (a + 0x1_0000_0000 * b) / 0x1_0000_0000 == b
  {
  }

  // ---------- one record ----------

  lemma {:induction false} HeaderReads(r: Tlv, tail: ByteString)
    requires Fits(r)
    ensures var input := Record(r) + tail;
            && |input| >= 8 + |r.data| && GetU32(input[..4]) == r.tag && GetU32(input[4..8]) == |r.data|
            && input[8..] == r.data + tail
            && input[8..][..|r.data|] == r.data && input[8..][|r.data|..] == tail
  {
    var input := Record(r) + tail;
    assert input == PutU32(r.tag) + (PutU32(|r.data|) + (r.data + tail));
    assert input[..4] == PutU32(r.tag) && input[4..8] == PutU32(|r.data|);
    U32RoundTrip(r.tag, PutU32(0));
    U32RoundTrip(|r.data|, PutU32(0));
  }

  /** A record within the limit is received whole, however it is fragmented. */
  lemma {:induction false} RecordReceived(e: End, r: Tlv, tail: ByteString, io1: seq<Io>, io2: seq<Io>)
    requires Fits(r) && |r.data| <= e.max && e.readable && e.input == Record(r) + tail
    requires Delivers(e.os, io1, 8) && Delivers(e.os, io2, |r.data|)
    ensures Recv(e, true, io1, io2) == (e.(input := tail), Some(r))
  {
    HeaderReads(r, tail);
    AvailabilityIrrelevant(e.os, io1, 8, |e.input|);
    AvailabilityIrrelevant(e.os, io2, |r.data|, |e.input[8..]|);
  }

  /** How much of a record goes out: none that is over the limit or for a closed end, else what the transfers move. */
  function WrittenBytes(e: End, r: Tlv, io1: seq<Io>, io2: seq<Io>): nat {
    if |r.data| > e.max || !e.writable then 0
    else if !Delivers(e.os, io1, 8) then Transferred(e.os, io1, 8, 8)
    else 8 + Transferred(e.os, io2, |r.data|, |r.data|)
  }

  /** A successful send appends exactly the record; a failed one a proper beginning of it. */
  lemma {:induction false} SendAppends(e: End, r: Tlv, io1: seq<Io>, io2: seq<Io>)
    requires Fits(r)
    ensures var (f, ok) := Send(e, r, io1, io2);
            && (ok <==> e.writable && |r.data| <= e.max && Delivers(e.os, io1, 8) && Delivers(e.os, io2, |r.data|))
            && (ok ==> f == e.(out := e.out + Record(r)))
            && (!ok ==> WrittenBytes(e, r, io1, io2) < |Record(r)|)
            && (!ok ==> f == e.(out := e.out + Record(r)[..WrittenBytes(e, r, io1, io2)]))
  {
    var (f, ok) := Send(e, r, io1, io2);
    var whole := Record(r);
    if |r.data| > e.max || !e.writable {
      assert e.out + whole[..0] == e.out;
    } else {
      var k := Transferred(e.os, io1, 8, 8);
      if k < 8 {
        assert whole[..k] == Header(r)[..k];
      } else {
        var m := Transferred(e.os, io2, |r.data|, |r.data|);
        assert Header(r)[..k] == Header(r);
        assert whole[..8 + m] == Header(r) + r.data[..m];
        assert e.out + Header(r) + r.data[..m] == e.out + whole[..8 + m];
        assert m == |r.data| ==> whole[..8 + m] == whole;
      }
    }
  }

  /** A receive that fails for want of bytes has consumed those that came, and leaves the handles as they are. */
  lemma {:induction false} ShortReceive(e: End, io1: seq<Io>, io2: seq<Io>)
    ensures !e.readable ==> Recv(e, true, io1, io2) == (e, None)
    ensures var k := Transferred(e.os, io1, 8, |e.input|);
            && (e.readable && k < 8 ==> Recv(e, true, io1, io2) == (e.(input := e.input[k..]), None))
            && (e.readable && k == 8 && GetU32(e.input[4..8]) <= e.max ==>
                  var m := Transferred(e.os, io2, GetU32(e.input[4..8]), |e.input| - 8);
                  m < GetU32(e.input[4..8]) ==> Recv(e, true, io1, io2) == (e.(input := e.input[8 + m..]), None))
  {
    var k := Transferred(e.os, io1, 8, |e.input|);
    if e.readable && k == 8 {
      assert forall m :: 0 <= m <= |e.input| - 8 ==> e.input[8..][m..] == e.input[8 + m..];
    }
  }

  /** An announced length over the limit closes both handles, and then nothing is sent or received any more. */
  lemma {:induction false} OversizeTerminates(e: End, r: Tlv, io1: seq<Io>, io2: seq<Io>)
    requires Fits(r) && |r.data| > e.max && e.readable && Record(r)[..8] <= e.input && Delivers(e.os, io1, 8)
    ensures var (f, got) := Recv(e, true, io1, io2);
            && got.None? && !f.readable && !f.writable
            && (forall q: Tlv, a: seq<Io>, b: seq<Io> :: Send(f, q, a, b) == (f, false))
            && (forall want: bool, a: seq<Io>, b: seq<Io> :: Recv(f, want, a, b) == (f, None))
  {
    HeaderReads(r, []);
    var h := Record(r)[..8];
    assert e.input[..8] == h;
    assert e.input[..4] == h[..4] && e.input[4..8] == h[4..8];
    assert (Record(r) + [])[..4] == h[..4] && (Record(r) + [])[4..8] == h[4..8];
    AvailabilityIrrelevant(e.os, io1, 8, |e.input|);
  }

  /** A receive without a place for the value stays aligned exactly on records without data. */
  lemma {:induction false} NullValueAlignedIff(e: End, r: Tlv, tail: ByteString, io1: seq<Io>, io2: seq<Io>)
    requires Fits(r) && e.readable && e.input == Record(r) + tail && Delivers(e.os, io1, 8)
    ensures Recv(e, false, io1, io2).1.None?
    ensures Recv(e, false, io1, io2).0.input == tail <==> r.data == []
  {
    HeaderReads(r, tail);
    AvailabilityIrrelevant(e.os, io1, 8, |e.input|);
    if r.data == [] {
      assert r.data + tail == tail;
    }
  }

  // ---------- whole streams ----------

  datatype SendOp = SendOp(record: Tlv, io1: seq<Io>, io2: seq<Io>)
  datatype RecvOp = RecvOp(kind: Kind, io1: seq<Io>, io2: seq<Io>)

  function Records(ops: seq<SendOp>): seq<Tlv> {
    seq(|ops|, i requires 0 <= i < |ops| => ops[i].record)
  }

  /** The sends in order; true when all of them succeeded. */
  function SendAll(e: End, ops: seq<SendOp>): (End, bool)
    decreases |ops|
  {
    if ops == [] then (e, true)
    else
      var (f, ok) := Send(e, ops[0].record, ops[0].io1, ops[0].io2);
      if !ok then (f, false) else SendAll(f, ops[1..])
  }

  /** Typed receives in order, each with its answer. */
  function RecvAll(e: End, ops: seq<RecvOp>): (End, seq<Option<Value>>)
    decreases |ops|
  {
    if ops == [] then (e, [])
    else
      var (f, got) := Recv(e, true, ops[0].io1, ops[0].io2);
      var answer := if got.None? then None else Unpack(ops[0].kind, got.value);
      var (g, answers) := RecvAll(f, ops[1..]);
      (g, [answer] + answers)
  }

  predicate AllFit(rs: seq<Tlv>) {
    forall i :: 0 <= i < |rs| ==> Fits(rs[i])
  }

  lemma {:induction false} WireStep(ops: seq<SendOp>)
    requires ops != [] && AllFit(Records(ops))
    ensures Records(ops)[0] == ops[0].record && Records(ops)[1..] == Records(ops[1..]) && AllFit(Records(ops[1..]))
    ensures Wire(Records(ops)) == Record(ops[0].record) + Wire(Records(ops[1..]))
  {
    assert Fits(Records(ops)[0]);
    assert Records(ops)[1..] == Records(ops[1..]);
    forall i | 0 <= i < |Records(ops[1..])| ensures Fits(Records(ops[1..])[i]) {
      assert Fits(Records(ops)[i + 1]);
    }
  }

  lemma {:induction false} SendAllWrites(e: End, ops: seq<SendOp>)
    requires AllFit(Records(ops)) && SendAll(e, ops).1
    ensures SendAll(e, ops).0 == e.(out := e.out + Wire(Records(ops)))
    decreases |ops|
  {
    if ops == [] {
      assert e.out + [] == e.out;
    } else {
      WireStep(ops);
      var r := ops[0].record;
      var (f, ok) := Send(e, r, ops[0].io1, ops[0].io2);
      SendAppends(e, r, ops[0].io1, ops[0].io2);
      SendAllWrites(f, ops[1..]);
      Regroup(e.out, Record(r), Wire(Records(ops[1..])));
    }
  }

  /** The record is within the receiver's limit and the receive's transfers deliver it, in whatever pieces. */
  predicate Receivable(e: End, r: Tlv, op: RecvOp) {
    |r.data| <= e.max && Delivers(e.os, op.io1, 8) && Delivers(e.os, op.io2, |r.data|)
  }

  function Answers(rs: seq<Tlv>, ops: seq<RecvOp>): seq<Option<Value>>
    requires |ops| <= |rs|
  {
    seq(|ops|, i requires 0 <= i < |ops| => Unpack(ops[i].kind, rs[i]))
  }

  lemma {:induction false} RecvAllReads(e: End, rs: seq<Tlv>, tail: ByteString, ops: seq<RecvOp>)
    requires AllFit(rs) && |ops| <= |rs| && e.readable && e.input == Wire(rs) + tail
    requires forall i :: 0 <= i < |ops| ==> Receivable(e, rs[i], ops[i])
    ensures RecvAll(e, ops) == (e.(input := Wire(rs[|ops|..]) + tail), Answers(rs, ops))
    decreases |ops|
  {
    if ops == [] {
      assert rs[|ops|..] == rs && Answers(rs, ops) == [];
    } else {
      var rest := Wire(rs[1..]) + tail;
      var f := e.(input := rest);
      assert Receivable(e, rs[0], ops[0]);
      Regroup(Record(rs[0]), Wire(rs[1..]), tail);
      RecordReceived(e, rs[0], rest, ops[0].io1, ops[0].io2);
      RestReceivable(e, f, rs, ops);
      RecvAllReads(f, rs[1..], tail, ops[1..]);
      AnswersSplit(rs, ops);
    }
  }

  lemma {:induction false} RestReceivable(e: End, f: End, rs: seq<Tlv>, ops: seq<RecvOp>)
    requires 0 < |ops| <= |rs| && AllFit(rs) && f.max == e.max && f.os == e.os
    requires forall i :: 0 <= i < |ops| ==> Receivable(e, rs[i], ops[i])
    ensures AllFit(rs[1..]) && forall i :: 0 <= i < |ops[1..]| ==> Receivable(f, rs[1..][i], ops[1..][i])
  {
    forall i | 0 <= i < |ops[1..]| ensures Receivable(f, rs[1..][i], ops[1..][i]) {
      assert Receivable(e, rs[i + 1], ops[i + 1]);
    }
  }

  lemma {:induction false} AnswersSplit(rs: seq<Tlv>, ops: seq<RecvOp>)
    requires 0 < |ops| <= |rs|
    ensures Answers(rs, ops) == [Unpack(ops[0].kind, rs[0])] + Answers(rs[1..], ops[1..])
    ensures rs[1..][|ops[1..]|..] == rs[|ops|..]
  {
    var all, rest := Answers(rs, ops), Answers(rs[1..], ops[1..]);
    forall i | 0 <= i < |rest| ensures rest[i] == all[i + 1] {
      assert rs[1..][i] == rs[i + 1] && ops[1..][i] == ops[i + 1];
    }
    assert all == [all[0]] + rest;
  }

  lemma {:induction false} WireInOrder(b: End, rs: seq<Tlv>, ops: seq<RecvOp>)
    requires AllFit(rs) && |ops| <= |rs| && b.readable && b.input == [] + Wire(rs)
    requires forall i :: 0 <= i < |ops| ==> Receivable(b, rs[i], ops[i])
    ensures RecvAll(b, ops) == (b.(input := Wire(rs[|ops|..])), Answers(rs, ops))
  {
    assert b.input == Wire(rs) + [];
    RecvAllReads(b, rs, [], ops);
    assert Wire(rs[|ops|..]) + [] == Wire(rs[|ops|..]);
  }

  /**
    End to end, for any fragmentation on either side: every receive consumes
    exactly the next record and answers with its value when kind and size
    agree, and the unread rest is aligned on the next record.
   */
  lemma {:induction false} StreamInOrder(a: End, sends: seq<SendOp>, b: End, recvs: seq<RecvOp>)
    requires SendAll(a, sends).1 && a.out == []
    requires b.readable && b.input == SendAll(a, sends).0.out && |recvs| <= |sends|
    requires forall i :: 0 <= i < |recvs| ==> Receivable(b, Records(sends)[i], recvs[i])
    ensures AllFit(Records(sends))
    ensures RecvAll(b, recvs) == (b.(input := Wire(Records(sends)[|recvs|..])), Answers(Records(sends), recvs))
  {
    SentFits(a, sends);
    SendAllWrites(a, sends);
    assert SendAll(a, sends).0.out == [] + Wire(Records(sends));
    WireInOrder(b, Records(sends), recvs);
  }

  lemma {:induction false} SentFits(e: End, ops: seq<SendOp>)
    requires SendAll(e, ops).1
    ensures AllFit(Records(ops))
    decreases |ops|
  {
    if ops != [] {
      var f := Send(e, ops[0].record, ops[0].io1, ops[0].io2).0;
      SentFits(f, ops[1..]);
      forall i | 0 <= i < |ops| ensures Fits(Records(ops)[i]) {
        assert i > 0 ==> Fits(Records(ops[1..])[i - 1]);
      }
    }
  }

  /** Typed sends against typed receives: the values themselves, in order, nothing at a receive of another kind. */
  lemma {:induction false} ValuesInOrder(a: End, values: seq<Value>, sends: seq<SendOp>, b: End, recvs: seq<RecvOp>)
    requires |values| == |sends| && forall i :: 0 <= i < |sends| ==> sends[i].record == Pack(values[i])
    requires SendAll(a, sends).1 && a.out == []
    requires b.readable && b.input == SendAll(a, sends).0.out && |recvs| <= |sends|
    requires forall i :: 0 <= i < |recvs| ==> Receivable(b, Records(sends)[i], recvs[i])
    ensures |RecvAll(b, recvs).1| == |recvs|
    ensures forall i :: 0 <= i < |recvs| ==>
              RecvAll(b, recvs).1[i] == if recvs[i].kind == KindOf(values[i]) then Some(values[i]) else None
  {
    StreamInOrder(a, sends, b, recvs);
    forall i | 0 <= i < |recvs|
      ensures Answers(Records(sends), recvs)[i] == if recvs[i].kind == KindOf(values[i]) then Some(values[i]) else None
    {
      UnpackPack(recvs[i].kind, values[i]);
    }
  }

  // ---------- the comms object ----------

  class Channel {
    const os: Os
    var readable: bool
    var writable: bool
    var maxMsg: U32
    var input: ByteString
    var out: ByteString

    ghost function View(): End
      reads this
    {
      End(os, readable, writable, maxMsg, input, out)
    }

    constructor (os: Os)
      ensures View() == End(os, true, true, MAX_MSG, [], [])
    {
      this.os := os;
      readable, writable, maxMsg, input, out := true, true, MAX_MSG, [], [];
    }

    method SetMaxMsgBytes(n: U32)
      modifies `maxMsg
      ensures maxMsg == if n == 0 then 16 * 1024 * 1024 else n
    {
      maxMsg := if n != 0 then n else MAX_MSG;
    }

    method Terminate()
      modifies this
      ensures View() == Close(old(View()))
    {
      readable := false;
      writable := false;
    }

    method WriteAll(p: ByteString, io: seq<Io>) returns (ok: bool)
      modifies `out
      ensures var k := if writable then Transferred(os, io, |p|, |p|) else 0;
              out == old(out) + p[..k] && (ok <==> writable && k == |p|)
    {
      if !writable {
        assert p[..0] == [];
        return false;
      }
      if |p| == 0 {
        return true;
      }
      var sent;
      if os == Posix {
        ok, sent := PosixWrite(p, io);
      } else {
        ok, sent := WinWrite(p, io);
      }
      out := out + sent;
    }

    method ReadAll(n: nat, io: seq<Io>) returns (ok: bool, p: ByteString)
      modifies `input
      ensures var k := if readable then Transferred(os, io, n, |old(input)|) else 0;
              && input == old(input)[k..] && (ok <==> readable && k == n)
              && (ok ==> p == old(input)[..n])
    {
      if !readable {
        return false, [];
      }
      if n == 0 {
        return true, [];
      }
      var buf := new Byte[n];
      var rest;
      if os == Posix {
        ok, rest := PosixRead(buf, input, io);
      } else {
        ok, rest := WinRead(buf, input, io);
      }
      input := rest;
      p := buf[..];
    }

    method SendTLV(tag: U32, data: ByteString, io1: seq<Io>, io2: seq<Io>) returns (ok: bool)
      modifies `out
      ensures (View(), ok) == Send(old(View()), Tlv(tag, data), io1, io2)
    {
      if |data| > maxMsg {
        return false;
      }
      ghost var r := Tlv(tag, data);
      ok := WriteAll(PutU32(tag) + PutU32(|data|), io1);
      if !ok {
        assert Header(r)[..0] == [];
        assert !writable ==> out == old(out);
        return false;
      }
      if |data| != 0 {
        ok := WriteAll(data, io2);
      } else {
        assert out + data[..0] == out;
      }
    }

    method RecvTLV(wantValue: bool, io1: seq<Io>, io2: seq<Io>) returns (r: Option<Tlv>)
      modifies this
      ensures (View(), r) == Recv(old(View()), wantValue, io1, io2)
    {
      var ok, hdr := ReadAll(8, io1);
      if !ok {
        return None;
      }
      assert hdr[..4] == old(input)[..4] && hdr[4..8] == old(input)[4..8];
      var t, n := GetU32(hdr[..4]), GetU32(hdr[4..8]);
      if !wantValue {
        return None;
      }
      if n > maxMsg {
        Terminate();
        return None;
      }
      ghost var after := input;
      var value: ByteString := [];
      if n != 0 {
        ok, value := ReadAll(n, io2);
        if !ok {
          return None;
        }
      } else {
        assert after[0..] == after && after[..0] == [];
      }
      return Some(Tlv(t, value));
    }

    /** The typed sends share one shape: pack, then `SendTLV`; `SendString` tests its size beforehand. */
    method SendValue(v: Value, io1: seq<Io>, io2: seq<Io>) returns (ok: bool)
      modifies `out
      ensures (View(), ok) == Send(old(View()), Pack(v), io1, io2)
    {
      match v {
        case ABool(b) => ok := SendTLV(1, [if b then Low(1) else Low(0)], io1, io2);
        case AU32(n) => ok := SendTLV(2, PutU32(n), io1, io2);
        case AU64(n) => ok := SendTLV(3, PutU32(n % 0x1_0000_0000) + PutU32(n / 0x1_0000_0000), io1, io2);
        case AString(s) =>
          if |s| > maxMsg {
            return false;
          }
          ok := SendTLV(4, s, io1, io2);
        case ABytes(d) => ok := SendTLV(5, d, io1, io2);
      }
    }

    /** The typed receives: `RecvTLV`, then the tests of tag and size. */
    method RecvValue(kind: Kind, io1: seq<Io>, io2: seq<Io>) returns (r: Option<Value>)
      modifies this
      ensures var (after, got) := Recv(old(View()), true, io1, io2);
              View() == after && r == if got.None? then None else Unpack(kind, got.value)
    {
      var got := RecvTLV(true, io1, io2);
      if got.None? {
        return None;
      }
      r := Unpack(kind, got.value);
    }
  }
}

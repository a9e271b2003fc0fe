/** The frame format of bus messages (include/w2g/msg.h). */
module MsgCodec {
  import opened Options
  import opened Bytes

  const MAX_PAYLOAD := 0x100_0000

  datatype Msg = Msg(from: ByteString, topic: ByteString, id: U32, payload: ByteString)

  predicate InLimit(m: Msg) {
    |m.from| <= 0xffff && |m.topic| <= 0xffff && |m.payload| <= MAX_PAYLOAD
  }

  const VERSION: ByteString := ['\U{0001}']

  /** version 1, then each text behind its length, the id, and the payload behind its length. */
  function Frame(m: Msg): ByteString
    requires InLimit(m)
  {
    VERSION + (PutU16(|m.from|) + (m.from + (PutU16(|m.topic|) + (m.topic
      + (PutU32(m.id) + (PutU32(|m.payload|) + m.payload))))))
  }

  /** What `Encode` answers: the frame, or nothing for a message over a limit. */
  function Encoded(m: Msg): ByteString {
    if InLimit(m) then Frame(m) else []
  }

  method Encode(m: Msg) returns (o: ByteString)
    ensures o == Encoded(m)
  {
    o := VERSION;
    if |m.from| > 0xffff || |m.topic| > 0xffff {
      return [];
    }
    if |m.payload| > MAX_PAYLOAD {
      return [];
    }
    o := o + PutU16(|m.from|);
    o := o + m.from;
    o := o + PutU16(|m.topic|);
    o := o + m.topic;
    o := o + PutU32(m.id);
    o := o + PutU32(|m.payload|);
    ghost var head := o;
    FrameFlat(m);
    for i := 0 to |m.payload|
      invariant o == head + m.payload[..i]
    {
      o := o + [m.payload[i]];
      assert m.payload[..i + 1] == m.payload[..i] + [m.payload[i]];
    }
    assert m.payload[..|m.payload|] == m.payload;
  }

  lemma {:induction false} FrameFlat(m: Msg)
    requires InLimit(m)
    ensures Frame(m) == VERSION + PutU16(|m.from|) + m.from + PutU16(|m.topic|) + m.topic
                        + PutU32(m.id) + PutU32(|m.payload|) + m.payload
  {
    var a, b := VERSION + PutU16(|m.from|) + m.from, PutU16(|m.topic|) + m.topic;
    var c := PutU32(m.id) + PutU32(|m.payload|) + m.payload;
    assert Frame(m) == a + (b + c);
    assert a + b + c == a + PutU16(|m.topic|) + m.topic + PutU32(m.id) + PutU32(|m.payload|) + m.payload;
  }

  /** The `Get` helpers: the next `n` bytes from the cursor, which then stands behind them. */
  method GetBytes(s: ByteString, i: nat, n: nat) returns (r: Option<ByteString>, j: nat)
    requires i <= |s|
    ensures i <= j <= |s|
    ensures r.Some? <==> i + n <= |s|
    ensures r.Some? ==> j == i + n && r.value == s[i..j]
  {
    if i + n > |s| {
      return None, i;
    }
    return Some(s[i..i + n]), i + n;
  }

  /**
    `Decode` is the exact inverse of framing: it accepts the frames of in-limit
    messages and nothing else.
   */
  method Decode(s: ByteString) returns (r: Option<Msg>)
    ensures r.Some? ==> InLimit(r.value) && Frame(r.value) == s
    ensures r.None? ==> forall m :: InLimit(m) ==> Frame(m) != s
  {
    if |s| < 1 || s[0] != VERSION[0] {
      return None;
    }
    var i := 1;
    var fromLen, from, topicLen, topic, id, payloadLen, payload;
    fromLen, i := GetBytes(s, i, 2);
    if fromLen.None? { ShortHeader(s); return None; }
    from, i := GetBytes(s, i, GetU16(fromLen.value));
    if from.None? { ShortFrom(s); return None; }
    ghost var afterFrom := i;
    topicLen, i := GetBytes(s, i, 2);
    if topicLen.None? { ShortTopicLength(s, afterFrom); return None; }
    topic, i := GetBytes(s, i, GetU16(topicLen.value));
    if topic.None? { ShortTopic(s, afterFrom); return None; }
    ghost var afterTopic := i;
    id, i := GetBytes(s, i, 4);
    if id.None? { ShortNumbers(s, afterFrom, afterTopic); return None; }
    payloadLen, i := GetBytes(s, i, 4);
    if payloadLen.None? { ShortNumbers(s, afterFrom, afterTopic); return None; }
    var n := GetU32(payloadLen.value);
    if n > MAX_PAYLOAD { WrongPayload(s, afterFrom, afterTopic); return None; }
    payload, i := GetBytes(s, i, n);
    if payload.None? || i != |s| { WrongPayload(s, afterFrom, afterTopic); return None; }
    r := Some(Msg(from.value, topic.value, GetU32(id.value), payload.value));
    Reassemble(s, r.value);
  }

  // ---------- what a frame looks like from its first bytes on ----------

  /** The cut positions of a frame and the bytes between them. */
  lemma {:induction false} FrameLayout(m: Msg)
    requires InLimit(m)
    ensures var s := Frame(m); var f := 3 + |m.from|; var t := f + 2 + |m.topic|;
            && |s| == t + 8 + |m.payload|
            && s[..1] == VERSION && s[1..3] == PutU16(|m.from|) && s[3..f] == m.from
            && s[f..f + 2] == PutU16(|m.topic|) && s[f + 2..t] == m.topic
            && s[t..t + 4] == PutU32(m.id) && s[t + 4..t + 8] == PutU32(|m.payload|) && s[t + 8..] == m.payload
  {
    var numbers := Numbers(m);
    LayoutOf(Frame(m), m, 3 + |m.from|, 5 + |m.from| + |m.topic|, Middle(m.topic, numbers), numbers);
  }

  lemma {:induction false} LayoutOf(s: ByteString, m: Msg, f: nat, t: nat, rest: ByteString, numbers: ByteString)
    requires InLimit(m) && f == 3 + |m.from| && t == f + 2 + |m.topic|
    requires numbers == Numbers(m) && rest == Middle(m.topic, numbers)
    requires s == VERSION + (PutU16(|m.from|) + (m.from + rest))
    ensures |s| == t + 8 + |m.payload|
    ensures s[..1] == VERSION && s[1..3] == PutU16(|m.from|) && s[3..f] == m.from
    ensures s[f..f + 2] == PutU16(|m.topic|) && s[f + 2..t] == m.topic
    ensures s[t..t + 4] == PutU32(m.id) && s[t + 4..t + 8] == PutU32(|m.payload|) && s[t + 8..] == m.payload
  {
    FrontCuts(s, m.from, rest);
    MiddleCuts(s, f, m.topic, numbers);
    NumbersCuts(s, t, m);
  }

  /** The id, the length of the payload and the payload. */
  ghost function Numbers(m: Msg): ByteString
    requires InLimit(m)
  {
    PutU32(m.id) + (PutU32(|m.payload|) + m.payload)
  }

  ghost function Middle(topic: ByteString, numbers: ByteString): ByteString
    requires |topic| <= 0xffff
  {
    PutU16(|topic|) + (topic + numbers)
  }

  lemma {:induction false} FrontCuts(s: ByteString, from: ByteString, rest: ByteString)
    requires |from| <= 0xffff && s == VERSION + (PutU16(|from|) + (from + rest))
    ensures s[..1] == VERSION && |s| == 3 + |from| + |rest|
    ensures s[1..3] == PutU16(|from|) && s[3..3 + |from|] == from && s[3 + |from|..] == rest
  {
    VersionCut(s, PutU16(|from|) + (from + rest));
    Cuts(s, 1, PutU16(|from|), from, rest);
  }

  lemma {:induction false} MiddleCuts(s: ByteString, f: nat, topic: ByteString, numbers: ByteString)
    requires |topic| <= 0xffff && f <= |s| && s[f..] == Middle(topic, numbers)
    ensures var t := f + 2 + |topic|;
            |s| == t + |numbers| && s[f..f + 2] == PutU16(|topic|) && s[f + 2..t] == topic && s[t..] == numbers
  {
    Cuts(s, f, PutU16(|topic|), topic, numbers);
  }

  lemma {:induction false} NumbersCuts(s: ByteString, t: nat, m: Msg)
    requires InLimit(m) && t <= |s| && s[t..] == Numbers(m)
    ensures |s| == t + 8 + |m.payload|
    ensures s[t..t + 4] == PutU32(m.id) && s[t + 4..t + 8] == PutU32(|m.payload|) && s[t + 8..] == m.payload
  {
    Cuts(s, t, PutU32(m.id), PutU32(|m.payload|), m.payload);
  }

  lemma {:induction false} VersionCut(s: ByteString, rest: ByteString)
    requires s == VERSION + rest
    ensures s[..1] == VERSION && s[1..] == rest
  {
  }

  /** Two pieces in front of the rest, from some position on. */
  lemma {:induction false} Cuts(s: ByteString, f: nat, a: ByteString, b: ByteString, rest: ByteString)
    requires f <= |s| && s[f..] == a + (b + rest)
    ensures var i := f + |a|; var j := i + |b|;
            |s| == j + |rest| && s[f..i] == a && s[i..j] == b && s[j..] == rest
  {
    var i := f + |a|;
    var j := i + |b|;
    assert |s| == f + |s[f..]|;
    Shift(s, f, 0, |a|);
    Shift(s, f, |a|, |a| + |b|);
    Shift(s, f, |a| + |b|, |s| - f);
  }

  lemma {:induction false} Shift(s: ByteString, t: nat, i: nat, j: nat)
    requires t <= |s| && i <= j <= |s| - t
    ensures s[t..][i..j] == s[t + i..t + j]
  {
  }

  /** The lengths written in a frame are those of its texts. */
  lemma {:induction false} FrameLengths(m: Msg)
    requires InLimit(m)
    ensures var s := Frame(m); var f := 3 + |m.from|; var t := f + 2 + |m.topic|;
            && |s| == t + 8 + |m.payload|
            && GetU16(s[1..3]) == |m.from| && GetU16(s[f..f + 2]) == |m.topic| && GetU32(s[t + 4..t + 8]) == |m.payload|
            && GetU32(s[t..t + 4]) == m.id
  {
    FrameLayout(m);
    U16RoundTrip(|m.from|, PutU16(0));
    U16RoundTrip(|m.topic|, PutU16(0));
    U32RoundTrip(|m.payload|, PutU32(0));
    U32RoundTrip(m.id, PutU32(0));
  }

  lemma {:induction false} ShortHeader(s: ByteString)
    requires |s| < 3
    ensures forall m :: InLimit(m) ==> Frame(m) != s
  {
    forall m | InLimit(m) ensures Frame(m) != s {
      FrameLengths(m);
    }
  }

  lemma {:induction false} ShortFrom(s: ByteString)
    requires |s| >= 3 && 3 + GetU16(s[1..3]) > |s|
    ensures forall m :: InLimit(m) ==> Frame(m) != s
  {
    forall m | InLimit(m) ensures Frame(m) != s {
      FrameLengths(m);
    }
  }

  lemma {:induction false} ShortTopicLength(s: ByteString, f: nat)
    requires |s| >= 3 && f == 3 + GetU16(s[1..3]) <= |s| < f + 2
    ensures forall m :: InLimit(m) ==> Frame(m) != s
  {
    forall m | InLimit(m) ensures Frame(m) != s {
      FrameLengths(m);
    }
  }

  lemma {:induction false} ShortTopic(s: ByteString, f: nat)
    requires |s| >= 3 && f == 3 + GetU16(s[1..3]) && f + 2 <= |s| && f + 2 + GetU16(s[f..f + 2]) > |s|
    ensures forall m :: InLimit(m) ==> Frame(m) != s
  {
    forall m | InLimit(m) ensures Frame(m) != s {
      FrameLengths(m);
    }
  }

  lemma {:induction false} ShortNumbers(s: ByteString, f: nat, t: nat)
    requires |s| >= 3 && f == 3 + GetU16(s[1..3]) && f + 2 <= |s| && t == f + 2 + GetU16(s[f..f + 2]) <= |s| < t + 8
    ensures forall m :: InLimit(m) ==> Frame(m) != s
  {
    forall m | InLimit(m) ensures Frame(m) != s {
      FrameLengths(m);
    }
  }

  lemma {:induction false} WrongPayload(s: ByteString, f: nat, t: nat)
    requires |s| >= 3 && f == 3 + GetU16(s[1..3]) && f + 2 <= |s| && t == f + 2 + GetU16(s[f..f + 2])
    requires t + 8 <= |s|
    requires var n := GetU32(s[t + 4..t + 8]); n > MAX_PAYLOAD || t + 8 + n != |s|
    ensures forall m :: InLimit(m) ==> Frame(m) != s
  {
    forall m | InLimit(m) ensures Frame(m) != s {
      FrameLengths(m);
    }
  }

  /** The pieces found at the cut positions make up the frame. */
  lemma {:induction false} Reassemble(s: ByteString, m: Msg)
    requires InLimit(m)
    requires var f := 3 + |m.from|; var t := f + 2 + |m.topic|;
             && |s| == t + 8 + |m.payload|
             && s[0] == VERSION[0] && GetU16(s[1..3]) == |m.from| && s[3..f] == m.from
             && GetU16(s[f..f + 2]) == |m.topic| && s[f + 2..t] == m.topic
             && GetU32(s[t..t + 4]) == m.id && GetU32(s[t + 4..t + 8]) == |m.payload| && s[t + 8..] == m.payload
    ensures Frame(m) == s
  {
    var f := 3 + |m.from|;
    var t := f + 2 + |m.topic|;
    NumberWritten16(s[1..3], |m.from|);
    NumberWritten16(s[f..f + 2], |m.topic|);
    NumberWritten32(s[t..t + 4], m.id);
    NumberWritten32(s[t + 4..t + 8], |m.payload|);
    Pieces(s, f, t);
  }

  lemma {:induction false} NumberWritten16(s: ByteString, v: U16)
    requires |s| == 2 && GetU16(s) == v
    ensures PutU16(v) == s
  {
    U16RoundTrip(0, s);
  }

  lemma {:induction false} NumberWritten32(s: ByteString, v: U32)
    requires |s| == 4 && GetU32(s) == v
    ensures PutU32(v) == s
  {
    U32RoundTrip(0, s);
  }

  lemma {:induction false} Pieces(s: ByteString, f: nat, t: nat)
    requires 3 <= f && f + 2 <= t && t + 8 <= |s| && s[0] == VERSION[0]
    ensures s == VERSION + (s[1..3] + (s[3..f] +
        (s[f..f + 2] + (s[f + 2..t] + (s[t..t + 4] + (s[t + 4..t + 8] + s[t + 8..]))))))
  {
    assert s[t + 4..] == s[t + 4..t + 8] + s[t + 8..];
    assert s[t..] == s[t..t + 4] + s[t + 4..];
    assert s[f + 2..] == s[f + 2..t] + s[t..];
    assert s[f..] == s[f..f + 2] + s[f + 2..];
    assert s[3..] == s[3..f] + s[f..];
    assert s[1..] == s[1..3] + s[3..];
    assert s == VERSION + s[1..];
  }

  // ---------- the frame code ----------

  /** The frames are a prefix code: a frame that begins another frame is that frame, of the same message. */
  lemma {:induction false} PrefixFree(a: Msg, b: Msg)
    requires InLimit(a) && InLimit(b) && Frame(a) <= Frame(b)
    ensures a == b
  {
    SameCuts(a, b);
    assert |Frame(a)| == |Frame(b)| by {
      FrameLayout(a);
      FrameLayout(b);
    }
    SameFrame(a, b);
  }

  /** The numbers read from a shared beginning are the same. */
  lemma {:induction false} SameCuts(a: Msg, b: Msg)
    requires InLimit(a) && InLimit(b) && Frame(a) <= Frame(b)
    ensures |a.from| == |b.from| && |a.topic| == |b.topic| && a.id == b.id && |a.payload| == |b.payload|
  {
    var s, u := Frame(a), Frame(b);
    FrameLengths(a);
    FrameLengths(b);
    SlicesAgree(s, u, 1, 3);
    var f := 3 + |a.from|;
    SlicesAgree(s, u, f, f + 2);
    var t := f + 2 + |a.topic|;
    SlicesAgree(s, u, t, t + 4);
    SlicesAgree(s, u, t + 4, t + 8);
  }

  lemma {:induction false} SlicesAgree(s: ByteString, u: ByteString, i: nat, j: nat)
    requires s <= u && i <= j <= |s|
    ensures s[i..j] == u[i..j]
  {
  }

  lemma {:induction false} SameFrame(a: Msg, b: Msg)
    requires InLimit(a) && InLimit(b) && Frame(a) == Frame(b)
        && |a.from| == |b.from| && |a.topic| == |b.topic| && a.id == b.id
    ensures a == b
  {
    FrameLayout(a);
    FrameLayout(b);
  }

  /** `Publish` refuses a message - empty bytes for a message that is not empty - exactly when it is over a limit. */
  lemma {:induction false} RefusedIffOverLimit(m: Msg)
    ensures (Encoded(m) == [] && (m.from != [] || m.topic != [] || |m.payload| > 0)) <==> !InLimit(m)
    ensures Encoded(m) == [] <==> !InLimit(m)
  {
    if InLimit(m) {
      FrameLengths(m);
    }
  }

  /** The message a received frame stands for. */
  ghost function Decoded(s: ByteString): Option<Msg> {
    if exists m :: InLimit(m) && Frame(m) == s then
      var m :| InLimit(m) && Frame(m) == s;
      Some(m)
    else None
  }

  /** Framing loses nothing. */
  lemma {:induction false} DecodedFrame(m: Msg)
    requires InLimit(m)
    ensures Decoded(Frame(m)) == Some(m)
  {
    var n := Decoded(Frame(m)).value;
    PrefixFree(n, m);
  }

  /** The limits, and the first byte. */
  lemma {:induction false} LimitsAndVersion(m: Msg)
    ensures InLimit(m) <==> |m.from| < 65536 && |m.topic| < 65536 && |m.payload| <= 16 * 1024 * 1024
    ensures InLimit(m) ==> Frame(m)[0] as int == 1
  {
    if InLimit(m) {
      FrameLayout(m);
      assert Frame(m)[..1][0] == Frame(m)[0];
    }
  }
}

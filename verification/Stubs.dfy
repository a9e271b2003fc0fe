/**
  The eight default stub layers and what their handler answers (src/stub.cc, on
  src/sapi/handle.cc).
 */
module Stubs {
  import opened Options
  import opened Fields
  import opened Bytes
  import opened MsgCodec
  import opened Bus
  import Abac

  // ---------- the default stubs ----------

  datatype Stub = Dial | Listen | Tcp | Udp | Exec | User | Syscall | Tls

  function Name(s: Stub): ByteString {
    match s
    case Dial => "gxx.dial" case Listen => "gxx.listen" case Tcp => "gxx.tcp" case Udp => "gxx.udp"
    case Exec => "gxx.exec" case User => "gxx.user" case Syscall => "gxx.syscall" case Tls => "gxx.tls"
  }

  function Request(s: Stub): ByteString {
    match s
    case Dial => "net.dial" case Listen => "net.listen" case Tcp => "net.tcp.bind" case Udp => "net.udp.bind"
    case Exec => "os.exec" case User => "os.user" case Syscall => "syscall" case Tls => "tls.dial"
  }

  function Reply(s: Stub): ByteString {
    match s
    case Dial => "net.dial.reply" case Listen => "net.listen.reply"
    case Tcp => "net.tcp.bind.reply" case Udp => "net.udp.bind.reply"
    case Exec => "os.exec.reply" case User => "os.user.reply"
    case Syscall => "syscall.reply" case Tls => "tls.dial.reply"
  }

  function Order(s: Stub): (i: nat)
    ensures i < 8 && Nth(i) == s
  {
    match s
    case Dial => 0 case Listen => 1 case Tcp => 2 case Udp => 3
    case Exec => 4 case User => 5 case Syscall => 6 case Tls => 7
  }

  function Nth(i: nat): Stub
    requires i < 8
  {
    if i == 0 then Dial else if i == 1 then Listen else if i == 2 then Tcp else if i == 3 then Udp
    else if i == 4 then Exec else if i == 5 then User else if i == 6 then Syscall else Tls
  }

  /** Enough of a constant to tell the constants apart. */
  function Mark(t: ByteString): (nat, char, char, char)
    requires |t| >= 7
  {
    (|t|, t[0], t[3], t[4])
  }

  lemma {:induction false} NameMark(s: Stub)
    ensures ValidName(Name(s), MAX_LAYER_NAME) && |Name(s)| >= 7
    ensures Mark(Name(s)) == match s
            case Dial => (8, 'g', '.', 'd')
            case Listen => (10, 'g', '.', 'l')
            case Tcp => (7, 'g', '.', 't')
            case Udp => (7, 'g', '.', 'u')
            case Exec => (8, 'g', '.', 'e')
            case User => (8, 'g', '.', 'u')
            case Syscall => (11, 'g', '.', 's')
            case Tls => (7, 'g', '.', 't')
    ensures s.Tcp? ==> Name(s)[5] == 'c'
    ensures s.Tls? ==> Name(s)[5] == 'l'
  {
  }

  lemma {:induction false} RequestMark(s: Stub)
    ensures ValidName(Request(s), MAX_TOPIC) && |Request(s)| >= 7
    ensures Mark(Request(s)) == match s
            case Dial => (8, 'n', '.', 'd')
            case Listen => (10, 'n', '.', 'l')
            case Tcp => (12, 'n', '.', 't')
            case Udp => (12, 'n', '.', 'u')
            case Exec => (7, 'o', 'e', 'x')
            case User => (7, 'o', 'u', 's')
            case Syscall => (7, 's', 'c', 'a')
            case Tls => (8, 't', '.', 'd')
  {
  }

  /** The reply topic of a request is the request's with a suffix. */
  lemma {:induction false} ReplyIsSuffixed(s: Stub)
    ensures Reply(s) == Request(s) + ".reply"
  {
  }

  lemma {:induction false} ReplyMark(s: Stub)
    ensures ValidName(Reply(s), MAX_TOPIC) && |Reply(s)| == |Request(s)| + 6 >= 7
    ensures Mark(Reply(s)) == (|Request(s)| + 6, Request(s)[0], Request(s)[3], Request(s)[4])
  {
    ReplyIsSuffixed(s);
    RequestMark(s);
    assert NUL !in Request(s) && NUL !in ".reply";
  }

  lemma {:induction false} NamesDistinct(s: Stub, t: Stub)
    ensures Name(s) == Name(t) ==> s == t
  {
    NameMark(s);
    NameMark(t);
  }

  lemma {:induction false} RequestsDistinct(s: Stub, t: Stub)
    ensures Request(s) == Request(t) ==> s == t
    ensures Reply(s) == Reply(t) ==> s == t
  {
    RequestMark(s);
    RequestMark(t);
    ReplyMark(s);
    ReplyMark(t);
  }

  lemma {:induction false} RequestNotReply(s: Stub, t: Stub)
    ensures Request(s) != Reply(t) && Request(s) != ANY && Reply(s) != ANY
  {
    RequestMark(s);
    RequestMark(t);
    ReplyMark(s);
    ReplyMark(t);
  }

  lemma {:induction false} ConstantsDistinct(s: Stub, t: Stub)
    ensures Name(s) == Name(t) ==> s == t
    ensures Request(s) == Request(t) ==> s == t
    ensures Reply(s) == Reply(t) ==> s == t
    ensures Request(s) != Reply(t) && Request(s) != ANY && Reply(s) != ANY
  {
    NamesDistinct(s, t);
    RequestsDistinct(s, t);
    RequestNotReply(s, t);
  }

  // ---------- the stub's handler ----------

  datatype Outcome = Ok | Unimplemented | NotFound | InvalidArgument
  datatype Answer = Answer(outcome: Outcome, payload: ByteString)

  /**
    What a handler depends on: the compile-time gate, the stub's optional
    engine, and the foreign backend - any function of its call count, topic
    and payload.
   */
  datatype Host = Host(system: bool, engine: Option<seq<Abac.Rule>>, dispatch: (nat, ByteString, ByteString) -> Answer)

  const REPLY_BUFFER := 4096
  const ABAC_DENY: ByteString := "abac deny"
  const SYSTEM_DISABLED: ByteString :=
    "system sandbox disabled " + "at compile time (need " + "-DW2G_ABAC_SYSTEM=1 " + "and an ABAC policy)"
  const NOT_SUPPORTED: ByteString :=
    "net: not supported " + "on wasm32-wasip1 " + "(WASI preview 1 has " + "no socket syscalls)"

  predicate SystemTopic(topic: ByteString) {
    topic == Request(Exec) || topic == Request(User) || topic == Request(Syscall) || topic == Request(Tls)
  }

  /** The topics `W2gSapiHandle` knows. */
  predicate KnownTopic(t: ByteString) {
    || t == "net.dial" || t == "net.listen" || t == "net.tcp.bind" || t == "net.udp.bind"
    || t == "net.accept" || t == "net.io.read" || t == "net.io.write"
    || t == "net.io.readfrom" || t == "net.io.writeto" || t == "net.io.close"
    || t == "os.exec" || t == "os.exec.start" || t == "os.exec.wait"
    || t == "os.exec.stdout.read" || t == "os.exec.stderr.read"
    || t == "os.exec.stdin.write" || t == "os.exec.stdin.close" || t == "os.exec.lookpath"
    || t == "os.user" || t == "syscall"
    || t == "tls.dial" || t == "tls.io.read" || t == "tls.io.write" || t == "tls.io.close"
  }

  lemma {:induction false} RequestKnown(s: Stub)
    ensures KnownTopic(Request(s))
  {
  }

  lemma {:induction false} KnownIsShort(t: ByteString)
    requires KnownTopic(t)
    ensures |t| <= 19
  {
  }

  /** A topic as C text, up to its first NUL. */
  function TopicText(t: ByteString): ByteString {
    t[..FirstSep(NUL, t)]
  }

  lemma {:induction false} RequestText(s: Stub)
    ensures TopicText(Request(s)) == Request(s)
  {
    RequestMark(s);
    FirstSepIs(NUL, Request(s), |Request(s)|);
  }

  /** `W2gSapiHandle`: the paired topic of a topic it knows, and a payload cut to the buffer. */
  function SapiHandle(host: Host, n: nat, topic: ByteString, payload: ByteString): (Outcome, ByteString, ByteString) {
    var t := TopicText(topic);
    if !KnownTopic(t) then (NotFound, [], [])
    else
      var a := if host.system then host.dispatch(n, t, payload) else Answer(Unimplemented, NOT_SUPPORTED);
      (a.outcome, t + ".reply", if |a.payload| > REPLY_BUFFER then a.payload[..REPLY_BUFFER] else a.payload)
  }

  /** `StubLayer::Handle`; None is the cleared topic, for which nothing is published. */
  function Handle(host: Host, s: Stub, n: nat, req: Msg): Option<Msg> {
    if !host.system && SystemTopic(req.topic) then Some(Msg(Name(s), Reply(s), req.id, SYSTEM_DISABLED))
    else if host.engine.Some? && !Abac.Permits(host.engine.value, Name(s), req.topic, req.payload) then
      Some(Msg(Name(s), Reply(s), req.id, ABAC_DENY))
    else
      var (outcome, topic, bytes) := SapiHandle(host, n, req.topic, req.payload);
      if outcome.NotFound? || outcome.InvalidArgument? then None
      else Some(Msg(Name(s), if topic != [] then topic else Reply(s), req.id, bytes))
  }

  /** What the channel makes of any topic: refused, or answered on a short topic within the buffer. */
  lemma {:induction false} SapiBounded(host: Host, n: nat, topic: ByteString, payload: ByteString)
    ensures var (outcome, reply, bytes) := SapiHandle(host, n, topic, payload);
            |reply| <= 25 && |bytes| <= MAX_PAYLOAD
  {
    if KnownTopic(TopicText(topic)) {
      KnownIsShort(TopicText(topic));
      assert |NOT_SUPPORTED| <= REPLY_BUFFER;
    }
  }

  lemma {:induction false} SapiPaired(host: Host, n: nat, s: Stub, payload: ByteString)
    ensures SapiHandle(host, n, Request(s), payload).1 == Reply(s)
  {
    RequestKnown(s);
    RequestText(s);
    ReplyIsSuffixed(s);
  }

  /** Any answer names its stub and the request's id; a stub's own request is answered on its reply topic. */
  lemma {:induction false} HandleAddressed(host: Host, s: Stub, n: nat, req: Msg)
    ensures var r := Handle(host, s, n, req);
            && (r.Some? ==> r.value.from == Name(s) && r.value.id == req.id && InLimit(r.value))
            && (r.Some? && req.topic == Request(s) ==> r.value.topic == Reply(s))
  {
    NameMark(s);
    ReplyMark(s);
    SapiBounded(host, n, req.topic, req.payload);
    if req.topic == Request(s) {
      OwnTopic(host, s, n, req);
    }
  }

  lemma {:induction false} OwnTopic(host: Host, s: Stub, n: nat, req: Msg)
    requires req.topic == Request(s)
    ensures Handle(host, s, n, req).Some? ==> Handle(host, s, n, req).value.topic == Reply(s)
  {
    SapiPaired(host, n, s, req.payload);
  }

  // ---------- what is answered ----------

  /** The compile-time gate is shut for the stub. */
  predicate Gated(host: Host, s: Stub) {
    !host.system && s in {Exec, User, Syscall, Tls}
  }

  predicate Refused(host: Host, s: Stub, payload: ByteString) {
    host.engine.Some? && !Abac.Permits(host.engine.value, Name(s), Request(s), payload)
  }

  /** The backend's n-th answer is one that the stub passes over in silence. */
  predicate Silent(host: Host, s: Stub, n: nat, payload: ByteString) {
    host.system && host.dispatch(n, Request(s), payload).outcome in {NotFound, InvalidArgument}
  }

  /**
    What a reply to a stub's own request carries: the fixed text of a refusal,
    or else the first 4096 bytes of what the backend returned for this request.
   */
  predicate Carries(host: Host, s: Stub, n: nat, payload: ByteString, bytes: ByteString) {
    if Gated(host, s) then bytes == SYSTEM_DISABLED
    else if Refused(host, s, payload) then bytes == "abac deny"
    else if !host.system then bytes == NOT_SUPPORTED
    else var a := host.dispatch(n, Request(s), payload);
         !Silent(host, s, n, payload) && bytes <= a.payload && |bytes| == Min(4096, |a.payload|)
  }

  /** The reply to a stub's own request: by the stub, on its reply topic, with the request's id. */
  predicate IsReply(host: Host, s: Stub, n: nat, req: Msg, reply: Msg) {
    reply.from == Name(s) && reply.topic == Reply(s) && reply.id == req.id
    && Carries(host, s, n, req.payload, reply.payload)
  }

  lemma {:induction false} SystemTopicIff(s: Stub)
    ensures SystemTopic(Request(s)) <==> s in {Exec, User, Syscall, Tls}
  {
    RequestsDistinct(s, Exec);
    RequestsDistinct(s, User);
    RequestsDistinct(s, Syscall);
    RequestsDistinct(s, Tls);
  }

  /** On any topic it knows the channel answers on the topic with a suffix, with what the backend gave for it. */
  lemma {:induction false} KnownAnswers(host: Host, n: nat, topic: ByteString, payload: ByteString)
    requires KnownTopic(TopicText(topic))
    ensures var (outcome, reply, bytes) := SapiHandle(host, n, topic, payload);
            && reply == TopicText(topic) + ".reply"
            && (!host.system ==> outcome.Unimplemented? && bytes == NOT_SUPPORTED)
            && (host.system ==>
                  var a := host.dispatch(n, TopicText(topic), payload);
                  outcome == a.outcome && bytes <= a.payload && |bytes| == Min(4096, |a.payload|))
  {
    assert |NOT_SUPPORTED| <= REPLY_BUFFER;
  }

  lemma {:induction false} SapiAnswers(host: Host, n: nat, s: Stub, payload: ByteString)
    ensures var (outcome, topic, bytes) := SapiHandle(host, n, Request(s), payload);
            && topic == Reply(s) && topic != []
            && (!host.system ==> outcome.Unimplemented? && bytes == NOT_SUPPORTED)
            && (host.system ==>
                  var a := host.dispatch(n, Request(s), payload);
                  outcome == a.outcome && bytes <= a.payload && |bytes| == Min(4096, |a.payload|))
  {
    RequestKnown(s);
    RequestText(s);
    KnownAnswers(host, n, Request(s), payload);
    ReplyIsSuffixed(s);
  }

  /** The handler answers exactly the one reply that carries what it should. */
  lemma {:induction false} HandleIff(host: Host, s: Stub, n: nat, req: Msg, reply: Msg)
    requires req.topic == Request(s)
    ensures Handle(host, s, n, req) == Some(reply) <==> IsReply(host, s, n, req, reply)
  {
    SystemTopicIff(s);
    SapiAnswers(host, n, s, req.payload);
    if IsReply(host, s, n, req, reply) && !Gated(host, s) && !Refused(host, s, req.payload) && host.system {
      var a := host.dispatch(n, Request(s), req.payload);
      SamePrefix(reply.payload, SapiHandle(host, n, Request(s), req.payload).2, a.payload);
    }
  }

  lemma {:induction false} SamePrefix(a: ByteString, b: ByteString, whole: ByteString)
    requires a <= whole && b <= whole && |a| == |b|
    ensures a == b
  {
  }

  /** It is silent exactly on a backend result of NOT_FOUND or INVALID_ARGUMENT to a request that got that far. */
  lemma {:induction false} SilentIff(host: Host, s: Stub, n: nat, req: Msg)
    requires req.topic == Request(s)
    ensures Handle(host, s, n, req).None? <==>
            !Gated(host, s) && !Refused(host, s, req.payload) && Silent(host, s, n, req.payload)
  {
    SystemTopicIff(s);
    SapiAnswers(host, n, s, req.payload);
  }

  /** A refused request never reaches the backend: any other one would leave the answer as it is. */
  lemma {:induction false} RefusalIgnoresBackend(host: Host, other: Host, s: Stub, n: nat, m: nat, req: Msg)
    requires req.topic == Request(s) && host.system == other.system && host.engine == other.engine
    requires Gated(host, s) || Refused(host, s, req.payload)
    ensures Handle(host, s, n, req) == Handle(other, s, m, req)
  {
    SystemTopicIff(s);
  }

  /** A topic the channel does not know is never answered, once gate and engine let it pass. */
  lemma {:induction false} UnknownIsSilent(host: Host, s: Stub, n: nat, req: Msg)
    requires !KnownTopic(TopicText(req.topic)) && (host.system || !SystemTopic(req.topic))
    requires host.engine.Some? ==> Abac.Permits(host.engine.value, Name(s), req.topic, req.payload)
    ensures Handle(host, s, n, req).None?
  {
  }
}

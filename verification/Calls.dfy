/**
  Request and reply over the bus: `WasiNet` calls and the serve loops of the
  default stubs (src/wasi.cc, src/layer.cc, src/bus.cc).

  Coroutines are records with a program counter, channels are rendezvous steps
  between one sender and one receiver, and the scheduler is any interleaving.
 */
module Calls {
  import opened Options
  import opened Bytes
  import opened MsgCodec
  import opened Bus
  import opened Stubs
  import opened Setup

  // ---------- the system ----------

  datatype Phase = Sending(todo: seq<nat>) | Waiting | Returned(reply: Msg) | Failed
  datatype Call = Call(stub: Stub, msg: Msg, phase: Phase)
  datatype Server = Receiving | Replying(reply: Msg, todo: seq<nat>) | Stopped
  datatype Handled = Handled(call: nat, answer: Option<Msg>)

  /** The bus's id counter, all calls begun so far, the eight serve loops, and (history) the requests handled. */
  datatype Net = Net(nextId: U32, calls: seq<Call>, servers: seq<Server>, handled: seq<Handled>)

  function Init(): Net {
    Net(0, [], seq(8, _ => Receiving), [])
  }

  datatype Step = Begin(stub: Stub, payload: ByteString) | ToServer(k: nat, j: nat) | ToCaller(j: nat, k: nat)

  /** A rendezvous needs the head of a sender's snapshot and a receiver parked on that layer's pipe. */
  predicate Enabled(net: Net, step: Step) {
    match step
    case Begin(_, _) => true
    case ToServer(k, j) =>
      && k < |net.calls| && net.calls[k].phase.Sending? && net.calls[k].phase.todo != []
      && j < |net.servers| && j < 8 && net.calls[k].phase.todo[0] == 1 + j && net.servers[j].Receiving?
    case ToCaller(j, k) =>
      && j < |net.servers| && net.servers[j].Replying? && net.servers[j].todo != [] && net.servers[j].todo[0] == 0
      && k < |net.calls| && net.calls[k].phase.Waiting?
  }

  function AfterWrite(todo: seq<nat>): Phase {
    if todo == [] then Waiting else Sending(todo)
  }

  function BeginCall(w: ByteString, net: Net, s: Stub, payload: ByteString): Call {
    var msg := Msg(w, Request(s), NextId(net.nextId), payload);
    Call(s, msg, if !InLimit(msg) then Failed else AfterWrite(Targets(Topology(w, 8), w, Request(s), 9)))
  }

  /** A serve loop publishes its handler's reply, or goes back to receiving when there is none. */
  function AfterHandle(w: ByteString, answer: Option<Msg>): Server {
    if answer.None? then Receiving
    else if !InLimit(answer.value) then Stopped
    else ServerAfterWrite(answer.value, Targets(Topology(w, 8), answer.value.from, answer.value.topic, 9))
  }

  function ServerAfterWrite(reply: Msg, todo: seq<nat>): Server {
    if todo == [] then Receiving else Replying(reply, todo)
  }

  /** What `Call` does with a received message: return it when id and reply topic match, else receive again. */
  function AfterRecv(c: Call, got: Option<Msg>): Phase {
    if got.None? then Failed
    else if got.value.id == c.msg.id && got.value.topic == Reply(c.stub) then Returned(got.value)
    else Waiting
  }

  ghost function Apply(host: Host, w: ByteString, net: Net, step: Step): Net
    requires Enabled(net, step)
  {
    match step
    case Begin(s, payload) =>
      net.(nextId := NextId(net.nextId), calls := net.calls + [BeginCall(w, net, s, payload)])
    case ToServer(k, j) =>
      var c := net.calls[k];
      var calls := net.calls[k := c.(phase := AfterWrite(c.phase.todo[1..]))];
      var got := Decoded(Encoded(c.msg));
      if got.None? then net.(calls := calls, servers := net.servers[j := Stopped])
      else
        var answer := Handle(host, Nth(j), |net.handled|, got.value);
        net.(calls := calls, servers := net.servers[j := AfterHandle(w, answer)],
             handled := net.handled + [Handled(k, answer)])
    case ToCaller(j, k) =>
      var r := net.servers[j];
      var c := net.calls[k];
      net.(calls := net.calls[k := c.(phase := AfterRecv(c, Decoded(Encoded(r.reply))))],
           servers := net.servers[j := ServerAfterWrite(r.reply, r.todo[1..])])
  }

  ghost predicate Runs(host: Host, w: ByteString, net: Net, steps: seq<Step>, end: Net)
    decreases |steps|
  {
    if steps == [] then net == end
    else Enabled(net, steps[0]) && Runs(host, w, Apply(host, w, net, steps[0]), steps[1..], end)
  }

  // ---------- the invariant ----------

  predicate CallOk(w: ByteString, c: Call, k: nat) {
    && c.msg.from == w && c.msg.topic == Request(c.stub) && c.msg.id == IdAfter(0, k + 1)
    && (!c.phase.Failed? ==> InLimit(c.msg))
    && (c.phase.Sending? ==> c.phase.todo == [1 + Order(c.stub)])
  }

  ghost predicate CallsOk(w: ByteString, net: Net) {
    && net.nextId == IdAfter(0, |net.calls|)
    && forall k: nat :: k < |net.calls| ==> CallOk(w, net.calls[k], k)
  }

  /** A handled request was sent by its call, which has moved on, and was answered by that call's stub. */
  predicate HandledOk(host: Host, net: Net, i: nat)
    requires i < |net.handled|
  {
    var h := net.handled[i];
    && h.call < |net.calls|
    && var c := net.calls[h.call];
       && h.answer == Handle(host, c.stub, i, c.msg)
       && (c.phase.Waiting? || c.phase.Returned? || c.phase.Failed?)
  }

  ghost predicate AllHandledOk(host: Host, net: Net) {
    && (forall i: nat :: i < |net.handled| ==> HandledOk(host, net, i))
    && (forall i, j :: 0 <= i < j < |net.handled| ==> net.handled[i].call != net.handled[j].call)
  }

  /** The message is the answer to some handled request of a call to that stub. */
  ghost predicate IsAnswer(net: Net, s: Stub, r: Msg) {
    exists i: nat :: AnswerAt(net, s, r, i)
  }

  predicate AnswerAt(net: Net, s: Stub, r: Msg, i: nat) {
    && i < |net.handled| && net.handled[i].answer == Some(r)
    && net.handled[i].call < |net.calls| && net.calls[net.handled[i].call].stub == s
  }

  ghost predicate ServerOk(net: Net, j: nat)
    requires j < |net.servers| && j < 8
  {
    match net.servers[j]
    case Receiving => true
    case Replying(r, todo) => todo == [0] && IsAnswer(net, Nth(j), r)
    case Stopped => false
  }

  ghost predicate ServersOk(net: Net) {
    |net.servers| == 8 && forall j: nat :: j < 8 ==> ServerOk(net, j)
  }

  ghost predicate ReturnedOk(net: Net, k: nat)
    requires k < |net.calls|
  {
    var c := net.calls[k];
    c.phase.Returned? ==>
      c.phase.reply.id == c.msg.id && c.phase.reply.topic == Reply(c.stub)
      && exists s :: IsAnswer(net, s, c.phase.reply)
  }

  ghost predicate RepliesOk(net: Net) {
    forall k: nat :: k < |net.calls| ==> ReturnedOk(net, k)
  }

  ghost predicate Inv(host: Host, w: ByteString, net: Net) {
    CallsOk(w, net) && AllHandledOk(host, net) && ServersOk(net) && RepliesOk(net)
  }

  /** History only grows. */
  ghost predicate Extends(net: Net, end: Net) {
    && net.handled <= end.handled && |net.calls| <= |end.calls|
    && forall k: nat :: k < |net.calls| ==>
          end.calls[k].stub == net.calls[k].stub && end.calls[k].msg == net.calls[k].msg
  }

  lemma {:induction false} AnswerKept(net: Net, end: Net, s: Stub, r: Msg)
    requires IsAnswer(net, s, r) && Extends(net, end)
    ensures IsAnswer(end, s, r)
  {
    var i: nat :| AnswerAt(net, s, r, i);
    assert AnswerAt(end, s, r, i);
  }

  lemma {:induction false} ReturnedKept(net: Net, end: Net, k: nat)
    requires Extends(net, end) && k < |net.calls| && ReturnedOk(net, k) && end.calls[k] == net.calls[k]
    ensures ReturnedOk(end, k)
  {
    if net.calls[k].phase.Returned? {
      var s :| IsAnswer(net, s, net.calls[k].phase.reply);
      AnswerKept(net, end, s, net.calls[k].phase.reply);
    }
  }

  lemma {:induction false} ServerKept(net: Net, end: Net, j: nat)
    requires Extends(net, end) && j < 8 && |net.servers| == |end.servers| == 8
        && ServerOk(net, j) && end.servers[j] == net.servers[j]
    ensures ServerOk(end, j)
  {
    if net.servers[j].Replying? {
      AnswerKept(net, end, Nth(j), net.servers[j].reply);
    }
  }

  lemma {:induction false} BegunCallOk(w: ByteString, net: Net, s: Stub, payload: ByteString)
    requires CallsOk(w, net) && CallerName(w)
    ensures CallOk(w, BeginCall(w, net, s, payload), |net.calls|)
    ensures BeginCall(w, net, s, payload).phase.Failed? || BeginCall(w, net, s, payload).phase.Sending?
  {
    OneListener(w, s);
  }

  lemma {:induction false} BeginInv(host: Host, w: ByteString, net: Net, s: Stub, payload: ByteString)
    requires Inv(host, w, net) && CallerName(w)
    ensures Inv(host, w, Apply(host, w, net, Begin(s, payload)))
  {
    var end := Apply(host, w, net, Begin(s, payload));
    BegunCallOk(w, net, s, payload);
    assert Extends(net, end);
    forall i: nat | i < |end.handled| ensures HandledOk(host, end, i) {
      assert HandledOk(host, net, i);
    }
    forall j: nat | j < 8 ensures ServerOk(end, j) {
      ServerKept(net, end, j);
    }
    forall k: nat | k < |end.calls| ensures ReturnedOk(end, k) {
      if k < |net.calls| {
        ReturnedKept(net, end, k);
      }
    }
  }

  /** A request has met its serve loop: the call waits, and its stub has answered it, if it does. */
  ghost function Requested(host: Host, net: Net, k: nat): Net
    requires k < |net.calls| && |net.servers| == 8
  {
    var c := net.calls[k];
    var answer := Handle(host, c.stub, |net.handled|, c.msg);
    net.(calls := net.calls[k := c.(phase := Waiting)],
         servers := net.servers[Order(c.stub) := if answer.None? then Receiving else Replying(answer.value, [0])],
         handled := net.handled + [Handled(k, answer)])
  }

  /** A reply has met a waiting call: the serve loop receives again, the call returns it or drops it. */
  ghost function Replied(net: Net, j: nat, k: nat): Net
    requires k < |net.calls| && j < |net.servers| && net.servers[j].Replying?
  {
    var c, r := net.calls[k], net.servers[j].reply;
    var mine := r.id == c.msg.id && r.topic == Reply(c.stub);
    net.(calls := net.calls[k := c.(phase := if mine then Returned(r) else Waiting)],
         servers := net.servers[j := Receiving])
  }

  lemma {:induction false} ToServerShape(host: Host, w: ByteString, net: Net, k: nat, j: nat)
    requires Inv(host, w, net) && CallerName(w) && Enabled(net, ToServer(k, j))
    ensures j == Order(net.calls[k].stub) && net.calls[k].stub == Nth(j)
    ensures Apply(host, w, net, ToServer(k, j)) == Requested(host, net, k)
  {
    var c := net.calls[k];
    assert CallOk(w, c, k);
    assert Order(c.stub) == j && Nth(j) == c.stub;
    DecodedFrame(c.msg);
    HandleAddressed(host, c.stub, |net.handled|, c.msg);
    OneListener(w, c.stub);
    assert c.phase.todo[1..] == [];
  }

  lemma {:induction false} ToServerHandled(host: Host, net: Net, end: Net, k: nat)
    requires AllHandledOk(host, net) && k < |net.calls| && net.calls[k].phase.Sending?
    requires end.calls == net.calls[k := net.calls[k].(phase := Waiting)]
    requires end.handled == net.handled + [Handled(k, Handle(host, net.calls[k].stub, |net.handled|, net.calls[k].msg))]
    ensures AllHandledOk(host, end)
  {
    forall i: nat | i < |end.handled|
      ensures HandledOk(host, end, i) && (i < |net.handled| ==> end.handled[i].call != k) {
      if i < |net.handled| {
        assert HandledOk(host, net, i);
      }
    }
  }

  lemma {:induction false} ToServerInv(host: Host, w: ByteString, net: Net, k: nat, j: nat)
    requires Inv(host, w, net) && CallerName(w) && Enabled(net, ToServer(k, j))
    ensures Inv(host, w, Apply(host, w, net, ToServer(k, j)))
  {
    ToServerShape(host, w, net, k, j);
    assert CallOk(w, net.calls[k], k);
    RequestedInv(host, w, net, k);
  }

  lemma {:induction false} RequestedInv(host: Host, w: ByteString, net: Net, k: nat)
    requires Inv(host, w, net) && k < |net.calls| && net.calls[k].phase.Sending?
    ensures Inv(host, w, Requested(host, net, k))
  {
    var end, j := Requested(host, net, k), Order(net.calls[k].stub);
    assert CallOk(w, net.calls[k], k);
    assert Extends(net, end);
    ToServerHandled(host, net, end, k);
    forall i: nat | i < 8 ensures ServerOk(end, i) {
      if i != j {
        ServerKept(net, end, i);
      } else if end.servers[j].Replying? {
        assert AnswerAt(end, Nth(j), end.servers[j].reply, |net.handled|);
      }
    }
    forall i: nat | i < |end.calls| ensures ReturnedOk(end, i) {
      if i != k {
        ReturnedKept(net, end, i);
      }
    }
  }

  lemma {:induction false} AnswerInLimit(host: Host, net: Net, s: Stub, r: Msg)
    requires AllHandledOk(host, net) && IsAnswer(net, s, r)
    ensures InLimit(r)
  {
    var i: nat :| AnswerAt(net, s, r, i);
    assert HandledOk(host, net, i);
    HandleAddressed(host, s, i, net.calls[net.handled[i].call].msg);
  }

  lemma {:induction false} ToCallerShape(host: Host, w: ByteString, net: Net, j: nat, k: nat)
    requires Inv(host, w, net) && Enabled(net, ToCaller(j, k))
    ensures j < 8 && IsAnswer(net, Nth(j), net.servers[j].reply)
    ensures Apply(host, w, net, ToCaller(j, k)) == Replied(net, j, k)
  {
    assert ServerOk(net, j);
    var r := net.servers[j].reply;
    AnswerInLimit(host, net, Nth(j), r);
    DecodedFrame(r);
    assert net.servers[j].todo[1..] == [];
  }

  lemma {:induction false} ToCallerInv(host: Host, w: ByteString, net: Net, j: nat, k: nat)
    requires Inv(host, w, net) && Enabled(net, ToCaller(j, k))
    ensures Inv(host, w, Apply(host, w, net, ToCaller(j, k)))
  {
    ToCallerShape(host, w, net, j, k);
    RepliedInv(host, w, net, j, k);
  }

  lemma {:induction false} RepliedInv(host: Host, w: ByteString, net: Net, j: nat, k: nat)
    requires Inv(host, w, net) && j < 8 && net.servers[j].Replying? && IsAnswer(net, Nth(j), net.servers[j].reply)
    requires k < |net.calls| && net.calls[k].phase.Waiting?
    ensures Inv(host, w, Replied(net, j, k))
  {
    var end := Replied(net, j, k);
    var r := net.servers[j].reply;
    assert CallOk(w, net.calls[k], k);
    assert Extends(net, end);
    forall i: nat | i < |end.handled| ensures HandledOk(host, end, i) {
      assert HandledOk(host, net, i);
    }
    forall i: nat | i < 8 ensures ServerOk(end, i) {
      if i != j {
        ServerKept(net, end, i);
      }
    }
    forall i: nat | i < |end.calls| ensures ReturnedOk(end, i) {
      if i == k {
        AnswerKept(net, end, Nth(j), r);
      } else {
        ReturnedKept(net, end, i);
      }
    }
  }

  lemma {:induction false} StepInv(host: Host, w: ByteString, net: Net, step: Step)
    requires Inv(host, w, net) && CallerName(w) && Enabled(net, step)
    ensures Inv(host, w, Apply(host, w, net, step))
  {
    match step {
      case Begin(s, payload) => BeginInv(host, w, net, s, payload);
      case ToServer(k, j) => ToServerInv(host, w, net, k, j);
      case ToCaller(j, k) => ToCallerInv(host, w, net, j, k);
    }
  }

  lemma {:induction false} RunInv(host: Host, w: ByteString, net: Net, steps: seq<Step>, end: Net)
    requires Inv(host, w, net) && CallerName(w) && Runs(host, w, net, steps, end)
    ensures Inv(host, w, end)
    decreases |steps|
  {
    if steps != [] {
      StepInv(host, w, net, steps[0]);
      RunInv(host, w, Apply(host, w, net, steps[0]), steps[1..], end);
    }
  }

  lemma {:induction false} ReachableInv(host: Host, w: ByteString, steps: seq<Step>, net: Net)
    requires CallerName(w) && Runs(host, w, Init(), steps, net)
    ensures Inv(host, w, net)
  {
    RunInv(host, w, Init(), steps, net);
  }

  // ---------- correlation ----------

  /**
    However calls interleave, as long as no more than 2^32 - 1 were begun: a call that
    returns, returns its own handler's answer to its own request - with the bytes
    the backend returned for it - and that request was handled exactly once.
   */
  lemma {:induction false} CallReturnsOwnReply(host: Host, w: ByteString, steps: seq<Step>, net: Net, k: nat)
    requires CallerName(w) && Runs(host, w, Init(), steps, net)
    requires |net.calls| <= ID_PERIOD && k < |net.calls| && net.calls[k].phase.Returned?
    ensures exists i: nat :: i < |net.handled|
              && net.handled[i].call == k
              && Handle(host, net.calls[k].stub, i, net.calls[k].msg) == Some(net.calls[k].phase.reply)
              && IsReply(host, net.calls[k].stub, i, net.calls[k].msg, net.calls[k].phase.reply)
              && forall m: nat :: m < |net.handled| && net.handled[m].call == k ==> m == i
  {
    ReachableInv(host, w, steps, net);
    var c := net.calls[k];
    assert ReturnedOk(net, k);
    var s :| IsAnswer(net, s, c.phase.reply);
    var i: nat :| AnswerAt(net, s, c.phase.reply, i);
    AnswerIsOwn(host, w, net, k, s, i);
    assert CallOk(w, c, k);
    HandleIff(host, c.stub, i, c.msg, c.phase.reply);
    forall m: nat | m < |net.handled| && net.handled[m].call == k ensures m == i {}
  }

  lemma {:induction false} AnswerIsOwn(host: Host, w: ByteString, net: Net, k: nat, s: Stub, i: nat)
    requires Inv(host, w, net) && |net.calls| <= ID_PERIOD && k < |net.calls| && net.calls[k].phase.Returned?
    requires AnswerAt(net, s, net.calls[k].phase.reply, i)
    ensures net.handled[i].call == k
    ensures Handle(host, net.calls[k].stub, i, net.calls[k].msg) == Some(net.calls[k].phase.reply)
  {
    var o := net.handled[i].call;
    assert HandledOk(host, net, i) && ReturnedOk(net, k);
    assert CallOk(w, net.calls[o], o) && CallOk(w, net.calls[k], k);
    HandleAddressed(host, s, i, net.calls[o].msg);
    SameId(o, k);
  }

  lemma {:induction false} SameId(o: nat, k: nat)
    requires o < ID_PERIOD && k < ID_PERIOD && IdAfter(0, o + 1) == IdAfter(0, k + 1)
    ensures o == k
  {
    if o < k {
      IdsDistinct(0, o + 1, k + 1);
    } else if k < o {
      IdsDistinct(0, k + 1, o + 1);
    }
  }
}

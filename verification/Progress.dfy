/** Where calls end, and that a single outstanding call does (src/bus.cc, src/layer.cc, src/stub.cc). */
module Progress {
  import opened Options
  import opened Bytes
  import opened MsgCodec
  import opened Bus
  import opened Stubs
  import opened Setup
  import opened Calls

  predicate Quiet(p: Phase) {
    p.Returned? || p.Failed?
  }

  /** All serve loops receive and no call is in progress, call `k` aside. */
  predicate IdleBut(net: Net, k: nat) {
    && (forall j :: 0 <= j < |net.servers| ==> net.servers[j].Receiving?)
    && (forall i :: 0 <= i < |net.calls| && i != k ==> Quiet(net.calls[i].phase))
  }

  predicate Idle(net: Net) {
    IdleBut(net, |net.calls|)
  }

  /** No rendezvous is possible: nothing moves until another call begins. */
  ghost predicate Terminal(net: Net) {
    forall step: Step :: !step.Begin? ==> !Enabled(net, step)
  }

  predicate NoNewCalls(steps: seq<Step>) {
    forall i :: 0 <= i < |steps| ==> !steps[i].Begin?
  }

  // ---------- the stages of a single call ----------

  /** The answer is on its way back: one stub replies, the rest receives. */
  predicate ReplyUnderway(net: Net, k: nat) {
    && k < |net.calls| && net.calls[k].phase.Waiting? && |net.servers| == 8
    && (forall i :: 0 <= i < |net.calls| && i != k ==> Quiet(net.calls[i].phase))
    && var j := Order(net.calls[k].stub);
       && net.servers[j].Replying? && net.servers[j].todo == [0]
       && net.servers[j].reply.id == net.calls[k].msg.id && net.servers[j].reply.topic == Reply(net.calls[k].stub)
       && forall i :: 0 <= i < 8 && i != j ==> net.servers[i].Receiving?
  }

  /** The end of a call, by what its stub's handler answers to it. */
  ghost predicate Outcomes(host: Host, end: Net, k: nat, n: nat) {
    && k < |end.calls|
    && var c := end.calls[k];
       && IdleBut(end, k)
       && c.phase == if !InLimit(c.msg) then Failed
                     else if Handle(host, c.stub, n, c.msg).Some? then Returned(Handle(host, c.stub, n, c.msg).value)
                     else Waiting
  }

  lemma {:induction false} AfterReply(net: Net, k: nat, end: Net)
    requires ReplyUnderway(net, k) && end == Replied(net, Order(net.calls[k].stub), k)
    ensures IdleBut(end, k)
    ensures end.calls[k] == net.calls[k].(phase := Returned(net.servers[Order(net.calls[k].stub)].reply))
  {
  }

  lemma {:induction false} OnlyReplyMoves(net: Net, k: nat, step: Step)
    requires ReplyUnderway(net, k) && Enabled(net, step) && !step.Begin?
    ensures step == ToCaller(Order(net.calls[k].stub), k)
  {
  }

  lemma {:induction false} ReplyArrives(host: Host, w: ByteString, net: Net, k: nat, n: nat, steps: seq<Step>, end: Net)
    requires Inv(host, w, net) && ReplyUnderway(net, k) && InLimit(net.calls[k].msg)
    requires Handle(host, net.calls[k].stub, n, net.calls[k].msg) == Some(net.servers[Order(net.calls[k].stub)].reply)
    requires Runs(host, w, net, steps, end) && NoNewCalls(steps)
    ensures |steps| <= 1 && (Terminal(end) ==> Outcomes(host, end, k, n))
  {
    var move := ToCaller(Order(net.calls[k].stub), k);
    assert Enabled(net, move);
    if steps != [] {
      OnlyReplyMoves(net, k, steps[0]);
      ToCallerShape(host, w, net, Order(net.calls[k].stub), k);
      var next := Apply(host, w, net, move);
      AfterReply(net, k, next);
      NothingMoves(host, w, next, k, steps[1..], end);
    }
  }

  lemma {:induction false} CannotMove(net: Net, k: nat, step: Step)
    requires IdleBut(net, k) && (k < |net.calls| ==> !net.calls[k].phase.Sending?)
    ensures Enabled(net, step) ==> step.Begin?
  {
  }

  lemma {:induction false} NothingMoves(host: Host, w: ByteString, net: Net, k: nat, steps: seq<Step>, end: Net)
    requires IdleBut(net, k) && (k < |net.calls| ==> !net.calls[k].phase.Sending?)
    requires Runs(host, w, net, steps, end) && NoNewCalls(steps)
    ensures steps == [] && end == net
  {
    if steps != [] {
      CannotMove(net, k, steps[0]);
    }
  }

  // ---------- a single call ----------

  /**
    From an idle system a call takes at most two rendezvous, in every run; and
    where nothing moves any more it has ended as its handler decided: refused
    when over the frame limit, returned with the handler's reply, and still
    waiting exactly when the handler answers nothing.
   */
  lemma {:induction false} SingleCallCompletes(host: Host, w: ByteString, net: Net, s: Stub, payload: ByteString,
                            steps: seq<Step>, end: Net)
    requires Inv(host, w, net) && CallerName(w) && Idle(net)
    requires Runs(host, w, Apply(host, w, net, Begin(s, payload)), steps, end) && NoNewCalls(steps)
    ensures |steps| <= 2
    ensures Terminal(end) ==> Outcomes(host, end, |net.calls|, |net.handled|)
                              && end.calls[|net.calls|].stub == s && end.calls[|net.calls|].msg.payload == payload
    ensures Terminal(end) && end.calls[|net.calls|].phase.Returned? ==> Idle(end)
  {
    BegunState(host, w, net, s, payload);
    BegunCompletes(host, w, Apply(host, w, net, Begin(s, payload)), |net.calls|, steps, end);
  }

  lemma {:induction false} BegunState(host: Host, w: ByteString, net: Net, s: Stub, payload: ByteString)
    requires Inv(host, w, net) && CallerName(w) && Idle(net)
    ensures var first, k := Apply(host, w, net, Begin(s, payload)), |net.calls|;
            && Inv(host, w, first) && |first.calls| == k + 1 && IdleBut(first, k) && first.handled == net.handled
            && first.calls[k].stub == s && first.calls[k].msg.payload == payload
            && if InLimit(first.calls[k].msg) then first.calls[k].phase.Sending? else first.calls[k].phase.Failed?
  {
    BeginInv(host, w, net, s, payload);
    BegunCallOk(w, net, s, payload);
  }

  lemma {:induction false} BegunCompletes(host: Host, w: ByteString, net: Net, k: nat, steps: seq<Step>, end: Net)
    requires Inv(host, w, net) && CallerName(w) && |net.calls| == k + 1 && IdleBut(net, k)
    requires if InLimit(net.calls[k].msg) then net.calls[k].phase.Sending? else net.calls[k].phase.Failed?
    requires Runs(host, w, net, steps, end) && NoNewCalls(steps)
    ensures |steps| <= 2 && (Terminal(end) ==> Outcomes(host, end, k, |net.handled|))
    ensures Terminal(end) ==> end.calls[k].stub == net.calls[k].stub && end.calls[k].msg == net.calls[k].msg
    ensures Terminal(end) && end.calls[k].phase.Returned? ==> Idle(end)
  {
    RunExtends(host, w, net, steps, end);
    if net.calls[k].phase.Failed? {
      NothingMoves(host, w, net, k, steps, end);
    } else {
      RequestArrives(host, w, net, k, steps, end);
    }
  }

  lemma {:induction false} OnlyRequestMoves(w: ByteString, net: Net, k: nat, step: Step)
    requires CallsOk(w, net) && k < |net.calls| && IdleBut(net, k) && net.calls[k].phase.Sending? && |net.servers| == 8
    ensures Enabled(net, ToServer(k, Order(net.calls[k].stub)))
    ensures Enabled(net, step) && !step.Begin? ==> step == ToServer(k, Order(net.calls[k].stub))
  {
    assert CallOk(w, net.calls[k], k);
  }

  lemma {:induction false} AfterRequest(host: Host, net: Net, k: nat, end: Net)
    requires k < |net.calls| && IdleBut(net, k) && |net.servers| == 8 && end == Requested(host, net, k)
    requires net.calls[k].msg.topic == Request(net.calls[k].stub)
    ensures end.calls[k] == net.calls[k].(phase := Waiting)
    ensures var answer := Handle(host, net.calls[k].stub, |net.handled|, net.calls[k].msg);
            if answer.None? then IdleBut(end, k)
            else ReplyUnderway(end, k) && end.servers[Order(net.calls[k].stub)].reply == answer.value
  {
    HandleAddressed(host, net.calls[k].stub, |net.handled|, net.calls[k].msg);
  }

  lemma {:induction false} RequestArrives(host: Host, w: ByteString, net: Net, k: nat, steps: seq<Step>, end: Net)
    requires Inv(host, w, net) && CallerName(w) && k < |net.calls| && IdleBut(net, k)
    requires net.calls[k].phase.Sending?
    requires Runs(host, w, net, steps, end) && NoNewCalls(steps)
    ensures |steps| <= 2 && (Terminal(end) ==> Outcomes(host, end, k, |net.handled|))
  {
    assert CallOk(w, net.calls[k], k);
    var j := Order(net.calls[k].stub);
    OnlyRequestMoves(w, net, k, ToServer(k, j));
    if steps != [] {
      OnlyRequestMoves(w, net, k, steps[0]);
      ToServerInv(host, w, net, k, j);
      ToServerShape(host, w, net, k, j);
      var next := Apply(host, w, net, steps[0]);
      AfterRequest(host, net, k, next);
      AfterwardsCompletes(host, w, next, k, |net.handled|, steps[1..], end);
    }
  }

  lemma {:induction false} AfterwardsCompletes(host: Host, w: ByteString, net: Net, k: nat, n: nat,
                                               steps: seq<Step>, end: Net)
    requires Inv(host, w, net) && k < |net.calls| && net.calls[k].phase.Waiting? && InLimit(net.calls[k].msg)
    requires var answer := Handle(host, net.calls[k].stub, n, net.calls[k].msg);
             if answer.None? then IdleBut(net, k)
             else ReplyUnderway(net, k) && net.servers[Order(net.calls[k].stub)].reply == answer.value
    requires Runs(host, w, net, steps, end) && NoNewCalls(steps)
    ensures |steps| <= 1 && (Terminal(end) ==> Outcomes(host, end, k, n))
  {
    if Handle(host, net.calls[k].stub, n, net.calls[k].msg).None? {
      NothingMoves(host, w, net, k, steps, end);
    } else {
      ReplyArrives(host, w, net, k, n, steps, end);
    }
  }

  lemma {:induction false} StepExtends(host: Host, w: ByteString, net: Net, step: Step)
    requires Enabled(net, step)
    ensures Extends(net, Apply(host, w, net, step))
  {
    var end := Apply(host, w, net, step);
    forall k: nat | k < |net.calls|
      ensures end.calls[k].stub == net.calls[k].stub && end.calls[k].msg == net.calls[k].msg {}
    assert net.handled <= end.handled;
  }

  lemma {:induction false} RunExtends(host: Host, w: ByteString, net: Net, steps: seq<Step>, end: Net)
    requires Runs(host, w, net, steps, end)
    ensures Extends(net, end)
    decreases |steps|
  {
    if steps != [] {
      StepExtends(host, w, net, steps[0]);
      RunExtends(host, w, Apply(host, w, net, steps[0]), steps[1..], end);
    }
  }
}

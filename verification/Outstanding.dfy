/**
  Several outstanding calls of one layer (src/bus.cc:133-148): every `Call`
  receives on the same pipe end and drops what is not its own, so whether all
  of them end depends on whose requests are outstanding.
 */
module Outstanding {
  import opened Options
  import opened Tallies
  import opened Bytes
  import opened MsgCodec
  import opened Bus
  import opened Stubs
  import opened Setup
  import opened Calls
  import opened Progress

  /** Every handler answers its own stub's request, whatever the backend's call count. */
  ghost predicate AlwaysAnswers(host: Host) {
    forall s: Stub, n: nat, req: Msg :: req.topic == Request(s) ==> Handle(host, s, n, req).Some?
  }

  predicate QuietBefore(net: Net, a: nat) {
    a <= |net.calls| && forall i :: 0 <= i < a ==> Quiet(net.calls[i].phase)
  }

  predicate AllReturned(net: Net, a: nat) {
    forall k :: a <= k < |net.calls| ==> net.calls[k].phase.Returned?
  }

  /** A run without further calls, to where nothing moves any more. */
  ghost predicate EndsRun(host: Host, w: ByteString, net: Net, steps: seq<Step>, end: Net) {
    Runs(host, w, net, steps, end) && NoNewCalls(steps) && Terminal(end)
  }

  ghost predicate EveryRunReturns(host: Host, w: ByteString, net: Net, a: nat) {
    forall steps: seq<Step>, end: Net :: EndsRun(host, w, net, steps, end) ==> AllReturned(end, a)
  }

  /** A call that is to be made. */
  datatype Ask = Ask(stub: Stub, payload: ByteString)

  /** None is over the frame limit. */
  predicate AsksInLimit(asks: seq<Ask>) {
    forall i :: 0 <= i < |asks| ==> |asks[i].payload| <= MAX_PAYLOAD
  }

  predicate OneStub(asks: seq<Ask>) {
    forall i, j :: 0 <= i < |asks| && 0 <= j < |asks| ==> asks[i].stub == asks[j].stub
  }

  /** The state after all of them were begun, one after the other. */
  ghost function AllBegun(host: Host, w: ByteString, net: Net, asks: seq<Ask>): Net
    decreases |asks|
  {
    if asks == [] then net
    else AllBegun(host, w, Apply(host, w, net, Begin(asks[0].stub, asks[0].payload)), asks[1..])
  }

  /** Whatever new calls the run holds, they are in limit and to this stub. */
  predicate OnlyTo(s: Stub, steps: seq<Step>) {
    forall i :: 0 <= i < |steps| && steps[i].Begin? ==> steps[i].stub == s && |steps[i].payload| <= MAX_PAYLOAD
  }

  // ---------- calls to one stub ----------

  /** Call `k` is the only one that waits, and the reply is its own. */
  predicate Addressed(net: Net, a: nat, k: nat, r: Msg) {
    && a <= k < |net.calls| && net.calls[k].phase.Waiting?
    && r.id == net.calls[k].msg.id && r.topic == Reply(net.calls[k].stub)
    && forall i :: a <= i < |net.calls| && i != k ==> !net.calls[i].phase.Waiting?
  }

  /** The calls from `a` on are to one stub: one at a time waits, while the stub's loop replies to it. */
  ghost predicate Serial(net: Net, a: nat, s: Stub) {
    && QuietBefore(net, a) && |net.servers| == 8
    && (forall k :: a <= k < |net.calls| ==> net.calls[k].stub == s && !net.calls[k].phase.Failed?)
    && (forall j :: 0 <= j < 8 && j != Order(s) ==> net.servers[j].Receiving?)
    && match net.servers[Order(s)]
       case Receiving => forall k :: a <= k < |net.calls| ==> !net.calls[k].phase.Waiting?
       case Replying(r, todo) => todo == [0] && exists k: nat :: Addressed(net, a, k, r)
       case Stopped => false
  }

  lemma {:induction false} BegunSending(host: Host, w: ByteString, net: Net, s: Stub, payload: ByteString)
    requires Inv(host, w, net) && CallerName(w) && |payload| <= MAX_PAYLOAD
    ensures BeginCall(w, net, s, payload).phase.Sending? && BeginCall(w, net, s, payload).stub == s
  {
    RequestMark(s);
    OneListener(w, s);
  }

  lemma {:induction false} SerialBegin(net: Net, a: nat, s: Stub, c: Call, end: Net)
    requires Serial(net, a, s) && c.stub == s && c.phase.Sending?
    requires end.calls == net.calls + [c] && end.servers == net.servers
    ensures Serial(end, a, s)
  {
    if net.servers[Order(s)].Replying? {
      var k: nat :| Addressed(net, a, k, net.servers[Order(s)].reply);
      assert Addressed(end, a, k, net.servers[Order(s)].reply);
    }
  }

  lemma {:induction false} SerialRequested(host: Host, net: Net, a: nat, s: Stub, k: nat)
    requires Serial(net, a, s) && AlwaysAnswers(host)
    requires k < |net.calls| && net.calls[k].phase.Sending? && net.calls[k].msg.topic == Request(net.calls[k].stub)
    requires net.servers[Order(net.calls[k].stub)].Receiving?
    ensures Serial(Requested(host, net, k), a, s)
  {
    var end := Requested(host, net, k);
    HandleAddressed(host, s, |net.handled|, net.calls[k].msg);
    assert Addressed(end, a, k, end.servers[Order(s)].reply);
  }

  lemma {:induction false} SerialReplied(net: Net, a: nat, s: Stub, j: nat, k: nat)
    requires Serial(net, a, s) && j < 8 && net.servers[j].Replying? && k < |net.calls| && net.calls[k].phase.Waiting?
    ensures Serial(Replied(net, j, k), a, s)
  {
    var i: nat :| Addressed(net, a, i, net.servers[Order(s)].reply);
    assert i == k;
  }

  lemma {:induction false} SerialStep(host: Host, w: ByteString, net: Net, a: nat, s: Stub, step: Step)
    requires Inv(host, w, net) && CallerName(w) && AlwaysAnswers(host) && Serial(net, a, s)
    requires Enabled(net, step) && (step.Begin? ==> step.stub == s && |step.payload| <= MAX_PAYLOAD)
    ensures Serial(Apply(host, w, net, step), a, s)
  {
    match step {
      case Begin(_, payload) =>
        BegunSending(host, w, net, s, payload);
        SerialBegin(net, a, s, BeginCall(w, net, s, payload), Apply(host, w, net, step));
      case ToServer(k, j) =>
        assert CallOk(w, net.calls[k], k);
        ToServerShape(host, w, net, k, j);
        SerialRequested(host, net, a, s, k);
      case ToCaller(j, k) =>
        ToCallerShape(host, w, net, j, k);
        SerialReplied(net, a, s, j, k);
    }
  }

  lemma {:induction false} SerialRun(host: Host, w: ByteString, net: Net, a: nat, s: Stub, steps: seq<Step>, end: Net)
    requires Inv(host, w, net) && CallerName(w) && AlwaysAnswers(host) && Serial(net, a, s)
    requires Runs(host, w, net, steps, end) && OnlyTo(s, steps)
    ensures Serial(end, a, s) && Inv(host, w, end)
    decreases |steps|
  {
    if steps != [] {
      SerialStep(host, w, net, a, s, steps[0]);
      StepInv(host, w, net, steps[0]);
      SerialRun(host, w, Apply(host, w, net, steps[0]), a, s, steps[1..], end);
    }
  }

  lemma {:induction false} ReplyCanMove(net: Net, a: nat, s: Stub)
    requires Serial(net, a, s) && net.servers[Order(s)].Replying?
    ensures !Terminal(net)
  {
    var k: nat :| Addressed(net, a, k, net.servers[Order(s)].reply);
    assert Enabled(net, ToCaller(Order(s), k));
  }

  lemma {:induction false} SerialTerminal(w: ByteString, net: Net, a: nat, s: Stub)
    requires CallsOk(w, net) && Serial(net, a, s) && Terminal(net)
    ensures AllReturned(net, a)
  {
    var j := Order(s);
    if net.servers[j].Replying? {
      ReplyCanMove(net, a, s);
    }
    forall k: nat | a <= k < |net.calls| ensures net.calls[k].phase.Returned? {
      assert CallOk(w, net.calls[k], k);
      assert !Enabled(net, ToServer(k, j));
    }
  }

  /** Any number of calls to one stub, begun at any time: where nothing moves any more, all have returned. */
  lemma {:induction false} OneStubReturns(host: Host, w: ByteString, net: Net, s: Stub, steps: seq<Step>, end: Net)
    requires Inv(host, w, net) && CallerName(w) && Idle(net) && AlwaysAnswers(host)
    requires Runs(host, w, net, steps, end) && OnlyTo(s, steps) && Terminal(end)
    ensures AllReturned(end, |net.calls|)
  {
    SerialRun(host, w, net, |net.calls|, s, steps, end);
    SerialTerminal(w, end, |net.calls|, s);
  }

  // ---------- a reply that is lost ----------

  /** Two calls to different stubs whose requests are still to be handled, the first one's next. */
  predicate Crossable(host: Host, net: Net, i: nat, j: nat) {
    && i < |net.calls| && j < |net.calls| && |net.servers| == 8
    && net.calls[i].phase.Sending? && net.calls[j].phase.Sending? && net.calls[i].stub != net.calls[j].stub
    && net.servers[Order(net.calls[i].stub)].Receiving? && net.servers[Order(net.calls[j].stub)].Receiving?
    && Handle(host, net.calls[i].stub, |net.handled|, net.calls[i].msg).Some?
    && Handle(host, net.calls[j].stub, |net.handled| + 1, net.calls[j].msg).Some?
  }

  /** Both requests were handled, and call `j` took and dropped the reply to call `i`. */
  ghost function Crossed(host: Host, net: Net, i: nat, j: nat): Net
    requires Crossable(host, net, i, j)
  {
    var c, d, n := net.calls[i], net.calls[j], |net.handled|;
    var p, q := Handle(host, c.stub, n, c.msg), Handle(host, d.stub, n + 1, d.msg);
    net.(calls := net.calls[i := c.(phase := Waiting)][j := d.(phase := Waiting)],
         servers := net.servers[Order(d.stub) := Replying(q.value, [0])],
         handled := net.handled + [Handled(i, p)] + [Handled(j, q)])
  }

  lemma {:induction false} OrderDistinct(s: Stub, t: Stub)
    requires s != t
    ensures Order(s) != Order(t)
  {
    assert Nth(Order(s)) == s && Nth(Order(t)) == t;
  }

  lemma {:induction false} CrossingStates(host: Host, net: Net, i: nat, j: nat)
    requires Crossable(host, net, i, j)
    requires net.calls[i].msg.topic == Request(net.calls[i].stub)
    ensures var first := Requested(host, net, i);
            var second := Requested(host, first, j);
            var s, t := Order(net.calls[i].stub), Order(net.calls[j].stub);
            && first.calls[j] == net.calls[j] && first.servers[t].Receiving?
            && second.calls[j] == net.calls[j].(phase := Waiting)
            && second.servers[s] ==
               Replying(Handle(host, net.calls[i].stub, |net.handled|, net.calls[i].msg).value, [0])
            && Replied(second, s, j) == Crossed(host, net, i, j)
  {
    var c, d := net.calls[i], net.calls[j];
    OrderDistinct(c.stub, d.stub);
    var second := Requested(host, Requested(host, net, i), j);
    var p := Handle(host, c.stub, |net.handled|, c.msg).value;
    var q := Handle(host, d.stub, |net.handled| + 1, d.msg).value;
    assert second.servers == net.servers[Order(c.stub) := Replying(p, [0])][Order(d.stub) := Replying(q, [0])];
    PutBack(net.servers, Order(c.stub), Replying(p, [0]), Order(d.stub), Replying(q, [0]));
    NotOwn(host, c, |net.handled|, d);
    assert second.calls[j := d.(phase := Waiting)] == second.calls;
  }

  /** The answer to one stub's request is not on another stub's reply topic. */
  lemma {:induction false} NotOwn(host: Host, c: Call, n: nat, d: Call)
    requires c.stub != d.stub && c.msg.topic == Request(c.stub)
    ensures var r := Handle(host, c.stub, n, c.msg); r.Some? ==> r.value.topic != Reply(d.stub)
  {
    RequestsDistinct(c.stub, d.stub);
    HandleAddressed(host, c.stub, n, c.msg);
  }

  lemma {:induction false} PutBack(servers: seq<Server>, i: nat, v: Server, j: nat, u: Server)
    requires i < |servers| && j < |servers| && i != j && servers[i].Receiving?
    ensures servers[i := v][j := u][i := Receiving] == servers[j := u]
  {
  }

  /** From `start` by `before` to `net`, then across. */
  lemma {:induction false} Crossing(host: Host, w: ByteString, start: Net, before: seq<Step>, net: Net, i: nat, j: nat)
    returns (steps: seq<Step>)
    requires Inv(host, w, net) && CallerName(w) && Crossable(host, net, i, j) && Runs(host, w, start, before, net)
    ensures Runs(host, w, start, steps, Crossed(host, net, i, j)) && Inv(host, w, Crossed(host, net, i, j))
    ensures NoNewCalls(before) ==> NoNewCalls(steps)
  {
    assert CallOk(w, net.calls[i], i) && CallOk(w, net.calls[j], j);
    CrossingStates(host, net, i, j);
    var first := Requested(host, net, i);
    steps := RequestStep(host, w, start, before, net, i);
    var second := Requested(host, first, j);
    steps := RequestStep(host, w, start, steps, first, j);
    steps := OneStep(host, w, start, steps, second, ToCaller(Order(net.calls[i].stub), j), Crossed(host, net, i, j));
  }

  lemma {:induction false} RequestStep(host: Host, w: ByteString, start: Net, before: seq<Step>, net: Net, k: nat)
    returns (steps: seq<Step>)
    requires Inv(host, w, net) && CallerName(w) && k < |net.calls| && net.calls[k].phase.Sending?
    requires net.servers[Order(net.calls[k].stub)].Receiving? && Runs(host, w, start, before, net)
    ensures Runs(host, w, start, steps, Requested(host, net, k)) && Inv(host, w, Requested(host, net, k))
    ensures NoNewCalls(before) ==> NoNewCalls(steps)
  {
    assert CallOk(w, net.calls[k], k);
    var step := ToServer(k, Order(net.calls[k].stub));
    steps := OneStep(host, w, start, before, net, step, Requested(host, net, k));
  }

  /** A single rendezvous, by the shape of what it leads to. */
  lemma {:induction false} OneStep(host: Host, w: ByteString, start: Net, before: seq<Step>, net: Net,
                                   step: Step, end: Net)
    returns (steps: seq<Step>)
    requires Inv(host, w, net) && CallerName(w) && Enabled(net, step) && !step.Begin?
    requires Runs(host, w, start, before, net)
    requires step.ToServer? ==> end == Requested(host, net, step.k)
    requires step.ToCaller? ==> end == Replied(net, step.j, step.k)
    ensures Runs(host, w, start, steps, end) && Inv(host, w, end)
    ensures NoNewCalls(before) ==> NoNewCalls(steps)
  {
    StepInv(host, w, net, step);
    match step {
      case ToServer(k, j) => ToServerShape(host, w, net, k, j);
      case ToCaller(j, k) => ToCallerShape(host, w, net, j, k);
    }
    RunsSnoc(host, w, start, before, net, step);
    steps := before + [step];
  }

  lemma {:induction false} RunsSnoc(host: Host, w: ByteString, net: Net, steps: seq<Step>, mid: Net, step: Step)
    requires Runs(host, w, net, steps, mid) && Enabled(mid, step)
    ensures Runs(host, w, net, steps + [step], Apply(host, w, mid, step))
    decreases |steps|
  {
    if steps == [] {
      assert [] + [step] == [step] && [step][1..] == [];
      assert Runs(host, w, Apply(host, w, mid, step), [], Apply(host, w, mid, step));
    } else {
      assert (steps + [step])[1..] == steps[1..] + [step] && (steps + [step])[0] == steps[0];
      RunsSnoc(host, w, Apply(host, w, net, steps[0]), steps[1..], mid, step);
    }
  }

  // ---------- counting replies ----------

  function IsOpen(c: Call): nat { if c.phase.Sending? || c.phase.Returned? then 1 else 0 }

  function IsSending(c: Call): nat { if c.phase.Sending? then 1 else 0 }

  function IsReplying(v: Server): nat { if v.Replying? then 1 else 0 }

  /** An upper bound for the calls from `a` on that can still return, with those that have. */
  function Hope(net: Net, a: nat): nat
    requires a <= |net.calls|
  {
    Tally(net.calls[a..], IsOpen) + Tally(net.servers, IsReplying)
  }

  /** The rendezvous that are still to come, at most. */
  function Todo(net: Net): nat {
    2 * Tally(net.calls, IsSending) + Tally(net.servers, IsReplying)
  }

  lemma {:induction false} CallMoved(calls: seq<Call>, a: nat, k: nat, c: Call)
    requires a <= k < |calls|
    ensures Tally(calls[k := c][a..], IsOpen) + IsOpen(calls[k]) == Tally(calls[a..], IsOpen) + IsOpen(c)
    ensures Tally(calls[k := c], IsSending) + IsSending(calls[k]) == Tally(calls, IsSending) + IsSending(c)
  {
    assert calls[k := c][a..] == calls[a..][k - a := c];
    TallyUpdate(calls[a..], k - a, c, IsOpen);
    TallyUpdate(calls, k, c, IsSending);
  }

  lemma {:induction false} RequestedCounts(host: Host, net: Net, a: nat, k: nat)
    requires a <= k < |net.calls| && net.calls[k].phase.Sending?
    requires |net.servers| == 8 && net.servers[Order(net.calls[k].stub)].Receiving?
    ensures Hope(Requested(host, net, k), a) <= Hope(net, a) && Todo(Requested(host, net, k)) < Todo(net)
  {
    var end, j := Requested(host, net, k), Order(net.calls[k].stub);
    CallMoved(net.calls, a, k, end.calls[k]);
    TallyUpdate(net.servers, j, end.servers[j], IsReplying);
  }

  lemma {:induction false} RepliedCounts(net: Net, a: nat, j: nat, k: nat)
    requires a <= k < |net.calls| && net.calls[k].phase.Waiting? && j < |net.servers| && net.servers[j].Replying?
    ensures Hope(Replied(net, j, k), a) <= Hope(net, a) && Todo(Replied(net, j, k)) < Todo(net)
  {
    var end := Replied(net, j, k);
    CallMoved(net.calls, a, k, end.calls[k]);
    TallyUpdate(net.servers, j, Receiving, IsReplying);
  }

  /** The calls before `a` stay as they are, and neither count rises. */
  predicate CountsDown(net: Net, end: Net, a: nat) {
    && QuietBefore(net, a) && QuietBefore(end, a) && |end.calls| == |net.calls|
    && Hope(end, a) <= Hope(net, a) && Todo(end) < Todo(net)
  }

  lemma {:induction false} RequestCounts(host: Host, w: ByteString, net: Net, a: nat, k: nat, j: nat)
    requires Inv(host, w, net) && CallerName(w) && QuietBefore(net, a) && Enabled(net, ToServer(k, j))
    ensures CountsDown(net, Apply(host, w, net, ToServer(k, j)), a)
  {
    ToServerShape(host, w, net, k, j);
    RequestedCounts(host, net, a, k);
  }

  lemma {:induction false} ReplyCounts(host: Host, w: ByteString, net: Net, a: nat, j: nat, k: nat)
    requires Inv(host, w, net) && QuietBefore(net, a) && Enabled(net, ToCaller(j, k))
    ensures CountsDown(net, Apply(host, w, net, ToCaller(j, k)), a)
  {
    ToCallerShape(host, w, net, j, k);
    RepliedCounts(net, a, j, k);
  }

  /** No rendezvous raises hope: a reply is made for a request only, and a call returns by a reply only. */
  lemma {:induction false} StepCounts(host: Host, w: ByteString, net: Net, a: nat, step: Step)
    requires Inv(host, w, net) && CallerName(w) && QuietBefore(net, a) && Enabled(net, step) && !step.Begin?
    ensures CountsDown(net, Apply(host, w, net, step), a)
  {
    match step {
      case ToServer(k, j) => RequestCounts(host, w, net, a, k, j);
      case ToCaller(j, k) => ReplyCounts(host, w, net, a, j, k);
    }
  }

  /** Every run can be continued to where nothing moves any more. */
  lemma {:induction false} Finishes(host: Host, w: ByteString, start: Net, before: seq<Step>, net: Net, a: nat)
    returns (steps: seq<Step>, end: Net)
    requires Inv(host, w, net) && CallerName(w) && QuietBefore(net, a)
    requires Runs(host, w, start, before, net) && NoNewCalls(before)
    ensures EndsRun(host, w, start, steps, end)
    ensures |end.calls| == |net.calls| && Hope(end, a) <= Hope(net, a)
    decreases Todo(net)
  {
    if Terminal(net) {
      steps, end := before, net;
    } else {
      var step: Step :| !step.Begin? && Enabled(net, step);
      StepCounts(host, w, net, a, step);
      StepInv(host, w, net, step);
      RunsSnoc(host, w, start, before, net, step);
      steps, end := Finishes(host, w, start, before + [step], Apply(host, w, net, step), a);
    }
  }

  lemma {:induction false} CrossedHope(host: Host, net: Net, a: nat, i: nat, j: nat)
    requires Crossable(host, net, i, j) && a <= i && a <= j
    ensures Hope(Crossed(host, net, i, j), a) < Hope(net, a)
  {
    var end, t := Crossed(host, net, i, j), Order(net.calls[j].stub);
    var calls := net.calls[i := net.calls[i].(phase := Waiting)];
    CallMoved(net.calls, a, i, calls[i]);
    CallMoved(calls, a, j, end.calls[j]);
    TallyUpdate(net.servers, t, end.servers[t], IsReplying);
  }

  // ---------- the exact condition ----------

  /** Nothing but calls from `a` on, all still to meet their stubs. */
  predicate JustBegun(net: Net, a: nat) {
    && QuietBefore(net, a) && |net.servers| == 8
    && (forall j :: 0 <= j < 8 ==> net.servers[j].Receiving?)
    && (forall k :: a <= k < |net.calls| ==> net.calls[k].phase.Sending?)
  }

  lemma {:induction false} FullHope(net: Net, a: nat)
    requires JustBegun(net, a)
    ensures Hope(net, a) == |net.calls| - a
  {
    TallyConstant(net.calls[a..], 1, IsOpen);
    TallyConstant(net.servers, 0, IsReplying);
  }

  lemma {:induction false} ReturnedHope(net: Net, a: nat)
    requires a <= |net.calls| && AllReturned(net, a)
    ensures Hope(net, a) >= |net.calls| - a
  {
    TallyConstant(net.calls[a..], 1, IsOpen);
  }

  lemma {:induction false} FirstBegun(host: Host, w: ByteString, net: Net, a: nat, s: Stub, payload: ByteString)
    requires Inv(host, w, net) && CallerName(w) && JustBegun(net, a) && |payload| <= MAX_PAYLOAD
    ensures var next := Apply(host, w, net, Begin(s, payload));
            && Inv(host, w, next) && JustBegun(next, a) && next.handled == net.handled
            && next.calls == net.calls + [BeginCall(w, net, s, payload)]
            && next.calls[|net.calls|].stub == s
  {
    BeginInv(host, w, net, s, payload);
    BegunSending(host, w, net, s, payload);
  }

  lemma {:induction false} BegunTogether(host: Host, w: ByteString, net: Net, a: nat, asks: seq<Ask>)
    requires Inv(host, w, net) && CallerName(w) && JustBegun(net, a) && AsksInLimit(asks)
    ensures var first := AllBegun(host, w, net, asks);
            && Inv(host, w, first) && JustBegun(first, a) && net.calls <= first.calls
            && |first.calls| == |net.calls| + |asks| && first.handled == net.handled
    decreases |asks|
  {
    if asks != [] {
      FirstBegun(host, w, net, a, asks[0].stub, asks[0].payload);
      BegunTogether(host, w, Apply(host, w, net, Begin(asks[0].stub, asks[0].payload)), a, asks[1..]);
    }
  }

  lemma {:induction false} BegunStub(host: Host, w: ByteString, net: Net, a: nat, asks: seq<Ask>, i: nat)
    requires Inv(host, w, net) && CallerName(w) && JustBegun(net, a) && AsksInLimit(asks) && i < |asks|
    ensures var first := AllBegun(host, w, net, asks);
            |net.calls| + i < |first.calls| && first.calls[|net.calls| + i].stub == asks[i].stub
    decreases |asks|
  {
    var next := Apply(host, w, net, Begin(asks[0].stub, asks[0].payload));
    FirstBegun(host, w, net, a, asks[0].stub, asks[0].payload);
    if i == 0 {
      BegunTogether(host, w, next, a, asks[1..]);
      assert AllBegun(host, w, net, asks).calls[|net.calls|] == next.calls[|net.calls|];
    } else {
      BegunStub(host, w, next, a, asks[1..], i - 1);
    }
  }

  lemma {:induction false} SerialBegun(host: Host, w: ByteString, net: Net, a: nat, s: Stub, asks: seq<Ask>)
    requires Inv(host, w, net) && CallerName(w) && AlwaysAnswers(host) && Serial(net, a, s) && AsksInLimit(asks)
    requires forall i :: 0 <= i < |asks| ==> asks[i].stub == s
    ensures Inv(host, w, AllBegun(host, w, net, asks)) && Serial(AllBegun(host, w, net, asks), a, s)
    decreases |asks|
  {
    if asks != [] {
      var begin := Begin(s, asks[0].payload);
      SerialStep(host, w, net, a, s, begin);
      BeginInv(host, w, net, s, asks[0].payload);
      SerialBegun(host, w, Apply(host, w, net, begin), a, s, asks[1..]);
    }
  }

  /** With calls to two stubs there is a run to the end in which a call is left waiting, although all are answered. */
  lemma {:induction false} DifferentStubsStarve(host: Host, w: ByteString, first: Net, a: nat, i: nat, j: nat)
    returns (steps: seq<Step>, end: Net)
    requires Inv(host, w, first) && CallerName(w) && AlwaysAnswers(host) && JustBegun(first, a)
    requires a <= i < |first.calls| && a <= j < |first.calls| && first.calls[i].stub != first.calls[j].stub
    ensures EndsRun(host, w, first, steps, end) && !AllReturned(end, a)
  {
    assert CallOk(w, first.calls[i], i) && CallOk(w, first.calls[j], j);
    HopeLost(host, first, a, i, j);
    assert Runs(host, w, first, [], first);
    steps := Crossing(host, w, first, [], first, i, j);
    steps, end := Finishes(host, w, first, steps, Crossed(host, first, i, j), a);
    if AllReturned(end, a) {
      ReturnedHope(end, a);
    }
  }

  lemma {:induction false} HopeLost(host: Host, first: Net, a: nat, i: nat, j: nat)
    requires AlwaysAnswers(host) && JustBegun(first, a)
    requires a <= i < |first.calls| && a <= j < |first.calls| && first.calls[i].stub != first.calls[j].stub
    requires first.calls[i].msg.topic == Request(first.calls[i].stub)
    requires first.calls[j].msg.topic == Request(first.calls[j].stub)
    ensures Crossable(host, first, i, j) && QuietBefore(Crossed(host, first, i, j), a)
    ensures |Crossed(host, first, i, j).calls| == |first.calls|
    ensures Hope(Crossed(host, first, i, j), a) < |first.calls| - a
  {
    CrossedHope(host, first, a, i, j);
    FullHope(first, a);
  }

  /**
    Calls begun together on an idle system, any number of them, with handlers
    that answer: every run to where nothing moves any more has returned them
    all if and only if they are to one stub.
   */
  lemma {:induction false} AllReturnIff(host: Host, w: ByteString, net: Net, asks: seq<Ask>)
    requires Inv(host, w, net) && CallerName(w) && Idle(net) && AlwaysAnswers(host) && AsksInLimit(asks)
    ensures EveryRunReturns(host, w, AllBegun(host, w, net, asks), |net.calls|) <==> OneStub(asks)
  {
    if OneStub(asks) {
      OneStubBegun(host, w, net, asks);
    } else {
      var i, j := TwoStubs(asks);
      DifferentBegun(host, w, net, asks, i, j);
    }
  }

  lemma {:induction false} TwoStubs(asks: seq<Ask>) returns (i: nat, j: nat)
    requires !OneStub(asks)
    ensures i < |asks| && j < |asks| && asks[i].stub != asks[j].stub
  {
    i, j :| i < |asks| && j < |asks| && asks[i].stub != asks[j].stub;
  }

  lemma {:induction false} DifferentBegun(host: Host, w: ByteString, net: Net, asks: seq<Ask>, i: nat, j: nat)
    requires Inv(host, w, net) && CallerName(w) && Idle(net) && AlwaysAnswers(host) && AsksInLimit(asks)
    requires i < |asks| && j < |asks| && asks[i].stub != asks[j].stub
    ensures !EveryRunReturns(host, w, AllBegun(host, w, net, asks), |net.calls|)
  {
    StubsDiffer(host, w, net, asks, i, j);
    NotEveryRunReturns(host, w, AllBegun(host, w, net, asks), |net.calls|, |net.calls| + i, |net.calls| + j);
  }

  lemma {:induction false} StubsDiffer(host: Host, w: ByteString, net: Net, asks: seq<Ask>, i: nat, j: nat)
    requires Inv(host, w, net) && CallerName(w) && Idle(net) && AsksInLimit(asks)
    requires i < |asks| && j < |asks| && asks[i].stub != asks[j].stub
    ensures var first, a := AllBegun(host, w, net, asks), |net.calls|;
            && Inv(host, w, first) && JustBegun(first, a) && a + i < |first.calls| && a + j < |first.calls|
            && first.calls[a + i].stub != first.calls[a + j].stub
  {
    BegunTogether(host, w, net, |net.calls|, asks);
    BegunStub(host, w, net, |net.calls|, asks, i);
    BegunStub(host, w, net, |net.calls|, asks, j);
  }

  lemma {:induction false} OneStubBegun(host: Host, w: ByteString, net: Net, asks: seq<Ask>)
    requires Inv(host, w, net) && CallerName(w) && Idle(net) && AlwaysAnswers(host)
    requires AsksInLimit(asks) && OneStub(asks)
    ensures EveryRunReturns(host, w, AllBegun(host, w, net, asks), |net.calls|)
  {
    var s := if asks == [] then Dial else asks[0].stub;
    SerialBegun(host, w, net, |net.calls|, s, asks);
    SerialReturns(host, w, AllBegun(host, w, net, asks), |net.calls|, s);
  }

  lemma {:induction false} SerialReturns(host: Host, w: ByteString, first: Net, a: nat, s: Stub)
    requires Inv(host, w, first) && CallerName(w) && AlwaysAnswers(host) && Serial(first, a, s)
    ensures EveryRunReturns(host, w, first, a)
  {
    forall steps: seq<Step>, end: Net | EndsRun(host, w, first, steps, end) ensures AllReturned(end, a) {
      SerialRun(host, w, first, a, s, steps, end);
      SerialTerminal(w, end, a, s);
    }
  }

  lemma {:induction false} NotEveryRunReturns(host: Host, w: ByteString, first: Net, a: nat, i: nat, j: nat)
    requires Inv(host, w, first) && CallerName(w) && AlwaysAnswers(host) && JustBegun(first, a)
    requires a <= i < |first.calls| && a <= j < |first.calls| && first.calls[i].stub != first.calls[j].stub
    ensures !EveryRunReturns(host, w, first, a)
  {
    var steps, end := DifferentStubsStarve(host, w, first, a, i, j);
  }

  // ---------- who starves ----------

  lemma {:induction false} StillTerminal(net: Net)
    requires forall j: nat :: j < |net.servers| ==> net.servers[j].Receiving?
    requires forall k: nat :: k < |net.calls| ==> !net.calls[k].phase.Sending?
    ensures Terminal(net)
  {
  }

  /** After the crossing the second call receives its own reply, and nothing is left for the first. */
  lemma {:induction false} SecondReturns(host: Host, w: ByteString, start: Net, before: seq<Step>, net: Net, a: nat)
    returns (steps: seq<Step>, end: Net)
    requires Inv(host, w, net) && CallerName(w) && JustBegun(net, a) && |net.calls| == a + 2
    requires Crossable(host, net, a, a + 1) && Inv(host, w, Crossed(host, net, a, a + 1))
    requires Runs(host, w, start, before, Crossed(host, net, a, a + 1))
    ensures Runs(host, w, start, steps, end) && Terminal(end)
    ensures |end.calls| == a + 2 && end.calls[a].phase.Waiting? && end.calls[a + 1].phase.Returned?
  {
    var mid, d := Crossed(host, net, a, a + 1), net.calls[a + 1];
    assert CallOk(w, d, a + 1);
    HandleAddressed(host, d.stub, |net.handled| + 1, d.msg);
    end := Replied(mid, Order(d.stub), a + 1);
    steps := OneStep(host, w, start, before, mid, ToCaller(Order(d.stub), a + 1), end);
    CrossedEnd(host, net, a, end);
  }

  lemma {:induction false} CrossedEnd(host: Host, net: Net, a: nat, end: Net)
    requires JustBegun(net, a) && |net.calls| == a + 2 && Crossable(host, net, a, a + 1)
    requires end == Replied(Crossed(host, net, a, a + 1), Order(net.calls[a + 1].stub), a + 1)
    ensures Terminal(end)
  {
    forall k: nat | k < |end.calls| ensures !end.calls[k].phase.Sending? {
      assert k < a ==> Quiet(net.calls[k].phase);
    }
    StillTerminal(end);
  }

  /**
    Two calls to different stubs, whatever the other handlers do: a second call
    can take the first one's reply, return with its own and leave the first one
    waiting for ever, although both handlers answered.
   */
  lemma {:induction false} InterleavedCallStarves(host: Host, w: ByteString, net: Net, s: Stub, t: Stub,
                                                  p: ByteString, q: ByteString)
    returns (steps: seq<Step>, end: Net)
    requires Inv(host, w, net) && CallerName(w) && Idle(net) && s != t
    requires |p| <= MAX_PAYLOAD && |q| <= MAX_PAYLOAD
    requires Handle(host, s, |net.handled|, Msg(w, Request(s), IdAfter(0, |net.calls| + 1), p)).Some?
    requires Handle(host, t, |net.handled| + 1, Msg(w, Request(t), IdAfter(0, |net.calls| + 2), q)).Some?
    ensures Runs(host, w, net, steps, end) && Terminal(end)
    ensures |end.calls| == |net.calls| + 2
    ensures end.calls[|net.calls|].phase.Waiting? && end.calls[|net.calls| + 1].phase.Returned?
  {
    var a := |net.calls|;
    var first := BothBegun(host, w, net, s, t, p, q);
    steps := Crossing(host, w, net, [Begin(s, p), Begin(t, q)], first, a, a + 1);
    steps, end := SecondReturns(host, w, net, steps, first, a);
  }

  lemma {:induction false} BothBegun(host: Host, w: ByteString, net: Net, s: Stub, t: Stub,
                                     p: ByteString, q: ByteString)
    returns (first: Net)
    requires Inv(host, w, net) && CallerName(w) && Idle(net) && |p| <= MAX_PAYLOAD && |q| <= MAX_PAYLOAD
    ensures var a := |net.calls|;
            && Runs(host, w, net, [Begin(s, p), Begin(t, q)], first) && Inv(host, w, first)
            && JustBegun(first, a) && |first.calls| == a + 2 && first.handled == net.handled
            && first.calls[a].stub == s && first.calls[a].msg == Msg(w, Request(s), IdAfter(0, a + 1), p)
            && first.calls[a + 1].stub == t && first.calls[a + 1].msg == Msg(w, Request(t), IdAfter(0, a + 2), q)
  {
    var a := |net.calls|;
    var mid := Apply(host, w, net, Begin(s, p));
    FirstBegun(host, w, net, a, s, p);
    first := Apply(host, w, mid, Begin(t, q));
    FirstBegun(host, w, mid, a, t, q);
    assert Runs(host, w, net, [], net);
    RunsSnoc(host, w, net, [], net, Begin(s, p));
    RunsSnoc(host, w, net, [] + [Begin(s, p)], mid, Begin(t, q));
    assert [] + [Begin(s, p)] + [Begin(t, q)] == [Begin(s, p), Begin(t, q)];
    assert CallOk(w, first.calls[a], a) && CallOk(w, first.calls[a + 1], a + 1);
  }
}

/**
  Attaching a caller and the default stubs to a bus, and who then hears what
  (src/wasi.cc, src/layer.cc, src/stub.cc).
 */
module Setup {
  import opened Options
  import opened Bytes
  import opened Bus
  import opened Stubs

  // ---------- installing the topology ----------

  function WasiLayer(w: ByteString, n: nat): Layer
    requires n <= 8
  {
    Layer(w, Side.Wasi, seq(n, i requires 0 <= i < n => Reply(Nth(i))), false, OPEN)
  }

  function StubLayer(s: Stub): Layer {
    Layer(Name(s), Gxx, [Request(s)], false, OPEN)
  }

  /** The caller's layer with all reply topics, and the first `n` stub layers. */
  function Topology(w: ByteString, n: nat): seq<Layer>
    requires n <= 8
  {
    [WasiLayer(w, 8)] + seq(n, i requires 0 <= i < n => StubLayer(Nth(i)))
  }

  /** A name a `WasiNet` may have beside the stubs. */
  predicate CallerName(w: ByteString) {
    ValidName(w, MAX_LAYER_NAME) && forall s: Stub :: w != Name(s)
  }

  lemma {:induction false} SubscribeReply(w: ByteString, n: nat)
    requires n < 8
    ensures Subscribed([WasiLayer(w, n)], w, Reply(Nth(n))) == Some([WasiLayer(w, n + 1)])
  {
    var l := WasiLayer(w, n);
    ReplyMark(Nth(n));
    assert FindIndex([l], w) == 0;
    forall i | 0 <= i < n ensures l.topics[i] != Reply(Nth(n)) {
      RequestsDistinct(Nth(i), Nth(n));
      assert Order(Nth(i)) == i && Order(Nth(n)) == n;
    }
    assert l.topics + [Reply(Nth(n))] == WasiLayer(w, n + 1).topics;
    assert [l][0 := l.(topics := l.topics + [Reply(Nth(n))])] == [WasiLayer(w, n + 1)];
  }

  lemma {:induction false} NewStubName(w: ByteString, n: nat)
    requires CallerName(w) && n < 8
    ensures forall i :: 0 <= i < n + 1 ==> Topology(w, n)[i].name != Name(Nth(n))
  {
    forall i | 0 <= i < n + 1 ensures Topology(w, n)[i].name != Name(Nth(n)) {
      if i > 0 {
        NamesDistinct(Nth(i - 1), Nth(n));
        assert Order(Nth(i - 1)) == i - 1 && Order(Nth(n)) == n;
      }
    }
  }

  lemma {:induction false} FindLast(t: seq<Layer>, added: Layer)
    requires forall i :: 0 <= i < |t| ==> t[i].name != added.name
    ensures FindIndex(t, added.name) == |t| && FindIndex(t + [added], added.name) == |t|
  {
    var u := t + [added];
    assert u[|t|].name == added.name;
    assert forall k :: 0 <= k < |t| ==> u[k] == t[k];
  }

  lemma {:induction false} InstallStub(w: ByteString, n: nat)
    requires CallerName(w) && n < 8
    ensures var a := Attached(Topology(w, n), Name(Nth(n)), Gxx);
            && !Has(Topology(w, n), Name(Nth(n)))
            && a.Some? && Subscribed(a.value, Name(Nth(n)), Request(Nth(n))) == Some(Topology(w, n + 1))
  {
    var s, t := Nth(n), Topology(w, n);
    NameMark(s);
    RequestMark(s);
    NewStubName(w, n);
    var added := Layer(Name(s), Gxx, [], false, OPEN);
    FindLast(t, added);
    var u := t + [added];
    assert added.topics + [Request(s)] == [Request(s)];
    assert u[|t| := StubLayer(s)] == t + [StubLayer(s)];
    assert t + [StubLayer(s)] == Topology(w, n + 1);
  }

  /** A layer of that name, attached if there is none yet; false when that is refused. */
  function Ensured(layers: seq<Layer>, name: ByteString, side: Side): (seq<Layer>, bool) {
    if Has(layers, name) then (layers, true)
    else match Attached(layers, name, side)
      case None => (layers, false)
      case Some(more) => (more, true)
  }

  /** The first `n` reply topics of a caller, until one is refused. */
  function RepliesSubscribed(layers: seq<Layer>, w: ByteString, n: nat): (seq<Layer>, bool)
    requires n <= 8
  {
    if n == 0 then (layers, true)
    else
      var (before, ok) := RepliesSubscribed(layers, w, n - 1);
      if !ok then (before, false)
      else match Subscribed(before, w, Reply(Nth(n - 1)))
        case None => (before, false)
        case Some(after) => (after, true)
  }

  function CallerAttached(layers: seq<Layer>, w: ByteString): (seq<Layer>, bool) {
    var (present, ok) := Ensured(layers, w, Side.Wasi);
    if !ok then (present, false) else RepliesSubscribed(present, w, 8)
  }

  /** `AttachLayer` for a stub. */
  function StubAttached(layers: seq<Layer>, s: Stub): (seq<Layer>, bool) {
    var (present, ok) := Ensured(layers, Name(s), Gxx);
    if !ok then (present, false)
    else match Subscribed(present, Name(s), Request(s))
      case None => (present, false)
      case Some(after) => (after, true)
  }

  /** The first `n` stubs, until one is refused. */
  function StubsAttached(layers: seq<Layer>, n: nat): (seq<Layer>, bool)
    requires n <= 8
  {
    if n == 0 then (layers, true)
    else
      var (before, ok) := StubsAttached(layers, n - 1);
      if !ok then (before, false) else StubAttached(before, Nth(n - 1))
  }

  /** `WasiNet::Attach`, on any bus: the layer unless it is there, then its eight reply topics. */
  method AttachCaller(bus: Hub, w: ByteString) returns (ok: bool)
    modifies bus
    ensures (bus.layers, ok) == CallerAttached(old(bus.layers), w)
  {
    var i := bus.Find(w);
    if i == |bus.layers| {
      ok := bus.Attach(w, Side.Wasi);
      if !ok { return false; }
    }
    ghost var present := bus.layers;
    assert (present, true) == Ensured(old(bus.layers), w, Side.Wasi);
    ok := true;
    var n := 0;
    while n < 8 && ok
      invariant n <= 8
      invariant (bus.layers, ok) == RepliesSubscribed(present, w, n)
      decreases 8 - n
    {
      ok := bus.Subscribe(w, Reply(Nth(n)));
      n := n + 1;
    }
    StaysRefused(present, w, n);
  }

  lemma {:induction false} StaysRefused(layers: seq<Layer>, w: ByteString, n: nat)
    requires n <= 8
    ensures !RepliesSubscribed(layers, w, n).1 ==> RepliesSubscribed(layers, w, 8) == RepliesSubscribed(layers, w, n)
    decreases 8 - n
  {
    if n < 8 {
      StaysRefused(layers, w, n + 1);
    }
  }

  /** `AttachLayer`. */
  method AttachStub(bus: Hub, s: Stub) returns (ok: bool)
    modifies bus
    ensures (bus.layers, ok) == StubAttached(old(bus.layers), s)
  {
    var i := bus.Find(Name(s));
    if i == |bus.layers| {
      ok := bus.Attach(Name(s), Gxx);
      if !ok { return false; }
    }
    assert (bus.layers, true) == Ensured(old(bus.layers), Name(s), Gxx);
    ok := bus.Subscribe(Name(s), Request(s));
  }

  /** `Registry::Install` of the default stubs. */
  method Install(bus: Hub) returns (ok: bool)
    modifies bus
    ensures (bus.layers, ok) == StubsAttached(old(bus.layers), 8)
  {
    ok := true;
    var n := 0;
    while n < 8 && ok
      invariant n <= 8
      invariant (bus.layers, ok) == StubsAttached(old(bus.layers), n)
      decreases 8 - n
    {
      ok := AttachStub(bus, Nth(n));
      n := n + 1;
    }
    StubsStayRefused(old(bus.layers), n);
  }

  lemma {:induction false} StubsStayRefused(layers: seq<Layer>, n: nat)
    requires n <= 8
    ensures !StubsAttached(layers, n).1 ==> StubsAttached(layers, 8) == StubsAttached(layers, n)
    decreases 8 - n
  {
    if n < 8 {
      StubsStayRefused(layers, n + 1);
    }
  }

  lemma {:induction false} FreshReplies(w: ByteString, n: nat)
    requires n <= 8
    ensures RepliesSubscribed([WasiLayer(w, 0)], w, n) == ([WasiLayer(w, n)], true)
  {
    if n > 0 {
      FreshReplies(w, n - 1);
      SubscribeReply(w, n - 1);
    }
  }

  lemma {:induction false} FreshStubs(w: ByteString, n: nat)
    requires CallerName(w) && n <= 8
    ensures StubsAttached(Topology(w, 0), n) == (Topology(w, n), true)
  {
    if n > 0 {
      FreshStubs(w, n - 1);
      InstallStub(w, n - 1);
    }
  }

  lemma {:induction false} FreshLayer(w: ByteString)
    requires CallerName(w)
    ensures Ensured([], w, Side.Wasi) == ([WasiLayer(w, 0)], true)
    ensures Topology(w, 0) == [WasiLayer(w, 8)]
  {
    assert WasiLayer(w, 0).topics == [];
    assert [] + [WasiLayer(w, 0)] == [WasiLayer(w, 0)];
  }

  /** On a fresh bus the two set up the topology of the calls below: nothing is refused. */
  lemma {:induction false} TopologyInstalled(w: ByteString)
    requires CallerName(w)
    ensures CallerAttached([], w) == (Topology(w, 0), true)
    ensures StubsAttached(Topology(w, 0), 8) == (Topology(w, 8), true)
  {
    FreshLayer(w);
    FreshReplies(w, 8);
    FreshStubs(w, 8);
  }

  /** On any bus a successful attach leaves the caller subscribed to the reply of every stub. */
  lemma {:induction false} AttachedCallerHears(layers: seq<Layer>, w: ByteString, s: Stub)
    requires CallerAttached(layers, w).1
    ensures var after := CallerAttached(layers, w).0;
            Has(after, w) && Reply(s) in after[FindIndex(after, w)].topics
  {
    RepliesHeard(Ensured(layers, w, Side.Wasi).0, w, 8, s);
  }

  lemma {:induction false} RepliesHeard(layers: seq<Layer>, w: ByteString, n: nat, s: Stub)
    requires n <= 8 && Order(s) < n && RepliesSubscribed(layers, w, n).1
    ensures var after := RepliesSubscribed(layers, w, n).0;
            Has(after, w) && Reply(s) in after[FindIndex(after, w)].topics
  {
    var before, after := RepliesSubscribed(layers, w, n - 1).0, RepliesSubscribed(layers, w, n).0;
    SameNames(before, w, Reply(Nth(n - 1)));
    if Order(s) < n - 1 {
      RepliesHeard(layers, w, n - 1, s);
    } else {
      assert Nth(n - 1) == s;
    }
  }

  lemma {:induction false} SameNames(layers: seq<Layer>, name: ByteString, topic: ByteString)
    requires Subscribed(layers, name, topic).Some?
    ensures var after := Subscribed(layers, name, topic).value;
            && FindIndex(after, name) == FindIndex(layers, name) < |after| == |layers|
            && layers[FindIndex(layers, name)].topics <= after[FindIndex(layers, name)].topics
            && topic in after[FindIndex(layers, name)].topics
  {
    var i, after := FindIndex(layers, name), Subscribed(layers, name, topic).value;
    assert after[i].name == name;
    assert forall k :: 0 <= k < i ==> after[k].name == layers[k].name;
  }

  // ---------- who hears what ----------

  lemma {:induction false} SingleTarget(layers: seq<Layer>, from: ByteString, topic: ByteString, x: nat, n: nat)
    requires n <= |layers| && forall i :: 0 <= i < |layers| ==> (Wanted(layers[i], from, topic) <==> i == x)
    ensures Targets(layers, from, topic, n) == if x < n then [x] else []
  {
    if n > 0 {
      SingleTarget(layers, from, topic, x, n - 1);
    }
  }

  /** A request is for its own stub, a reply for the caller, and for nobody else. */
  lemma {:induction false} OneListener(w: ByteString, s: Stub)
    requires CallerName(w)
    ensures Targets(Topology(w, 8), w, Request(s), 9) == [1 + Order(s)]
    ensures Targets(Topology(w, 8), Name(s), Reply(s), 9) == [0]
  {
    var layers := Topology(w, 8);
    forall i | 0 <= i < 9
      ensures Wanted(layers[i], w, Request(s)) <==> i == 1 + Order(s)
      ensures Wanted(layers[i], Name(s), Reply(s)) <==> i == 0
    {
      if i == 0 {
        WasiHears(w, s);
      } else {
        StubHears(w, s, Nth(i - 1));
        assert Order(Nth(i - 1)) == i - 1;
      }
    }
    SingleTarget(layers, w, Request(s), 1 + Order(s), 9);
    SingleTarget(layers, Name(s), Reply(s), 0, 9);
  }

  lemma {:induction false} WasiHears(w: ByteString, s: Stub)
    requires CallerName(w)
    ensures !Wanted(WasiLayer(w, 8), w, Request(s)) && Wanted(WasiLayer(w, 8), Name(s), Reply(s))
  {
    assert WasiLayer(w, 8).topics[Order(s)] == Reply(s);
  }

  lemma {:induction false} StubHears(w: ByteString, s: Stub, t: Stub)
    requires CallerName(w)
    ensures Wanted(StubLayer(t), w, Request(s)) <==> t == s
    ensures !Wanted(StubLayer(t), Name(s), Reply(s))
  {
    RequestsDistinct(s, t);
    RequestNotReply(s, t);
    RequestNotReply(t, s);
    assert StubLayer(t).topics[0] == Request(t);
  }
}

/**
  Layers, topics, target selection and call ids of the bus (src/bus.cc).

  Every attached layer has a pipe of its own; a pipe end is named by the index
  of its layer.
 */
module Bus {
  import opened Options
  import opened Bytes
  import opened MsgCodec

  const MAX_LAYER_NAME := 128
  const MAX_TOPIC := 256
  const MAX_LAYERS := 64

  datatype Side = Wasi | Gxx

  /** Which of a layer's two pipe ends are open: its own, and the hub's that publications are written to. */
  datatype Ends = Ends(selfOpen: bool, hubOpen: bool)

  const OPEN := Ends(true, true)
  const SHUT := Ends(false, false)

  datatype Layer = Layer(name: ByteString, side: Side, topics: seq<ByteString>, closed: bool, ends: Ends)

  const NUL: Byte := '\U{0000}'
  const ANY: ByteString := "*"

  predicate ValidName(n: ByteString, max: nat) {
    n != [] && |n| <= max && NUL !in n
  }

  /** The first layer of that name, or the number of layers. */
  function FindIndex(layers: seq<Layer>, name: ByteString): (i: nat)
    ensures i <= |layers|
    ensures i < |layers| ==> layers[i].name == name
    ensures forall k :: 0 <= k < i ==> layers[k].name != name
  {
    if layers == [] || layers[0].name == name then 0 else 1 + FindIndex(layers[1..], name)
  }

  predicate Has(layers: seq<Layer>, name: ByteString) {
    FindIndex(layers, name) < |layers|
  }

  function Attached(layers: seq<Layer>, name: ByteString, side: Side): Option<seq<Layer>> {
    if !ValidName(name, MAX_LAYER_NAME) || |layers| >= MAX_LAYERS || Has(layers, name) then None
    else Some(layers + [Layer(name, side, [], false, OPEN)])
  }

  function Subscribed(layers: seq<Layer>, name: ByteString, topic: ByteString): Option<seq<Layer>> {
    if (!ValidName(topic, MAX_TOPIC) && topic != ANY) || !Has(layers, name) then None
    else
      var i := FindIndex(layers, name);
      if topic in layers[i].topics then Some(layers)
      else Some(layers[i := layers[i].(topics := layers[i].topics + [topic])])
  }

  function Closed(layers: seq<Layer>, name: ByteString): Option<seq<Layer>> {
    if !Has(layers, name) then None
    else
      var i := FindIndex(layers, name);
      if layers[i].closed then Some(layers) else Some(layers[i := layers[i].(closed := true, ends := SHUT)])
  }

  /** What every operation keeps: bounded, valid, distinct names; valid topics, each once; pipes open until closed. */
  predicate WellFormed(layers: seq<Layer>) {
    && |layers| <= MAX_LAYERS
    && (forall i :: 0 <= i < |layers| ==> ValidName(layers[i].name, MAX_LAYER_NAME))
    && (forall i, j :: 0 <= i < j < |layers| ==> layers[i].name != layers[j].name)
    && (forall i :: 0 <= i < |layers| ==> layers[i].ends == if layers[i].closed then SHUT else OPEN)
    && (forall i, t :: 0 <= i < |layers| && t in layers[i].topics ==> ValidName(t, MAX_TOPIC))
    && (forall i, j, k :: 0 <= i < |layers| && 0 <= j < k < |layers[i].topics| ==>
          layers[i].topics[j] != layers[i].topics[k])
  }

  lemma {:induction false} OperationsKeepWellFormed(layers: seq<Layer>, name: ByteString, side: Side, topic: ByteString)
    requires WellFormed(layers)
    ensures Attached(layers, name, side).Some? ==> WellFormed(Attached(layers, name, side).value)
    ensures Subscribed(layers, name, topic).Some? ==> WellFormed(Subscribed(layers, name, topic).value)
    ensures Closed(layers, name).Some? ==> WellFormed(Closed(layers, name).value)
  {
    if Subscribed(layers, name, topic).Some? {
      SubscribedWellFormed(layers, name, topic);
    }
    if Closed(layers, name).Some? {
      ClosedWellFormed(layers, name);
    }
  }

  lemma {:induction false} SubscribedWellFormed(layers: seq<Layer>, name: ByteString, topic: ByteString)
    requires WellFormed(layers) && Subscribed(layers, name, topic).Some?
    ensures WellFormed(Subscribed(layers, name, topic).value)
  {
    var after := Subscribed(layers, name, topic).value;
    forall i, t | 0 <= i < |after| && t in after[i].topics ensures ValidName(t, MAX_TOPIC) {
      assert t in layers[i].topics || t == topic;
    }
  }

  lemma {:induction false} ClosedWellFormed(layers: seq<Layer>, name: ByteString)
    requires WellFormed(layers) && Closed(layers, name).Some?
    ensures WellFormed(Closed(layers, name).value)
  {
  }

  /** The layer of that name, if there is one. */
  predicate Named(layers: seq<Layer>, name: ByteString) {
    exists l :: l in layers && l.name == name
  }

  lemma {:induction false} HasIff(layers: seq<Layer>, name: ByteString)
    ensures Has(layers, name) <==> Named(layers, name)
  {
    if Has(layers, name) {
      assert layers[FindIndex(layers, name)] in layers;
    }
  }

  /** A new name of 1 to 128 characters without NUL is attached behind fewer than 64 others, open and without topics. */
  lemma {:induction false} AttachedIff(layers: seq<Layer>, name: ByteString, side: Side, after: seq<Layer>)
    ensures Attached(layers, name, side) == Some(after) <==>
            && 1 <= |name| <= 128 && NUL !in name && |layers| < 64 && !Named(layers, name)
            && after == layers + [Layer(name, side, [], false, Ends(true, true))]
  {
    HasIff(layers, name);
  }

  predicate FirstNamed(layers: seq<Layer>, name: ByteString, i: nat) {
    i < |layers| && layers[i].name == name && forall k :: 0 <= k < i ==> layers[k].name != name
  }

  lemma {:induction false} FirstIsFound(layers: seq<Layer>, name: ByteString, i: nat)
    requires FirstNamed(layers, name, i)
    ensures FindIndex(layers, name) == i && Has(layers, name)
  {
  }

  /** A topic is `*` or 1 to 256 characters without NUL; the layer then has it, once, behind its other topics. */
  lemma {:induction false} SubscribedIff(layers: seq<Layer>, name: ByteString, topic: ByteString, i: nat,
                                         after: seq<Layer>)
    requires FirstNamed(layers, name, i)
    ensures Subscribed(layers, name, topic) == Some(after) <==>
            && (topic == "*" || (1 <= |topic| <= 256 && NUL !in topic))
            && var l := layers[i];
               after == layers[i := l.(topics := if topic in l.topics then l.topics else l.topics + [topic])]
  {
    FirstIsFound(layers, name, i);
    assert layers[i := layers[i]] == layers;
  }

  /** The layer of that name is closed with both its pipe ends, unless it was before. */
  lemma {:induction false} ClosedIff(layers: seq<Layer>, name: ByteString, i: nat)
    requires FirstNamed(layers, name, i)
    ensures Closed(layers, name) ==
            Some(if layers[i].closed then layers
                 else layers[i := layers[i].(closed := true, ends := Ends(false, false))])
  {
    FirstIsFound(layers, name, i);
  }

  /** Without a layer of that name nothing is subscribed or closed. */
  lemma {:induction false} UnnamedRefused(layers: seq<Layer>, name: ByteString, topic: ByteString)
    requires !Named(layers, name)
    ensures Subscribed(layers, name, topic).None? && Closed(layers, name).None?
  {
    HasIff(layers, name);
  }

  predicate Matches(layer: Layer, topic: ByteString) {
    exists k :: 0 <= k < |layer.topics| && (layer.topics[k] == ANY || layer.topics[k] == topic)
  }

  /** Who a publication is for: open, subscribed, and not the sender. */
  predicate Wanted(layer: Layer, from: ByteString, topic: ByteString) {
    !layer.closed && layer.name != from && Matches(layer, topic)
  }

  /** The snapshot of `Publish`: the wanted layers among the first `n`, in order. */
  function Targets(layers: seq<Layer>, from: ByteString, topic: ByteString, n: nat): seq<nat>
    requires n <= |layers|
  {
    if n == 0 then []
    else Targets(layers, from, topic, n - 1) + (if Wanted(layers[n - 1], from, topic) then [n - 1] else [])
  }

  /** A layer that hears what `from` publishes on the topic: open, another one, subscribed to the topic or to all. */
  predicate Hears(layer: Layer, from: ByteString, topic: ByteString) {
    !layer.closed && layer.name != from && (topic in layer.topics || "*" in layer.topics)
  }

  lemma {:induction false} WantedIff(layer: Layer, from: ByteString, topic: ByteString)
    ensures Wanted(layer, from, topic) <==> Hears(layer, from, topic)
  {
  }

  /** Every layer that hears the publication is in the snapshot, no other, and none twice. */
  lemma {:induction false} TargetsExact(layers: seq<Layer>, from: ByteString, topic: ByteString, n: nat)
    requires n <= |layers|
    ensures var t := Targets(layers, from, topic, n);
            && (forall i :: i in t <==> 0 <= i < n && Hears(layers[i], from, topic))
            && (forall j, k :: 0 <= j < k < |t| ==> t[j] < t[k])
  {
    if n > 0 {
      TargetsExact(layers, from, topic, n - 1);
      WantedIff(layers[n - 1], from, topic);
      var s, t := Targets(layers, from, topic, n - 1), Targets(layers, from, topic, n);
      forall i ensures i in t <==> 0 <= i < n && Hears(layers[i], from, topic) {
        assert i in t <==> i in s || (i == n - 1 && Wanted(layers[n - 1], from, topic));
      }
      forall j, k | 0 <= j < k < |t| ensures t[j] < t[k] {
        assert t[j] in s;
        assert k < |s| ==> t[k] == s[k];
      }
    }
  }

  /** As a multiset: exactly one write for a layer that hears the publication, none for any other. */
  lemma {:induction false} TargetsOnce(layers: seq<Layer>, from: ByteString, topic: ByteString, n: nat, i: nat)
    requires n <= |layers|
    ensures multiset(Targets(layers, from, topic, n))[i] == if i < n && Hears(layers[i], from, topic) then 1 else 0
  {
    if n > 0 {
      TargetsOnce(layers, from, topic, n - 1, i);
      WantedIff(layers[n - 1], from, topic);
      OneMore(Targets(layers, from, topic, n - 1), n - 1, i);
    }
  }

  lemma {:induction false} OneMore(s: seq<nat>, x: nat, i: nat)
    ensures multiset(s + [x])[i] == multiset(s)[i] + (if x == i then 1 else 0)
    ensures s + [] == s
  {
  }

  // ---------- publishing and receiving ----------

  datatype Failure = TooLarge | WriteFailed
  datatype Delivery = Delivery(target: nat, bytes: ByteString)

  /** The same bytes for every target. */
  function Deliveries(targets: seq<nat>, bytes: ByteString): seq<Delivery> {
    seq(|targets|, i requires 0 <= i < |targets| => Delivery(targets[i], bytes))
  }

  lemma {:induction false} AllDelivered(targets: seq<nat>, bytes: ByteString)
    ensures forall i :: i in targets ==> Delivery(i, bytes) in Deliveries(targets, bytes)
  {
    forall i | i in targets ensures Delivery(i, bytes) in Deliveries(targets, bytes) {
      var k :| 0 <= k < |targets| && targets[k] == i;
      assert Deliveries(targets, bytes)[k] == Delivery(i, bytes);
    }
  }

  datatype Received = Got(msg: Msg) | NoLayer | ClosedPipe | PipeError | BadFrame

  /** `Recv`: `read` is what the layer's pipe end yields, None for its error. */
  ghost function ReceivedBy(layers: seq<Layer>, name: ByteString, read: Option<ByteString>): Received {
    if !Has(layers, name) then NoLayer
    else if layers[FindIndex(layers, name)].closed then ClosedPipe
    else if read.None? then PipeError
    else match Decoded(read.value)
      case None => BadFrame
      case Some(m) => Got(m)
  }

  /** What a receive answers, case by case: a message exactly for the frame of one, on an open layer of that name. */
  lemma {:induction false} ReceivedIff(layers: seq<Layer>, name: ByteString, read: Option<ByteString>, i: nat)
    requires FirstNamed(layers, name, i)
    ensures ReceivedBy(layers, name, read) == ClosedPipe <==> layers[i].closed
    ensures ReceivedBy(layers, name, read) == PipeError <==> !layers[i].closed && read.None?
    ensures forall m :: ReceivedBy(layers, name, read) == Got(m) <==>
              !layers[i].closed && InLimit(m) && read == Some(Frame(m))
  {
    FirstIsFound(layers, name, i);
    forall m | InLimit(m) && read == Some(Frame(m)) ensures Decoded(read.value) == Some(m) {
      DecodedFrame(m);
    }
  }

  lemma {:induction false} NoLayerIff(layers: seq<Layer>, name: ByteString, read: Option<ByteString>)
    ensures ReceivedBy(layers, name, read) == NoLayer <==> !Named(layers, name)
  {
    HasIff(layers, name);
  }

  /** Every delivery of a publication is received by the layer it was for, as the published message. */
  lemma {:induction false} PublishedIsReceived(layers: seq<Layer>, msg: Msg, k: nat)
    requires WellFormed(layers) && InLimit(msg)
    requires k < |Targets(layers, msg.from, msg.topic, |layers|)|
    ensures var d := Deliveries(Targets(layers, msg.from, msg.topic, |layers|), Frame(msg))[k];
            d.target < |layers| && ReceivedBy(layers, layers[d.target].name, Some(d.bytes)) == Got(msg)
  {
    var targets := Targets(layers, msg.from, msg.topic, |layers|);
    TargetsExact(layers, msg.from, msg.topic, |layers|);
    assert targets[k] in targets;
    DecodedFrame(msg);
    OwnIndex(layers, targets[k]);
  }

  /** Names are distinct, so a layer is found under its own name. */
  lemma {:induction false} OwnIndex(layers: seq<Layer>, i: nat)
    requires WellFormed(layers) && i < |layers|
    ensures FindIndex(layers, layers[i].name) == i
  {
  }

  // ---------- call ids ----------

  const ID_PERIOD := 0xffff_ffff

  /** `++next_id_` on 32 bits, and once more when that gives zero. */
  function NextId(n: U32): U32 {
    var m := (n + 1) % 0x1_0000_0000;
    if m == 0 then 1 else m
  }

  /** The id of the k-th call after the counter stood at `n`. */
  function IdAfter(n: U32, k: nat): U32 {
    if k == 0 then n else NextId(IdAfter(n, k - 1))
  }

  lemma {:induction false} ModUnique(x: int, q: int, r: int)
    requires x == ID_PERIOD * q + r && 0 <= r < ID_PERIOD
    ensures x % ID_PERIOD == r
  {
    var d := x / ID_PERIOD - q;
    assert ID_PERIOD * d == r - x % ID_PERIOD;
  }

  lemma {:induction false} ModSucc(x: int)
    ensures (x + 1) % ID_PERIOD == if x % ID_PERIOD == ID_PERIOD - 1 then 0 else x % ID_PERIOD + 1
  {
    var q, r := x / ID_PERIOD, x % ID_PERIOD;
    if r == ID_PERIOD - 1 {
      ModUnique(x + 1, q + 1, 0);
    } else {
      ModUnique(x + 1, q, r + 1);
    }
  }

  /** A counter at zero behaves like one at the top. */
  function Base(n: U32): U32 {
    if n == 0 then ID_PERIOD else n
  }

  lemma {:induction false} NextIdCycles(n: U32)
    ensures NextId(n) == Base(n) % ID_PERIOD + 1
  {
  }

  lemma {:induction false} IdClosedForm(n: U32, k: nat)
    requires k > 0
    ensures IdAfter(n, k) == (Base(n) - 1 + k) % ID_PERIOD + 1
  {
    if k == 1 {
      NextIdCycles(n);
    } else {
      IdClosedForm(n, k - 1);
      NextIdOf(Base(n) - 1 + (k - 1));
    }
  }

  lemma {:induction false} NextIdOf(x: nat)
    ensures NextId(x % ID_PERIOD + 1) == (x + 1) % ID_PERIOD + 1
  {
    NextIdCycles(x % ID_PERIOD + 1);
    ModSucc(x);
  }

  /** No id is zero, and any 2^32 - 1 consecutive calls have different ids. */
  lemma {:induction false} IdsDistinct(n: U32, i: nat, j: nat)
    requires 0 < i < j && j - i < ID_PERIOD
    ensures IdAfter(n, i) != 0 && IdAfter(n, j) != 0 && IdAfter(n, i) != IdAfter(n, j)
  {
    IdClosedForm(n, i);
    IdClosedForm(n, j);
    ResiduesDiffer(Base(n) - 1 + i, Base(n) - 1 + j);
  }

  lemma {:induction false} ResiduesDiffer(x: nat, y: nat)
    requires x < y < x + ID_PERIOD
    ensures x % ID_PERIOD != y % ID_PERIOD
  {
    var d := y / ID_PERIOD - x / ID_PERIOD;
    assert ID_PERIOD * d == (y - x) - (y % ID_PERIOD - x % ID_PERIOD);
    assert d <= 0 ==> ID_PERIOD * d <= 0;
    assert d >= 1 ==> ID_PERIOD * d >= ID_PERIOD;
  }

  /** The bound is tight: the call after a full period repeats the id. */
  lemma {:induction false} IdsRepeatAfterPeriod(n: U32, i: nat)
    requires i > 0
    ensures IdAfter(n, i + ID_PERIOD) == IdAfter(n, i)
  {
    IdClosedForm(n, i);
    IdClosedForm(n, i + ID_PERIOD);
    var x := Base(n) - 1 + i;
    ModUnique(x + ID_PERIOD, x / ID_PERIOD + 1, x % ID_PERIOD);
  }

  // ---------- the bus object ----------

  class Hub {
    var layers: seq<Layer>
    var nextId: U32

    constructor ()
      ensures layers == [] && nextId == 0
    {
      layers, nextId := [], 0;
    }

    method Find(name: ByteString) returns (i: nat)
      ensures i == FindIndex(layers, name)
    {
      i := 0;
      while i < |layers|
        invariant i <= |layers|
        invariant forall k :: 0 <= k < i ==> layers[k].name != name
      {
        if layers[i].name == name {
          return;
        }
        i := i + 1;
      }
    }

    method Attach(name: ByteString, side: Side) returns (ok: bool)
      modifies `layers
      ensures ok <==> Attached(old(layers), name, side).Some?
      ensures layers == if ok then Attached(old(layers), name, side).value else old(layers)
    {
      if !ValidName(name, MAX_LAYER_NAME) { return false; }
      if |layers| >= MAX_LAYERS { return false; }
      var i := Find(name);
      if i < |layers| { return false; }
      layers := layers + [Layer(name, side, [], false, OPEN)];
      return true;
    }

    method Subscribe(name: ByteString, topic: ByteString) returns (ok: bool)
      modifies `layers
      ensures ok <==> Subscribed(old(layers), name, topic).Some?
      ensures layers == if ok then Subscribed(old(layers), name, topic).value else old(layers)
    {
      if !ValidName(topic, MAX_TOPIC) && topic != ANY { return false; }
      var i := Find(name);
      if i == |layers| { return false; }
      var found := layers[i];
      for k := 0 to |found.topics|
        invariant forall j :: 0 <= j < k ==> found.topics[j] != topic
      {
        if found.topics[k] == topic { return true; }
      }
      layers := layers[i := found.(topics := found.topics + [topic])];
      return true;
    }

    method CloseLayer(name: ByteString) returns (ok: bool)
      modifies `layers
      ensures ok <==> Closed(old(layers), name).Some?
      ensures layers == if ok then Closed(old(layers), name).value else old(layers)
    {
      var i := Find(name);
      if i == |layers| { return false; }
      var found := layers[i];
      if found.closed { return true; }
      found := found.(closed := true);
      found := found.(ends := found.ends.(selfOpen := false));
      found := found.(ends := found.ends.(hubOpen := false));
      layers := layers[i := found];
      return true;
    }

    method MatchesTopic(layer: Layer, topic: ByteString) returns (b: bool)
      ensures b == Matches(layer, topic)
    {
      for k := 0 to |layer.topics|
        invariant forall j :: 0 <= j < k ==> layer.topics[j] != ANY && layer.topics[j] != topic
      {
        if layer.topics[k] == ANY || layer.topics[k] == topic {
          return true;
        }
      }
      return false;
    }

    /** `Publish` up to its first write: refuse an over-limit message, otherwise frame it and snapshot the targets. */
    method BeginPublish(msg: Msg) returns (frame: ByteString, targets: seq<nat>, refused: bool)
      ensures refused <==> !InLimit(msg)
      ensures !refused ==> frame == Frame(msg) && targets == Targets(layers, msg.from, msg.topic, |layers|)
      ensures !refused ==> forall i: nat :: i in targets <==> i < |layers| && Hears(layers[i], msg.from, msg.topic)
    {
      frame := Encode(msg);
      targets := [];
      RefusedIffOverLimit(msg);
      if frame == [] && (msg.from != [] || msg.topic != [] || |msg.payload| > 0) {
        return frame, [], true;
      }
      for i := 0 to |layers|
        invariant targets == Targets(layers, msg.from, msg.topic, i)
      {
        var layer := layers[i];
        if layer.closed { continue; }
        if layer.name == msg.from { continue; }
        var m := MatchesTopic(layer, msg.topic);
        if !m { continue; }
        targets := targets + [i];
      }
      TargetsExact(layers, msg.from, msg.topic, |layers|);
      refused := false;
    }

    /**
      `Publish`: after the snapshot one write a target, in order, until one
      fails; `writable` says which writes succeed.
     */
    method Publish(msg: Msg, writable: nat -> bool) returns (failure: Option<Failure>, log: seq<Delivery>)
      ensures failure == Some(TooLarge) <==> !InLimit(msg)
      ensures failure == Some(TooLarge) ==> log == []
      ensures forall d :: d in log ==>
                d.bytes == Frame(msg) && d.target < |layers| && Hears(layers[d.target], msg.from, msg.topic)
      ensures failure.None? ==>
                forall i: nat :: i < |layers| && Hears(layers[i], msg.from, msg.topic) ==>
                  Delivery(i, Frame(msg)) in log
      ensures InLimit(msg) ==>
                var all := Deliveries(Targets(layers, msg.from, msg.topic, |layers|), Frame(msg));
                && log <= all
                && (failure.None? <==> log == all)
                && (forall k :: 0 <= k < |log| ==> writable(k))
                && (|log| < |all| ==> !writable(|log|))
    {
      var frame, targets, refused := BeginPublish(msg);
      log := [];
      if refused {
        return Some(TooLarge), [];
      }
      ghost var all := Deliveries(targets, frame);
      assert forall k :: 0 <= k < |targets| ==> all[k].target in targets;
      assert forall i :: i in targets ==> Delivery(i, frame) in all by { AllDelivered(targets, frame); }
      for k := 0 to |targets|
        invariant |log| == k && log == all[..k]
        invariant forall i :: 0 <= i < k ==> writable(i)
      {
        if !writable(k) {
          return Some(WriteFailed), log;
        }
        log := log + [Delivery(targets[k], frame)];
      }
      return None, log;
    }

    method Recv(name: ByteString, read: Option<ByteString>) returns (r: Received)
      ensures r == ReceivedBy(layers, name, read)
    {
      var i := Find(name);
      if i == |layers| {
        return NoLayer;
      }
      if layers[i].closed {
        return ClosedPipe;
      }
      if read.None? {
        return PipeError;
      }
      var m := Decode(read.value);
      if m.None? {
        return BadFrame;
      }
      DecodedFrame(m.value);
      return Got(m.value);
    }

    /** The id part of `Call`. */
    method TakeId() returns (id: U32)
      modifies `nextId
      ensures id == nextId == NextId(old(nextId))
    {
      nextId := (nextId + 1) % 0x1_0000_0000;
      if nextId == 0 {
        nextId := (nextId + 1) % 0x1_0000_0000;
      }
      id := nextId;
    }
  }
}

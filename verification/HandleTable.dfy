/**
  The table of live sockets, processes and TLS sessions (src/sapi/handles.cc).

  `closings` records the foreign close calls in the order they are made, each
  with the table handle it was made for; `given` is history: what was
  registered under every handle ever handed out.
 */
module HandleTable {
  import opened Options
  import opened Fields

  const INVALID_SOCKET := -1
  const NULL_HANDLE := 0

  datatype Resource = Socket(s: int) | OsHandle(n: int) | Context(c: int) | Credential(k: int)

  datatype Sock = Sock(s: int, udp: bool)
  datatype Proc = Proc(process: int, stdoutRead: int, stderrRead: int, stdinWrite: int)
  datatype Tls = Tls(s: int, cred: int, ctx: int, sizes: int)
  datatype Entry = ASocket(sock: Sock) | AProcess(proc: Proc) | ASession(tls: Tls)

  datatype Closing = Closing(handle: nat, resource: Resource)

  datatype Table = Table(
    next: nat,
    sockets: map<nat, Sock>,
    processes: map<nat, Proc>,
    sessions: map<nat, Tls>,
    closings: seq<Closing>,
    given: map<nat, Entry>)

  function Empty(): Table {
    Table(0, map[], map[], map[], [], map[])
  }

  datatype Op = Alloc(entry: Entry) | Release(h: nat) | CloseStdin(h: nat)

  function If(valid: bool, h: nat, r: Resource): seq<Closing> {
    if valid then [Closing(h, r)] else []
  }

  /** The close calls `Release` makes for an entry, in the source's order. */
  function CloseCalls(h: nat, e: Entry): seq<Closing> {
    match e
    case ASocket(k) => If(k.s != INVALID_SOCKET, h, Socket(k.s))
    case AProcess(p) =>
      If(p.stdoutRead != NULL_HANDLE, h, OsHandle(p.stdoutRead))
      + If(p.stderrRead != NULL_HANDLE, h, OsHandle(p.stderrRead))
      + If(p.stdinWrite != NULL_HANDLE, h, OsHandle(p.stdinWrite))
      + If(p.process != NULL_HANDLE, h, OsHandle(p.process))
    case ASession(t) =>
      [Closing(h, Context(t.ctx)), Closing(h, Credential(t.cred))] + If(t.s != INVALID_SOCKET, h, Socket(t.s))
  }

  function Live(t: Table, h: nat): Option<Entry> {
    if h in t.sockets then Some(ASocket(t.sockets[h]))
    else if h in t.processes then Some(AProcess(t.processes[h]))
    else if h in t.sessions then Some(ASession(t.sessions[h]))
    else None
  }

  function Apply(t: Table, op: Op): Table {
    match op
    case Alloc(e) =>
      var h := t.next + 1;
      var u := t.(next := h, given := t.given[h := e]);
      (match e
       case ASocket(k) => u.(sockets := t.sockets[h := k])
       case AProcess(p) => u.(processes := t.processes[h := p])
       case ASession(s) => u.(sessions := t.sessions[h := s]))
    case Release(h) =>
      (match Live(t, h)
       case None => t
       case Some(e) =>
         var u := t.(closings := t.closings + CloseCalls(h, e));
         (match e
          case ASocket(_) => u.(sockets := t.sockets - {h})
          case AProcess(_) => u.(processes := t.processes - {h})
          case ASession(_) => u.(sessions := t.sessions - {h})))
    case CloseStdin(h) =>
      if h in t.processes && t.processes[h].stdinWrite != NULL_HANDLE then
        t.(closings := t.closings + [Closing(h, OsHandle(t.processes[h].stdinWrite))],
           processes := t.processes[h := t.processes[h].(stdinWrite := NULL_HANDLE)])
      else t
  }

  function Run(ops: seq<Op>): Table {
    if ops == [] then Empty() else Apply(Run(ops[..|ops| - 1]), ops[|ops| - 1])
  }

  // ---------- counting ----------

  /** How often a resource was closed on behalf of a handle. */
  function Closed(log: seq<Closing>, h: nat, r: Resource): nat {
    if log == [] then 0 else (if log[0] == Closing(h, r) then 1 else 0) + Closed(log[1..], h, r)
  }

  /** How often a resource was closed at all. */
  function ClosedByAnyone(log: seq<Closing>, r: Resource): nat {
    if log == [] then 0 else (if log[0].resource == r then 1 else 0) + ClosedByAnyone(log[1..], r)
  }

  function One(b: bool): nat {
    if b then 1 else 0
  }

  /** How many valid slots of an entry hold the resource. */
  function Holds(e: Entry, r: Resource): nat {
    match e
    case ASocket(k) => One(k.s != INVALID_SOCKET && r == Socket(k.s))
    case AProcess(p) =>
      One(p.stdoutRead != NULL_HANDLE && r == OsHandle(p.stdoutRead))
      + One(p.stderrRead != NULL_HANDLE && r == OsHandle(p.stderrRead))
      + One(p.stdinWrite != NULL_HANDLE && r == OsHandle(p.stdinWrite))
      + One(p.process != NULL_HANDLE && r == OsHandle(p.process))
    case ASession(t) =>
      One(r == Context(t.ctx)) + One(r == Credential(t.cred)) + One(t.s != INVALID_SOCKET && r == Socket(t.s))
  }

  function HoldsLive(t: Table, h: nat, r: Resource): nat {
    match Live(t, h) case None => 0 case Some(e) => Holds(e, r)
  }

  lemma {:induction false} ClosedConcat(a: seq<Closing>, b: seq<Closing>, h: nat, r: Resource)
    ensures Closed(a + b, h, r) == Closed(a, h, r) + Closed(b, h, r)
  {
    if a == [] {
      assert a + b == b;
    } else {
      assert (a + b)[1..] == a[1..] + b;
      ClosedConcat(a[1..], b, h, r);
    }
  }

  lemma {:induction false} ClosedIf(valid: bool, h: nat, q: Resource, g: nat, r: Resource)
    ensures Closed(If(valid, h, q), g, r) == One(valid && g == h && r == q)
  {
    assert [Closing(h, q)][1..] == [];
  }

  /** Release closes every valid slot once, for its own handle only. */
  lemma {:induction false} CloseCallsCount(h: nat, e: Entry, g: nat, r: Resource)
    ensures Closed(CloseCalls(h, e), g, r) == if g == h then Holds(e, r) else 0
  {
    match e {
      case ASocket(k) => ClosedIf(k.s != INVALID_SOCKET, h, Socket(k.s), g, r);
      case AProcess(p) => ProcessCallsCount(h, p, g, r);
      case ASession(t) => SessionCallsCount(h, t, g, r);
    }
  }

  lemma {:induction false} ClosedFour(a: seq<Closing>, b: seq<Closing>, c: seq<Closing>, d: seq<Closing>,
                                      h: nat, r: Resource)
    ensures Closed(a + b + c + d, h, r) == Closed(a, h, r) + Closed(b, h, r) + Closed(c, h, r) + Closed(d, h, r)
    ensures Closed(a + b + c, h, r) == Closed(a, h, r) + Closed(b, h, r) + Closed(c, h, r)
  {
    ClosedConcat(a + b + c, d, h, r);
    ClosedConcat(a + b, c, h, r);
    ClosedConcat(a, b, h, r);
  }

  lemma {:induction false} ProcessCallsCount(h: nat, p: Proc, g: nat, r: Resource)
    ensures Closed(CloseCalls(h, AProcess(p)), g, r) == if g == h then Holds(AProcess(p), r) else 0
  {
    var a := If(p.stdoutRead != NULL_HANDLE, h, OsHandle(p.stdoutRead));
    var b := If(p.stderrRead != NULL_HANDLE, h, OsHandle(p.stderrRead));
    var c := If(p.stdinWrite != NULL_HANDLE, h, OsHandle(p.stdinWrite));
    var d := If(p.process != NULL_HANDLE, h, OsHandle(p.process));
    ClosedFour(a, b, c, d, g, r);
    ClosedIf(p.stdoutRead != NULL_HANDLE, h, OsHandle(p.stdoutRead), g, r);
    ClosedIf(p.stderrRead != NULL_HANDLE, h, OsHandle(p.stderrRead), g, r);
    ClosedIf(p.stdinWrite != NULL_HANDLE, h, OsHandle(p.stdinWrite), g, r);
    ClosedIf(p.process != NULL_HANDLE, h, OsHandle(p.process), g, r);
  }

  lemma {:induction false} SessionCallsCount(h: nat, t: Tls, g: nat, r: Resource)
    ensures Closed(CloseCalls(h, ASession(t)), g, r) == if g == h then Holds(ASession(t), r) else 0
  {
    var a := If(true, h, Context(t.ctx));
    var b := If(true, h, Credential(t.cred));
    var c := If(t.s != INVALID_SOCKET, h, Socket(t.s));
    assert a + b == [Closing(h, Context(t.ctx)), Closing(h, Credential(t.cred))];
    ClosedFour(a, b, c, [], g, r);
    ClosedIf(true, h, Context(t.ctx), g, r);
    ClosedIf(true, h, Credential(t.cred), g, r);
    ClosedIf(t.s != INVALID_SOCKET, h, Socket(t.s), g, r);
  }

  // ---------- the invariant ----------

  /** What is live is what was given, up to a standard input closed early. */
  predicate SameEntry(live: Entry, given: Entry) {
    live == given || (given.AProcess? && live == AProcess(given.proc.(stdinWrite := NULL_HANDLE)))
  }

  ghost predicate Inv(t: Table) {
    && (forall h :: h in t.given <==> 1 <= h <= t.next)
    && t.sockets.Keys !! t.processes.Keys && t.sockets.Keys !! t.sessions.Keys && t.processes.Keys !! t.sessions.Keys
    && (forall h :: Live(t, h).Some? ==> h in t.given && SameEntry(Live(t, h).value, t.given[h]))
    && (forall h, r :: h in t.given ==> Closed(t.closings, h, r) + HoldsLive(t, h, r) == Holds(t.given[h], r))
    && (forall h, r :: h !in t.given ==> Closed(t.closings, h, r) == 0)
  }

  lemma {:induction false} AllocLive(t: Table, e: Entry, g: nat)
    requires Inv(t)
    ensures Live(Apply(t, Alloc(e)), g) == if g == t.next + 1 then Some(e) else Live(t, g)
  {
    assert t.next + 1 !in t.given && Live(t, t.next + 1).None?;
  }

  lemma {:induction false} AllocInv(t: Table, e: Entry)
    requires Inv(t)
    ensures Inv(Apply(t, Alloc(e)))
  {
    var u := Apply(t, Alloc(e));
    var h := t.next + 1;
    assert h !in t.given;
    forall g ensures Live(u, g) == if g == h then Some(e) else Live(t, g) {
      AllocLive(t, e, g);
    }
    forall g, r | g in u.given ensures Closed(u.closings, g, r) + HoldsLive(u, g, r) == Holds(u.given[g], r) {
      assert g != h ==> g in t.given;
    }
  }

  lemma {:induction false} ReleaseLive(t: Table, h: nat, g: nat)
    requires Inv(t)
    ensures Live(Apply(t, Release(h)), g) == if g == h then None else Live(t, g)
  {
  }

  lemma {:induction false} ReleaseCloses(t: Table, h: nat, g: nat, r: Resource)
    ensures Closed(Apply(t, Release(h)).closings, g, r) ==
            Closed(t.closings, g, r) + (if g == h then HoldsLive(t, h, r) else 0)
  {
    if Live(t, h).Some? {
      ClosedConcat(t.closings, CloseCalls(h, Live(t, h).value), g, r);
      CloseCallsCount(h, Live(t, h).value, g, r);
    }
  }

  /** Operations other than an allocation: what is closed for a handle is what it holds no more. */
  lemma {:induction false} LedgerKept(t: Table, u: Table)
    requires Inv(t) && u.given == t.given && u.next == t.next
    requires u.sockets.Keys <= t.sockets.Keys && u.processes.Keys <= t.processes.Keys
    requires u.sessions.Keys <= t.sessions.Keys
    requires forall g :: Live(u, g).Some? ==>
               Live(t, g).Some? && (SameEntry(Live(t, g).value, t.given[g]) ==> SameEntry(Live(u, g).value, t.given[g]))
    requires forall g, r ::
               Closed(u.closings, g, r) + HoldsLive(u, g, r) == Closed(t.closings, g, r) + HoldsLive(t, g, r)
    ensures Inv(u)
  {
    forall g, r | g !in u.given ensures Closed(u.closings, g, r) == 0 {
      assert Live(t, g).None?;
    }
  }

  lemma {:induction false} ReleaseInv(t: Table, h: nat)
    requires Inv(t)
    ensures Inv(Apply(t, Release(h)))
  {
    var u := Apply(t, Release(h));
    forall g, r
      ensures Closed(u.closings, g, r) + HoldsLive(u, g, r) == Closed(t.closings, g, r) + HoldsLive(t, g, r)
      ensures Live(u, g) == if g == h then None else Live(t, g)
    {
      ReleaseLive(t, h, g);
      ReleaseCloses(t, h, g, r);
    }
    forall g ensures Live(u, g) == if g == h then None else Live(t, g) {
      ReleaseLive(t, h, g);
    }
    LedgerKept(t, u);
  }

  /** A process whose standard input is closed early. */
  lemma {:induction false} StdinSlot(p: Proc, r: Resource)
    requires p.stdinWrite != NULL_HANDLE
    ensures Holds(AProcess(p), r) ==
            Holds(AProcess(p.(stdinWrite := NULL_HANDLE)), r) + One(r == OsHandle(p.stdinWrite))
  {
  }

  lemma {:induction false} CloseStdinLive(t: Table, h: nat, g: nat)
    requires Inv(t) && h in t.processes
    ensures Live(t, h) == Some(AProcess(t.processes[h]))
    ensures Live(Apply(t, CloseStdin(h)), g) ==
            if g == h then Some(AProcess(t.processes[h].(stdinWrite := NULL_HANDLE))) else Live(t, g)
  {
  }

  lemma {:induction false} CloseStdinInv(t: Table, h: nat)
    requires Inv(t)
    ensures Inv(Apply(t, CloseStdin(h)))
  {
    var u := Apply(t, CloseStdin(h));
    if h in t.processes && t.processes[h].stdinWrite != NULL_HANDLE {
      var p := t.processes[h];
      var q := p.(stdinWrite := NULL_HANDLE);
      var res := OsHandle(p.stdinWrite);
      forall g
        ensures Live(t, h) == Some(AProcess(p)) && Live(u, g) == if g == h then Some(AProcess(q)) else Live(t, g)
      {
        CloseStdinLive(t, h, g);
      }
      forall g, r
        ensures Closed(u.closings, g, r) + HoldsLive(u, g, r) == Closed(t.closings, g, r) + HoldsLive(t, g, r)
      {
        ClosedConcat(t.closings, If(true, h, res), g, r);
        ClosedIf(true, h, res, g, r);
        StdinSlot(p, r);
        CloseStdinLive(t, h, g);
      }
      LedgerKept(t, u);
    }
  }

  /** What the operations do to the entries: an allocation adds one, a release removes one, a stdin-close clears one. */
  lemma {:induction false} LiveAfter(t: Table, e: Entry, h: nat, g: nat)
    requires Inv(t)
    ensures Live(Apply(t, Alloc(e)), g) == if g == t.next + 1 then Some(e) else Live(t, g)
    ensures Live(Apply(t, Release(h)), g) == if g == h then None else Live(t, g)
    ensures Live(Apply(t, CloseStdin(h)), g) ==
            if g == h && Live(t, h).Some? && Live(t, h).value.AProcess?
            then Some(AProcess(Live(t, h).value.proc.(stdinWrite := 0))) else Live(t, g)
  {
    AllocLive(t, e, g);
    ReleaseLive(t, h, g);
    if h in t.processes {
      CloseStdinLive(t, h, g);
    }
  }

  /** The close calls of a release, in the order of the source; a slot that is not valid is passed over. */
  lemma {:induction false} CloseOrder(h: nat, s: int, a: int, b: int, c: int, d: int)
    requires s != -1 && a != 0 && b != 0 && c != 0 && d != 0
    ensures CloseCalls(h, ASocket(Sock(s, true))) == CloseCalls(h, ASocket(Sock(s, false))) == [Closing(h, Socket(s))]
    ensures CloseCalls(h, ASocket(Sock(-1, true))) == CloseCalls(h, ASocket(Sock(-1, false))) == []
    ensures CloseCalls(h, AProcess(Proc(a, b, c, d))) ==
            [Closing(h, OsHandle(b)), Closing(h, OsHandle(c)), Closing(h, OsHandle(d)), Closing(h, OsHandle(a))]
    ensures CloseCalls(h, AProcess(Proc(a, b, c, 0))) ==
            [Closing(h, OsHandle(b)), Closing(h, OsHandle(c)), Closing(h, OsHandle(a))]
    ensures CloseCalls(h, AProcess(Proc(0, 0, 0, 0))) == []
    ensures CloseCalls(h, ASession(Tls(s, a, b, c))) ==
            [Closing(h, Context(b)), Closing(h, Credential(a)), Closing(h, Socket(s))]
    ensures CloseCalls(h, ASession(Tls(-1, a, b, c))) == [Closing(h, Context(b)), Closing(h, Credential(a))]
  {
  }

  /** Over every sequence of operations, on any resources, distinct or not. */
  lemma {:induction false} RunInv(ops: seq<Op>)
    ensures Inv(Run(ops))
    decreases |ops|
  {
    if ops != [] {
      var before := Run(ops[..|ops| - 1]);
      RunInv(ops[..|ops| - 1]);
      match ops[|ops| - 1] {
        case Alloc(e) => AllocInv(before, e);
        case Release(h) => ReleaseInv(before, h);
        case CloseStdin(h) => CloseStdinInv(before, h);
      }
    }
  }

  /** A close of standard input that found the handle registered. */
  predicate StdinClosed(ops: seq<Op>, h: nat) {
    exists i :: 0 <= i < |ops| && ops[i] == CloseStdin(h) && h in Run(ops[..i]).given
  }

  lemma {:induction false} StdinClosedSnoc(ops: seq<Op>, op: Op, h: nat)
    ensures StdinClosed(ops + [op], h) <==> StdinClosed(ops, h) || (op == CloseStdin(h) && h in Run(ops).given)
  {
    var all := ops + [op];
    assert all[..|ops|] == ops;
    forall i | 0 <= i < |ops| ensures all[..i] == ops[..i] && all[i] == ops[i] {}
    if StdinClosed(ops, h) {
      var i :| 0 <= i < |ops| && ops[i] == CloseStdin(h) && h in Run(ops[..i]).given;
      assert all[i] == CloseStdin(h) && all[..i] == ops[..i];
    }
    if op == CloseStdin(h) && h in Run(ops).given {
      assert all[|ops|] == CloseStdin(h);
    }
  }

  /** What a live process looks like: as it was given, with a null standard input once that was closed. */
  predicate AsGiven(live: Option<Entry>, given: Entry, stdinClosed: bool) {
    live.Some? ==>
      if stdinClosed && given.AProcess? then live.value == AProcess(given.proc.(stdinWrite := 0))
      else live.value == given
  }

  lemma {:induction false} StepAsGiven(t: Table, op: Op, h: nat, closed: bool)
    requires Inv(t) && h in t.given && AsGiven(Live(t, h), t.given[h], closed)
    ensures AsGiven(Live(Apply(t, op), h), t.given[h], closed || op == CloseStdin(h))
  {
    match op {
      case Alloc(e) => AllocLive(t, e, h);
      case Release(g) => ReleaseLive(t, g, h);
      case CloseStdin(g) =>
        if g in t.processes {
          CloseStdinLive(t, g, h);
        }
    }
  }

  /** Which live processes have lost their standard input: exactly those it was closed for. */
  lemma {:induction false} LiveByHistory(ops: seq<Op>, h: nat)
    requires h in Run(ops).given
    ensures AsGiven(Live(Run(ops), h), Run(ops).given[h], StdinClosed(ops, h))
    decreases |ops|
  {
    var before, op := ops[..|ops| - 1], ops[|ops| - 1];
    assert ops == before + [op];
    RunInv(before);
    RunSnoc(before, op);
    StdinClosedSnoc(before, op, h);
    if h in Run(before).given {
      LiveByHistory(before, h);
      StepAsGiven(Run(before), op, h, StdinClosed(before, h));
      GivenStep(Run(before), op, h);
    } else {
      NewlyGiven(Run(before), op, h);
      NotClosedBefore(before, h);
    }
  }

  lemma {:induction false} NewlyGiven(t: Table, op: Op, h: nat)
    requires Inv(t) && h !in t.given && h in Apply(t, op).given
    ensures op.Alloc? && Live(Apply(t, op), h) == Some(Apply(t, op).given[h])
  {
    match op {
      case Alloc(e) => AllocLive(t, e, h);
      case Release(g) =>
      case CloseStdin(g) =>
    }
  }

  lemma {:induction false} NotClosedBefore(ops: seq<Op>, h: nat)
    requires h !in Run(ops).given
    ensures !StdinClosed(ops, h)
  {
    if i :| 0 <= i < |ops| && ops[i] == CloseStdin(h) && h in Run(ops[..i]).given {
      assert ops == ops[..i] + ops[i..];
      GivenGrows(ops[..i], ops[i..], h);
    }
  }

  lemma {:induction false} GivenStep(t: Table, op: Op, h: nat)
    requires Inv(t) && h in t.given
    ensures h in Apply(t, op).given && Apply(t, op).given[h] == t.given[h]
    ensures Live(t, h).None? ==> Live(Apply(t, op), h).None?
  {
    assert h != t.next + 1;
  }

  lemma {:induction false} RunSnoc(ops: seq<Op>, op: Op)
    ensures Run(ops + [op]) == Apply(Run(ops), op)
  {
    assert (ops + [op])[..|ops|] == ops;
  }

  lemma {:induction false} LastApart(ops: seq<Op>, more: seq<Op>)
    requires more != []
    ensures ops + more == ops + more[..|more| - 1] + [more[|more| - 1]]
  {
  }

  lemma {:induction false} GivenGrows(ops: seq<Op>, more: seq<Op>, h: nat)
    requires h in Run(ops).given
    ensures h in Run(ops + more).given && Run(ops + more).given[h] == Run(ops).given[h]
    ensures Live(Run(ops), h).None? ==> Live(Run(ops + more), h).None?
    decreases |more|
  {
    if more == [] {
      assert ops + more == ops;
    } else {
      var shorter, op := more[..|more| - 1], more[|more| - 1];
      GivenGrows(ops, shorter, h);
      RunInv(ops + shorter);
      GivenStep(Run(ops + shorter), op, h);
      LastApart(ops, more);
      RunSnoc(ops + shorter, op);
    }
  }

  /**
    A handle lives in one map, and looking it up finds what it was allocated
    for, with a null standard input exactly if that was closed.
   */
  lemma {:induction false} LookupFindsAllocation(ops: seq<Op>, h: nat)
    ensures var t := Run(ops);
            && (h in t.sockets ==>
                  h in t.given && t.given[h] == ASocket(t.sockets[h]) && h !in t.processes && h !in t.sessions)
            && (h in t.sessions ==>
                  h in t.given && t.given[h] == ASession(t.sessions[h]) && h !in t.sockets && h !in t.processes)
            && (h in t.processes ==>
                  h in t.given && SameEntry(AProcess(t.processes[h]), t.given[h])
                  && h !in t.sockets && h !in t.sessions)
            && (h in t.processes ==>
                  AProcess(t.processes[h]) == if StdinClosed(ops, h) then AProcess(t.given[h].proc.(stdinWrite := 0))
                                              else t.given[h])
  {
    RunInv(ops);
    if h in Run(ops).given {
      LiveByHistory(ops, h);
    }
    assert Live(Run(ops), h).Some? ==> SameEntry(Live(Run(ops), h).value, Run(ops).given[h]);
  }

  lemma {:induction false} Released(t: Table, h: nat)
    requires Inv(t)
    ensures Apply(t, Release(h)).given == t.given && Live(Apply(t, Release(h)), h).None?
  {
    ReleaseLive(t, h, h);
  }

  /** An allocation returns a handle that was never given before; once released, a handle is dead for ever. */
  lemma {:induction false} HandlesNeverReused(ops: seq<Op>, e: Entry, more: seq<Op>)
    ensures var h := Run(ops).next + 1;
            && h !in Run(ops).given
            && Run(ops + [Alloc(e)]).given == Run(ops).given[h := e]
            && Live(Run(ops + [Alloc(e)]), h) == Some(e)
            && Live(Run(ops + [Alloc(e), Release(h)] + more), h).None?
  {
    var h := Run(ops).next + 1;
    FreshHandle(ops, e);
    assert ops + [Alloc(e), Release(h)] == ops + [Alloc(e)] + [Release(h)];
    DeadAfterRelease(ops + [Alloc(e)], h, more);
  }

  lemma {:induction false} FreshHandle(ops: seq<Op>, e: Entry)
    ensures var h := Run(ops).next + 1;
            && h !in Run(ops).given
            && Run(ops + [Alloc(e)]).given == Run(ops).given[h := e]
            && Live(Run(ops + [Alloc(e)]), h) == Some(e)
  {
    RunInv(ops);
    RunSnoc(ops, Alloc(e));
    AllocFresh(Run(ops), e);
  }

  lemma {:induction false} AllocFresh(t: Table, e: Entry)
    requires Inv(t)
    ensures t.next + 1 !in t.given
    ensures Apply(t, Alloc(e)).given == t.given[t.next + 1 := e]
    ensures Live(Apply(t, Alloc(e)), t.next + 1) == Some(e)
  {
    AllocLive(t, e, t.next + 1);
  }

  lemma {:induction false} DeadAfterRelease(ops: seq<Op>, h: nat, more: seq<Op>)
    requires h in Run(ops).given
    ensures Live(Run(ops + [Release(h)] + more), h).None?
  {
    RunInv(ops);
    RunSnoc(ops, Release(h));
    Released(Run(ops), h);
    GivenGrows(ops + [Release(h)], more, h);
  }

  /**
    Closing is exact: a handle that is gone has had each of its valid slots
    closed exactly once - a standard input closed early included - and a live
    one never more than it holds.
   */
  lemma {:induction false} ClosedExactlyOnce(ops: seq<Op>, h: nat, r: Resource)
    requires h in Run(ops).given
    ensures var t := Run(ops);
            && Closed(t.closings, h, r) <= Holds(t.given[h], r)
            && (Live(t, h).None? ==> Closed(t.closings, h, r) == Holds(t.given[h], r))
  {
    RunInv(ops);
  }

  lemma {:induction false} OnlyCloser(log: seq<Closing>, h: nat, r: Resource)
    requires forall i :: 0 <= i < |log| && log[i].resource == r ==> log[i].handle == h
    ensures ClosedByAnyone(log, r) == Closed(log, h, r)
  {
    if log != [] {
      OnlyCloser(log[1..], h, r);
    }
  }

  lemma {:induction false} ClosedAt(log: seq<Closing>, i: nat)
    requires i < |log|
    ensures Closed(log, log[i].handle, log[i].resource) >= 1
  {
    if i > 0 {
      ClosedAt(log[1..], i - 1);
    }
  }

  /** A resource registered in one slot of one handle is never closed twice, by anyone. */
  lemma {:induction false} DistinctResourceClosedOnce(ops: seq<Op>, h: nat, r: Resource)
    requires h in Run(ops).given && Holds(Run(ops).given[h], r) == 1
    requires forall g :: g in Run(ops).given && g != h ==> Holds(Run(ops).given[g], r) == 0
    ensures ClosedByAnyone(Run(ops).closings, r) <= 1
    ensures Live(Run(ops), h).None? ==> ClosedByAnyone(Run(ops).closings, r) == 1
  {
    RunInv(ops);
    var t := Run(ops);
    forall i | 0 <= i < |t.closings| && t.closings[i].resource == r ensures t.closings[i].handle == h {
      ClosedAt(t.closings, i);
      var g := t.closings[i].handle;
      assert Closed(t.closings, g, r) >= 1;
      assert g in t.given;
    }
    OnlyCloser(t.closings, h, r);
  }

  lemma {:induction false} ProcessCalls(log: seq<Closing>, h: nat, p: Proc)
    ensures log + CloseCalls(h, AProcess(p)) ==
            log + If(p.stdoutRead != NULL_HANDLE, h, OsHandle(p.stdoutRead))
            + If(p.stderrRead != NULL_HANDLE, h, OsHandle(p.stderrRead))
            + If(p.stdinWrite != NULL_HANDLE, h, OsHandle(p.stdinWrite))
            + If(p.process != NULL_HANDLE, h, OsHandle(p.process))
  {
    var a := If(p.stdoutRead != NULL_HANDLE, h, OsHandle(p.stdoutRead));
    var b := If(p.stderrRead != NULL_HANDLE, h, OsHandle(p.stderrRead));
    var c := If(p.stdinWrite != NULL_HANDLE, h, OsHandle(p.stdinWrite));
    var d := If(p.process != NULL_HANDLE, h, OsHandle(p.process));
    Regroup(log, a + b + c, d);
    Regroup(log, a + b, c);
    Regroup(log, a, b);
  }

  // ---------- the table object ----------

  class HandleMap {
    var next: nat
    var sockets: map<nat, Sock>
    var processes: map<nat, Proc>
    var sessions: map<nat, Tls>
    var closings: seq<Closing>
    ghost var given: map<nat, Entry>

    ghost function View(): Table
      reads this
    {
      Table(next, sockets, processes, sessions, closings, given)
    }

    constructor ()
      ensures View() == Empty()
    {
      next, sockets, processes, sessions, closings, given := 0, map[], map[], map[], [], map[];
    }

    method AllocSocket(s: int, udp: bool) returns (h: nat)
      modifies this
      ensures View() == Apply(old(View()), Alloc(ASocket(Sock(s, udp)))) && h == next
    {
      next := next + 1;
      h := next;
      sockets := sockets[h := Sock(s, udp)];
      given := given[h := ASocket(Sock(s, udp))];
    }

    method AllocProcess(process: int, stdoutRead: int, stderrRead: int, stdinWrite: int) returns (h: nat)
      modifies this
      ensures View()
          == Apply(old(View()), Alloc(AProcess(Proc(process, stdoutRead, stderrRead, stdinWrite)))) && h == next
    {
      next := next + 1;
      h := next;
      processes := processes[h := Proc(process, stdoutRead, stderrRead, stdinWrite)];
      given := given[h := AProcess(Proc(process, stdoutRead, stderrRead, stdinWrite))];
    }

    method AllocTls(s: int, cred: int, ctx: int, sizes: int) returns (h: nat)
      modifies this
      ensures View() == Apply(old(View()), Alloc(ASession(Tls(s, cred, ctx, sizes)))) && h == next
    {
      next := next + 1;
      h := next;
      sessions := sessions[h := Tls(s, cred, ctx, sizes)];
      given := given[h := ASession(Tls(s, cred, ctx, sizes))];
    }

    /** A lookup finds exactly a live handle of its own kind, with what the table holds for it. */
    method LookupSocket(h: nat) returns (r: Option<Sock>)
      requires Inv(View())
      ensures r.None? ==> Live(View(), h).None? || !Live(View(), h).value.ASocket?
      ensures r.Some? ==> Live(View(), h) == Some(ASocket(r.value))
      ensures r.Some? ==> h in given && given[h] == ASocket(r.value)
    {
      if h !in sockets {
        return None;
      }
      assert Live(View(), h) == Some(ASocket(sockets[h]));
      return Some(sockets[h]);
    }

    /** A standard input closed early is null, and nothing else differs from what was registered. */
    method LookupProcess(h: nat) returns (r: Option<Proc>)
      requires Inv(View())
      ensures r.None? ==> Live(View(), h).None? || !Live(View(), h).value.AProcess?
      ensures r.Some? ==> Live(View(), h) == Some(AProcess(r.value))
      ensures r.Some? ==> h in given && SameEntry(AProcess(r.value), given[h])
    {
      if h !in processes {
        return None;
      }
      assert Live(View(), h) == Some(AProcess(processes[h]));
      return Some(processes[h]);
    }

    method LookupTls(h: nat) returns (r: Option<Tls>)
      requires Inv(View())
      ensures r.None? ==> Live(View(), h).None? || !Live(View(), h).value.ASession?
      ensures r.Some? ==> Live(View(), h) == Some(ASession(r.value))
      ensures r.Some? ==> h in given && given[h] == ASession(r.value)
    {
      if h !in sessions {
        return None;
      }
      assert Live(View(), h) == Some(ASession(sessions[h]));
      return Some(sessions[h]);
    }

    /** A foreign close call, made for a valid slot only. */
    method CloseIf(valid: bool, h: nat, r: Resource)
      modifies `closings
      ensures closings == old(closings) + If(valid, h, r)
    {
      if valid {
        closings := closings + [Closing(h, r)];
      }
    }

    method Release(h: nat)
      modifies this
      ensures View() == Apply(old(View()), Op.Release(h))
    {
      if h in sockets {
        var e := sockets[h];
        CloseIf(e.s != INVALID_SOCKET, h, Socket(e.s));
        sockets := sockets - {h};
        return;
      }
      if h in processes {
        var e := processes[h];
        CloseIf(e.stdoutRead != NULL_HANDLE, h, OsHandle(e.stdoutRead));
        CloseIf(e.stderrRead != NULL_HANDLE, h, OsHandle(e.stderrRead));
        CloseIf(e.stdinWrite != NULL_HANDLE, h, OsHandle(e.stdinWrite));
        CloseIf(e.process != NULL_HANDLE, h, OsHandle(e.process));
        ProcessCalls(old(closings), h, e);
        processes := processes - {h};
        return;
      }
      if h in sessions {
        var e := sessions[h];
        CloseIf(true, h, Context(e.ctx));
        CloseIf(true, h, Credential(e.cred));
        CloseIf(e.s != INVALID_SOCKET, h, Socket(e.s));
        assert closings == old(closings) + CloseCalls(h, ASession(e));
        sessions := sessions - {h};
        return;
      }
    }

    method CloseProcessStdin(h: nat)
      modifies this
      ensures View() == Apply(old(View()), CloseStdin(h))
    {
      if h !in processes {
        return;
      }
      var e := processes[h];
      if e.stdinWrite != NULL_HANDLE {
        CloseIf(true, h, OsHandle(e.stdinWrite));
        processes := processes[h := e.(stdinWrite := NULL_HANDLE)];
      }
    }
  }
}

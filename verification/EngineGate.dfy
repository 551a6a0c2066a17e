/**
  The four-slot gate in front of the guest engine, with serialized dials, shared by public-proxy
  handlers, gated-proxy handlers, readiness probes and local docker commands
  (backend/internal/runtime/guest_darwin.go, backend/internal/daemon/docker_socket_proxy.go).
  One event is one atomic step of one of them; every interleaving is an event list.
 */
module EngineGate {
  import opened Options

  const MAX_CONCURRENT := 4

  datatype Kind = PublicHandler | GatedHandler | Probe | LocalCommand

  predicate IsHandler(kind: Kind) { kind == PublicHandler || kind == GatedHandler }

  /** Where a handler or probe stands. `woken` is true after the public handler's wake succeeded. */
  datatype Pc =
    | Reading
    | WantSlot
    | WantDial(woken: bool)
    | Dialing(woken: bool)
    | DialFailed(woken: bool)
    | Waking
    | Serving
    | Commanding
    | Releasing
    | Finished

  /** `headRead`, `slot` and `conn` record what the process has really done, apart from its `pc`. */
  datatype Proc = Proc(kind: Kind, pc: Pc, headRead: bool, slot: bool, conn: bool)

  /** `tokens` is the fill of the gate channel; `dialMu` the holder of the dial mutex. */
  datatype State = State(procs: map<nat, Proc>, tokens: nat, dialMu: Option<nat>)

  const Init := State(map[], 0, None)

  datatype Event =
    | Spawn(id: nat, kind: Kind)
    | ReadHead(id: nat)
    | ReadFailed(id: nat)
    | Acquire(id: nat)
    | AcquireCancelled(id: nat)
    | LockDial(id: nat)
    | DialOk(id: nat)
    | DialError(id: nat)
    | DialExpired(id: nat)
    | RetryDial(id: nat)
    | GiveUp(id: nat)
    | StartWake(id: nat)
    | WakeOk(id: nat)
    | WakeError(id: nat)
    | CloseConn(id: nat)
    | CommandEnded(id: nat)
    | Release(id: nat)

  predicate Enabled(s: State, e: Event) {
    if e.Spawn? then e.id !in s.procs
    else
      e.id in s.procs &&
      var p := s.procs[e.id];
      match e
      case Spawn(_, _) => false
      case ReadHead(_) => p.pc == Reading
      case ReadFailed(_) => p.pc == Reading
      case Acquire(_) => p.pc == WantSlot && s.tokens < MAX_CONCURRENT
      case AcquireCancelled(_) => p.pc == WantSlot
      case LockDial(_) => p.pc.WantDial? && s.dialMu.None?
      case DialExpired(_) => p.pc.WantDial? && p.kind == PublicHandler
      case DialOk(_) => p.pc.Dialing?
      case DialError(_) => p.pc.Dialing?
      case RetryDial(_) => p.pc.DialFailed? && p.kind == PublicHandler
      case GiveUp(_) => p.pc.DialFailed? && (p.kind == PublicHandler ==> p.pc.woken)
      case StartWake(_) => p.pc.DialFailed? && p.kind == PublicHandler && !p.pc.woken
      case WakeOk(_) => p.pc == Waking
      case WakeError(_) => p.pc == Waking
      case CloseConn(_) => p.pc == Serving
      case CommandEnded(_) => p.pc == Commanding
      case Release(_) => p.pc == Releasing
  }

  /** The process that takes the step, afterwards. */
  function Move(p: Proc, e: Event): Proc
    requires !e.Spawn?
  {
    match e
    case ReadHead(_) => p.(pc := WantSlot, headRead := true)
    case ReadFailed(_) => p.(pc := Finished)
    case Acquire(_) => p.(pc := if p.kind == LocalCommand then Commanding else WantDial(false), slot := true)
    case AcquireCancelled(_) => p.(pc := Finished)
    case LockDial(_) => p.(pc := Dialing(p.pc.WantDial? && p.pc.woken))
    case DialOk(_) => p.(pc := Serving, conn := true)
    case DialError(_) => p.(pc := DialFailed(p.pc.Dialing? && p.pc.woken))
    case DialExpired(_) => p.(pc := DialFailed(p.pc.WantDial? && p.pc.woken))
    case RetryDial(_) => p.(pc := WantDial(p.pc.DialFailed? && p.pc.woken))
    case GiveUp(_) => p.(pc := Releasing)
    case StartWake(_) => p.(pc := Waking)
    case WakeOk(_) => p.(pc := WantDial(true))
    case WakeError(_) => p.(pc := Releasing)
    case CloseConn(_) => p.(pc := Releasing, conn := false)
    case CommandEnded(_) => p.(pc := Releasing)
    case Release(_) => p.(pc := Finished, slot := false)
  }

  /** ReleaseEngineConn takes a token only when there is one. */
  function Drained(tokens: nat): nat { if tokens > 0 then tokens - 1 else 0 }

  function Apply(s: State, e: Event): State
    requires Enabled(s, e)
  {
    match e
    case Spawn(id, kind) =>
      s.(procs := s.procs[id := Proc(kind, if IsHandler(kind) then Reading else WantSlot, false, false, false)])
    case Acquire(id) => s.(procs := s.procs[id := Move(s.procs[id], e)], tokens := s.tokens + 1)
    case Release(id) => s.(procs := s.procs[id := Move(s.procs[id], e)], tokens := Drained(s.tokens))
    case LockDial(id) => s.(procs := s.procs[id := Move(s.procs[id], e)], dialMu := Some(id))
    case DialOk(id) => s.(procs := s.procs[id := Move(s.procs[id], e)], dialMu := None)
    case DialError(id) => s.(procs := s.procs[id := Move(s.procs[id], e)], dialMu := None)
    case _ => s.(procs := s.procs[e.id := Move(s.procs[e.id], e)])
  }

  /** The state after an interleaving, if each event was enabled in its turn. */
  function Run(es: seq<Event>): Option<State> {
    if es == [] then Some(Init)
    else
      match Run(es[..|es| - 1])
      case None => None
      case Some(s) => if Enabled(s, es[|es| - 1]) then Some(Apply(s, es[|es| - 1])) else None
  }

  // ----- Safety -----

  function Holders(s: State): set<nat> { set id | id in s.procs && s.procs[id].slot }

  function Connected(s: State): set<nat> { set id | id in s.procs && s.procs[id].conn }

  predicate HasSlotAt(pc: Pc) {
    pc.WantDial? || pc.Dialing? || pc.DialFailed? || pc == Waking || pc == Serving || pc == Commanding ||
        pc == Releasing
  }

  ghost predicate ProcInv(p: Proc) {
    && (p.slot <==> HasSlotAt(p.pc))
    && (p.conn <==> p.pc == Serving)
    && (IsHandler(p.kind) && (p.slot || p.pc == WantSlot) ==> p.headRead)
  }

  ghost predicate ProcsInv(s: State) {
    forall id :: id in s.procs ==> ProcInv(s.procs[id])
  }

  ghost predicate TokensInv(s: State) {
    s.tokens == |Holders(s)| <= MAX_CONCURRENT
  }

  ghost predicate DialInv(s: State) {
    && (forall id :: id in s.procs ==> (s.procs[id].pc.Dialing? <==> s.dialMu == Some(id)))
    && (s.dialMu.Some? ==> s.dialMu.value in s.procs)
  }

  ghost predicate Inv(s: State) {
    ProcsInv(s) && TokensInv(s) && DialInv(s)
  }

  /** A step touches one process only. */
  lemma OneProcMoves(s: State, e: Event)
    requires Enabled(s, e)
    ensures e.id in Apply(s, e).procs
    ensures Apply(s, e).procs == s.procs[e.id := Apply(s, e).procs[e.id]]
    ensures !e.Spawn? ==> e.id in s.procs && Apply(s, e).procs[e.id] == Move(s.procs[e.id], e)
  {
  }

  lemma StepKeepsProcs(s: State, e: Event)
    requires ProcsInv(s) && Enabled(s, e)
    ensures ProcsInv(Apply(s, e))
  {
    OneProcMoves(s, e);
    assert ProcInv(Apply(s, e).procs[e.id]);
  }

  lemma HoldersAfter(s: State, t: State, id: nat, p: Proc)
    requires t.procs == s.procs[id := p]
    ensures Holders(t) == if p.slot then Holders(s) + {id} else Holders(s) - {id}
    ensures (id in Holders(s)) == p.slot ==> Holders(t) == Holders(s)
    ensures |Holders(t)| == |Holders(s)| + (if p.slot then 1 else 0) - (if id in Holders(s) then 1 else 0)
  {
  }

  /** Only Acquire and Release change who holds a slot. */
  lemma SlotChanges(s: State, e: Event)
    requires ProcsInv(s) && Enabled(s, e)
    ensures var had, has := e.id in Holders(s), Apply(s, e).procs[e.id].slot;
      && (e.Acquire? ==> !had && has)
      && (e.Release? ==> had && !has)
      && (!e.Acquire? && !e.Release? ==> had == has)
  {
    assert !e.Spawn? ==> ProcInv(s.procs[e.id]);
  }

  lemma StepKeepsTokens(s: State, e: Event)
    requires ProcsInv(s) && TokensInv(s) && Enabled(s, e)
    ensures TokensInv(Apply(s, e))
  {
    var t := Apply(s, e);
    OneProcMoves(s, e);
    HoldersAfter(s, t, e.id, t.procs[e.id]);
    SlotChanges(s, e);
  }

  lemma StepKeepsDial(s: State, e: Event)
    requires DialInv(s) && Enabled(s, e)
    ensures DialInv(Apply(s, e))
  {
    OneProcMoves(s, e);
  }

  lemma {:induction false} AlwaysInv(es: seq<Event>)
    requires Run(es).Some?
    ensures Inv(Run(es).value)
  {
    if es == [] {
      assert Holders(Init) == {};
    } else {
      AlwaysInv(es[..|es| - 1]);
      var s, e := Run(es[..|es| - 1]).value, es[|es| - 1];
      StepKeepsProcs(s, e);
      StepKeepsTokens(s, e);
      StepKeepsDial(s, e);
    }
  }

  lemma SubsetSize(a: set<nat>, b: set<nat>)
    requires a <= b
    ensures |a| <= |b|
  {
    assert b == a + (b - a);
  }

  /**
    In every interleaving: slots taken equal slot holders and never exceed four, every open engine
    connection is held by a slot holder, at most one dial is in progress, and a handler that holds
    a slot has read its request head.
   */
  lemma GateIsSafe(es: seq<Event>)
    requires Run(es).Some?
    ensures var s := Run(es).value;
            && s.tokens == |Holders(s)| <= MAX_CONCURRENT
            && Connected(s) <= Holders(s) && |Connected(s)| <= s.tokens
            && (forall a, b :: a in s.procs && b in s.procs && s.procs[a].pc.Dialing? && s.procs[b].pc.Dialing? ==>
                a == b)
            && (forall id :: id in Holders(s) && IsHandler(s.procs[id].kind) ==> s.procs[id].headRead)
  {
    AlwaysInv(es);
    var s := Run(es).value;
    forall id | id in Connected(s) ensures id in Holders(s) {
      assert ProcInv(s.procs[id]);
    }
    SubsetSize(Connected(s), Holders(s));
  }

  /** Releasing always finds a token to take: the gate never drops below its holders. */
  lemma ReleaseFindsToken(es: seq<Event>, id: nat)
    requires Run(es).Some? && Enabled(Run(es).value, Release(id))
    ensures Run(es).value.tokens > 0
  {
    AlwaysInv(es);
    var s := Run(es).value;
    assert ProcInv(s.procs[id]);
    assert id in Holders(s);
  }

  /** A process that has finished keeps nothing. */
  lemma FinishedHoldsNothing(es: seq<Event>, id: nat)
    requires Run(es).Some?
    ensures var s := Run(es).value;
            id in s.procs && s.procs[id].pc == Finished ==>
              !s.procs[id].slot && !s.procs[id].conn && s.dialMu != Some(id)
  {
    AlwaysInv(es);
    var s := Run(es).value;
    if id in s.procs { assert ProcInv(s.procs[id]); }
  }

  // ----- The order of events -----

  lemma {:induction false} HeadWasRead(es: seq<Event>, id: nat)
    requires Run(es).Some? && id in Run(es).value.procs && Run(es).value.procs[id].headRead
    ensures ReadHead(id) in es
  {
    var init, last := es[..|es| - 1], es[|es| - 1];
    assert es == init + [last];
    if last != ReadHead(id) {
      HeadWasRead(init, id);
    }
  }

  /** No handler takes a slot before the event that read its head. */
  lemma SlotOnlyAfterHead(es: seq<Event>, k: nat, id: nat)
    requires Run(es).Some? && k < |es| && es[k] == Acquire(id)
    ensures Run(es[..k]).Some? && id in Run(es[..k]).value.procs
    ensures IsHandler(Run(es[..k]).value.procs[id].kind) ==> exists j :: 0 <= j < k && es[j] == ReadHead(id)
  {
    PrefixPossible(es, k + 1);
    assert es[..k + 1][..k] == es[..k];
    AlwaysInv(es[..k]);
    var p := Run(es[..k]).value.procs[id];
    assert ProcInv(p);
    if IsHandler(p.kind) {
      HeadWasRead(es[..k], id);
      var j :| 0 <= j < k && es[..k][j] == ReadHead(id);
      assert es[j] == ReadHead(id);
    }
  }

  lemma {:induction false} PrefixPossible(es: seq<Event>, k: nat)
    requires Run(es).Some? && k <= |es|
    ensures Run(es[..k]).Some?
    decreases |es|
  {
    if k < |es| {
      PrefixPossible(es[..|es| - 1], k);
      assert es[..|es| - 1][..k] == es[..k];
    } else {
      assert es[..k] == es;
    }
  }

  // ----- Why waking is not promised -----

  /** Handlers 0 to n - 1, one after another, connect while the engine is stopped and start to wake it. */
  function WakeScript(n: nat): seq<Event> {
    if n == 0 then []
    else
      WakeScript(n - 1) + [Spawn(n - 1, PublicHandler)] + [ReadHead(n - 1)] + [Acquire(n - 1)]
      + [LockDial(n - 1)] + [DialError(n - 1)] + [StartWake(n - 1)]
  }

  ghost predicate AllWaking(s: State, n: nat) {
    && s.tokens == n && s.dialMu == None
    && (forall id :: id in s.procs <==> 0 <= id < n)
    && (forall id :: id in s.procs ==> s.procs[id].pc == Waking && s.procs[id].kind == PublicHandler)
  }

  lemma RunOne(es: seq<Event>, e: Event)
    requires Run(es).Some? && Enabled(Run(es).value, e)
    ensures Run(es + [e]) == Some(Apply(Run(es).value, e))
  {
    assert (es + [e])[..|es + [e]| - 1] == es;
  }

  /** Handlers below `n` are waking and handler `n` stands at `pc`. */
  ghost predicate NextAt(s: State, n: nat, pc: Pc, tokens: nat, dialMu: Option<nat>) {
    && s.tokens == tokens && s.dialMu == dialMu
    && (forall id :: id in s.procs <==> 0 <= id <= n)
    && (forall id :: 0 <= id < n && id in s.procs ==> s.procs[id].pc == Waking && s.procs[id].kind == PublicHandler)
    && s.procs[n].pc == pc && s.procs[n].kind == PublicHandler
  }

  lemma StepNext(es: seq<Event>, e: Event, n: nat, pc: Pc, tokens: nat, dialMu: Option<nat>)
    requires Run(es).Some? && NextAt(Run(es).value, n, pc, tokens, dialMu)
    requires !e.Spawn? && e.id == n && Enabled(Run(es).value, e)
    ensures Run(es + [e]) == Some(Apply(Run(es).value, e))
    ensures var t := Apply(Run(es).value, e);
      NextAt(t, n, Move(Run(es).value.procs[n], e).pc, t.tokens, t.dialMu)
  {
    RunOne(es, e);
  }

  lemma TakesSlot(es: seq<Event>, id: nat)
    requires id < MAX_CONCURRENT && Run(es).Some? && AllWaking(Run(es).value, id)
    ensures var out := Run(es + [Spawn(id, PublicHandler)] + [ReadHead(id)] + [Acquire(id)]);
      out.Some? && NextAt(out.value, id, WantDial(false), id + 1, None)
  {
    RunOne(es, Spawn(id, PublicHandler));
    var e1 := es + [Spawn(id, PublicHandler)];
    assert NextAt(Run(e1).value, id, Reading, id, None);
    StepNext(e1, ReadHead(id), id, Reading, id, None);
    StepNext(e1 + [ReadHead(id)], Acquire(id), id, WantSlot, id, None);
  }

  lemma StartsWaking(es: seq<Event>, id: nat)
    requires Run(es).Some? && NextAt(Run(es).value, id, WantDial(false), id + 1, None)
    ensures var out := Run(es + [LockDial(id)] + [DialError(id)] + [StartWake(id)]);
      out.Some? && AllWaking(out.value, id + 1)
  {
    StepNext(es, LockDial(id), id, WantDial(false), id + 1, None);
    var e1 := es + [LockDial(id)];
    StepNext(e1, DialError(id), id, Dialing(false), id + 1, Some(id));
    StepNext(e1 + [DialError(id)], StartWake(id), id, DialFailed(false), id + 1, None);
  }

  lemma {:induction false} WakeScriptRuns(n: nat)
    requires n <= MAX_CONCURRENT
    ensures Run(WakeScript(n)).Some? && AllWaking(Run(WakeScript(n)).value, n)
  {
    if n > 0 {
      var id := n - 1;
      WakeScriptRuns(id);
      TakesSlot(WakeScript(id), id);
      StartsWaking(WakeScript(id) + [Spawn(id, PublicHandler)] + [ReadHead(id)] + [Acquire(id)], id);
    }
  }

  /**
    Four handlers can hold all four slots while waking the engine; then no readiness probe can take
    the slot its check needs, so progress of a wake cannot be claimed.
   */
  lemma WakersCanFillTheGate()
    ensures var es := WakeScript(MAX_CONCURRENT);
            && Run(es).Some? && AllWaking(Run(es).value, MAX_CONCURRENT)
            && forall id: nat :: !Enabled(Run(es).value, Acquire(id))
  {
    WakeScriptRuns(MAX_CONCURRENT);
  }

  /**
    In every reachable state a waiting probe, handler or command can take a slot exactly when fewer
    than four are held.
   */
  lemma SlotFreeIff(es: seq<Event>, id: nat)
    requires Run(es).Some? && id in Run(es).value.procs && Run(es).value.procs[id].pc == WantSlot
    ensures Enabled(Run(es).value, Acquire(id)) <==> |Holders(Run(es).value)| < MAX_CONCURRENT
  {
    AlwaysInv(es);
  }

  /** All four slots are held by handlers that wait for their wake. */
  ghost predicate FullOfWakers(s: State) {
    |Holders(s)| == MAX_CONCURRENT && forall id :: id in Holders(s) ==> s.procs[id].pc == Waking
  }

  predicate EndsWake(e: Event) { e.WakeOk? || e.WakeError? }

  lemma WakersStay(s: State, e: Event)
    requires Inv(s) && FullOfWakers(s) && Enabled(s, e) && !EndsWake(e)
    ensures FullOfWakers(Apply(s, e)) && Holders(Apply(s, e)) == Holders(s)
  {
    var t := Apply(s, e);
    OneProcMoves(s, e);
    SlotChanges(s, e);
    HoldersAfter(s, t, e.id, t.procs[e.id]);
    assert e.id !in Holders(s);
  }

  /**
    Once four wakers hold the gate, nobody gets a slot before one of the wakes ends, whatever else
    happens.
   */
  lemma {:induction false} NoSlotUntilAWakeEnds(es: seq<Event>, more: seq<Event>)
    requires Run(es).Some? && FullOfWakers(Run(es).value) && Run(es + more).Some?
    requires forall k :: 0 <= k < |more| ==> !EndsWake(more[k])
    ensures FullOfWakers(Run(es + more).value) && Holders(Run(es + more).value) == Holders(Run(es).value)
    ensures forall id: nat :: !Enabled(Run(es + more).value, Acquire(id))
    decreases |more|
  {
    if more == [] {
      assert es + more == es;
    } else {
      var init := more[..|more| - 1];
      assert (es + more)[..|es + more| - 1] == es + init;
      NoSlotUntilAWakeEnds(es, init);
      AlwaysInv(es + init);
      WakersStay(Run(es + init).value, more[|more| - 1]);
    }
    FullGateAdmitsNobody(es + more);
  }

  lemma FullGateAdmitsNobody(es: seq<Event>)
    requires Run(es).Some? && FullOfWakers(Run(es).value)
    ensures forall id: nat :: !Enabled(Run(es).value, Acquire(id))
  {
    AlwaysInv(es);
  }

  /** And a wake that ends in an error does free its slot for whoever waits. */
  lemma FailedWakeFreesASlot(es: seq<Event>, id: nat, waiter: nat)
    requires Run(es).Some? && FullOfWakers(Run(es).value) && id in Holders(Run(es).value)
    requires waiter in Run(es).value.procs && Run(es).value.procs[waiter].pc == WantSlot
    ensures var out := Run(es + [WakeError(id)] + [Release(id)]); out.Some? && Enabled(out.value, Acquire(waiter))
  {
    AlwaysInv(es);
    var s := Run(es).value;
    assert ProcInv(s.procs[waiter]);
    RunOne(es, WakeError(id));
    RunOne(es + [WakeError(id)], Release(id));
  }

  // ----- What a handler goes through -----

  lemma GoOn(es: seq<Event>, s: State, e: Event) returns (more: seq<Event>, t: State)
    requires Run(es) == Some(s) && Enabled(s, e)
    ensures more == es + [e] && Run(more) == Some(t) && t == Apply(s, e)
  {
    RunOne(es, e);
    more, t := es + [e], Apply(s, e);
  }

  /** A handler, probe or command that finds room gets a slot, after its head if it has one. */
  lemma GetsSlot(es: seq<Event>, s: State, id: nat, kind: Kind) returns (more: seq<Event>, t: State)
    requires Run(es) == Some(s) && id !in s.procs && s.tokens < MAX_CONCURRENT
    ensures Run(more) == Some(t) && t.tokens == s.tokens + 1 && t.dialMu == s.dialMu
    ensures id in t.procs && t.procs == s.procs[id := t.procs[id]]
    ensures t.procs[id] == Proc(kind, if kind == LocalCommand then
        Commanding else WantDial(false), IsHandler(kind), true, false)
  {
    more, t := Arrives(es, s, id, kind);
    more, t := GoOn(more, t, Acquire(id));
  }

  lemma Arrives(es: seq<Event>, s: State, id: nat, kind: Kind) returns (more: seq<Event>, t: State)
    requires Run(es) == Some(s) && id !in s.procs
    ensures Run(more) == Some(t) && t == s.(procs := s.procs[id := Proc(kind, WantSlot, IsHandler(kind), false, false)])
  {
    more, t := GoOn(es, s, Spawn(id, kind));
    if IsHandler(kind) { more, t := GoOn(more, t, ReadHead(id)); }
  }

  /** With a slot and a free dial lock a good dial serves the connection, and at its end everything is given back. */
  lemma ServesAndReleases(es: seq<Event>, s: State, id: nat) returns (serving: State, more: seq<Event>, t: State)
    requires Run(es) == Some(s) && id in s.procs && s.procs[id].pc.WantDial? && s.procs[id].slot && s.dialMu.None?
    requires s.tokens > 0
    ensures id in serving.procs && serving.procs[id].pc == Serving && serving.procs[id].conn && serving.procs[id].slot
    ensures serving.dialMu == None && serving.tokens == s.tokens
    ensures Run(more) == Some(t) && id in t.procs && t.procs[id].pc == Finished && !t.procs[id].conn &&
        !t.procs[id].slot
    ensures t.tokens == s.tokens - 1 && t.dialMu == None
  {
    more, t := GoOn(es, s, LockDial(id));
    more, t := GoOn(more, t, DialOk(id));
    serving := t;
    more, t := GoOn(more, t, CloseConn(id));
    more, t := GoOn(more, t, Release(id));
  }

  /** A public handler whose dial fails wakes the engine, keeping its slot, and dials again. */
  lemma WakesAndDialsAgain(es: seq<Event>, s: State, id: nat) returns (more: seq<Event>, t: State)
    requires Run(es) == Some(s) && id in s.procs && s.dialMu.None? && s.procs[id].kind == PublicHandler
    requires s.procs[id].pc == WantDial(false) && s.procs[id].slot
    ensures Run(more) == Some(t) && id in t.procs && t.procs[id] == s.procs[id].(pc := WantDial(true))
    ensures t.tokens == s.tokens && t.dialMu == None
  {
    more, t := GoOn(es, s, LockDial(id));
    more, t := GoOn(more, t, DialError(id));
    more, t := GoOn(more, t, StartWake(id));
    more, t := GoOn(more, t, WakeOk(id));
  }

  predicate PastWake(pc: Pc) {
    pc == Waking || pc == Serving || pc == Releasing || pc == Finished
    || (pc.WantDial? && pc.woken) || (pc.Dialing? && pc.woken) || (pc.DialFailed? && pc.woken)
  }

  lemma {:induction false} WokenStaysWoken(es: seq<Event>, k: nat)
    requires Run(es).Some? && k < |es| && es[k].StartWake?
    ensures es[k].id in Run(es).value.procs && PastWake(Run(es).value.procs[es[k].id].pc)
  {
    var init := es[..|es| - 1];
    if k < |init| {
      assert init[k] == es[k];
      WokenStaysWoken(init, k);
    }
  }

  /** A handler wakes the engine at most once. */
  lemma WakesAtMostOnce(es: seq<Event>, j: nat, k: nat)
    requires Run(es).Some? && j < |es| && k < |es| && es[j].StartWake? && es[j] == es[k]
    ensures j == k
  {
    if j < k { SecondWakeIsNotEnabled(es, j, k); }
    if k < j { SecondWakeIsNotEnabled(es, k, j); }
  }

  lemma SecondWakeIsNotEnabled(es: seq<Event>, j: nat, k: nat)
    requires Run(es).Some? && j < k < |es| && es[j].StartWake?
    ensures es[k] != es[j]
  {
    PrefixPossible(es, k);
    PrefixPossible(es, k + 1);
    assert es[..k][j] == es[j] && es[..k + 1][..k] == es[..k] && es[..k + 1][k] == es[k];
    WokenStaysWoken(es[..k], j);
  }

  lemma {:induction false} WokenWasWoken(es: seq<Event>, id: nat)
    requires Run(es).Some? && id in Run(es).value.procs && Run(es).value.procs[id].kind == PublicHandler
    requires WasWoken(Run(es).value.procs[id].pc)
    ensures WakeOk(id) in es
  {
    var init, e := es[..|es| - 1], es[|es| - 1];
    assert es == init + [e];
    if e != WakeOk(id) { WokenWasWoken(init, id); }
  }

  predicate WasWoken(pc: Pc) { (pc.WantDial? || pc.Dialing? || pc.DialFailed?) && pc.woken }

  /** A public handler gives up only after a wake that succeeded. */
  lemma GivesUpOnlyAfterWake(es: seq<Event>, id: nat)
    requires Run(es).Some? && id in Run(es).value.procs && Run(es).value.procs[id].kind == PublicHandler
    requires Enabled(Run(es).value, GiveUp(id))
    ensures WakeOk(id) in es
  {
    WokenWasWoken(es, id);
  }

  predicate Ends(e: Event) { e.ReadFailed? || e.AcquireCancelled? || e.Release? }

  /** A failed read, a cancelled wait for a slot and a release are the last thing a process does. */
  lemma {:induction false} EndsForGood(es: seq<Event>, k: nat)
    requires Run(es).Some? && k < |es| && Ends(es[k])
    ensures es[k].id in Run(es).value.procs && Run(es).value.procs[es[k].id].pc == Finished
    ensures forall j :: k < j < |es| ==> es[j].id != es[k].id
  {
    var init := es[..|es| - 1];
    if k < |init| {
      assert init[k] == es[k];
      EndsForGood(init, k);
      assert forall j :: k < j < |init| ==> init[j] == es[j];
    }
  }

  /** A local command holds its slot until the command ends, and then gives it back. */
  lemma CommandRuns(es: seq<Event>, s: State, id: nat) returns (more: seq<Event>, t: State)
    requires Run(es) == Some(s) && id !in s.procs && s.tokens < MAX_CONCURRENT
    ensures Run(more) == Some(t) && id in t.procs && t.procs[id].pc == Finished && !t.procs[id].slot
    ensures t.tokens == s.tokens && t.dialMu == s.dialMu && CommandEnded(id) in more
  {
    more, t := GetsSlot(es, s, id, LocalCommand);
    more, t := GoOn(more, t, CommandEnded(id));
    more, t := GoOn(more, t, Release(id));
  }
}

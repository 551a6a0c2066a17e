/**
  The public Docker socket's listener over its whole life: Start, UseProxy, Rebind (also from the
  reclaim ticker) and Stop, interleaved with accept loops that end on their own
  (backend/internal/daemon/docker_socket_proxy.go). Each listen makes a new generation of
  listener, stop channel and done channel; the constructor's channels are generation 0.
 */
module ProxyLifecycle {
  import opened Options

  datatype Op = UseProxy | Rebind | Stop

  /** What follows shutdownListener. */
  datatype Goal = Reopen | Quit

  /** The thread inside Start, or the one that holds switchMu. */
  datatype Pc =
    | NotStarted
    | Idle
    | Deciding(op: Op)
    | ReadFields(goal: Goal)
    | CloseStop(goal: Goal, gen: nat, had: bool)
    | CloseListener(goal: Goal, gen: nat, had: bool)
    | WaitDone(goal: Goal, gen: nat)
    | Listening
    | Bound
    | Spawning
    | RemovingPath

  /**
    `gen`, `listener` and `stopped` are the proxy's fields; `stopClosed`, `doneCloses`, `open` and
    `loops` the channels, listeners and accept loops.
   */
  datatype State = State(
    gen: nat, listener: bool, stopped: bool, pc: Pc,
    stopClosed: set<nat>, doneCloses: multiset<nat>, open: set<nat>, loops: set<nat>)

  const Init := State(0, false, false, NotStarted, {}, multiset{}, {}, {})

  /** `isSocket` and `isSymlink` are what the file system answers for the public path. */
  datatype Event =
    | StartDisabled
    | StartListening
    | Enter(op: Op)
    | Decide(isSymlink: bool, isSocket: bool)
    | TakeFields
    | StopChannel
    | ListenerClosed
    | DoneReceived
    | BindFailed
    | BindOk
    | ChmodFailed
    | Publish
    | SpawnLoop
    | PathRemoved
    | LoopExit(gen: nat)

  predicate Enabled(s: State, e: Event) {
    match e
    case StartDisabled => s.pc == NotStarted
    case StartListening => s.pc == NotStarted
    case Enter(_) => s.pc == Idle
    case Decide(_, _) => s.pc.Deciding?
    case TakeFields => s.pc.ReadFields?
    case StopChannel => s.pc.CloseStop?
    case ListenerClosed => s.pc.CloseListener?
    case DoneReceived => s.pc.WaitDone? && s.doneCloses[s.pc.gen] > 0
    case BindFailed => s.pc == Listening
    case BindOk => s.pc == Listening
    case ChmodFailed => s.pc == Bound
    case Publish => s.pc == Bound
    case SpawnLoop => s.pc == Spawning
    case PathRemoved => s.pc == RemovingPath
    case LoopExit(g) => g in s.loops
  }

  /** failDone: close the current done channel unless it is closed. */
  function FailDone(s: State): State {
    if s.doneCloses[s.gen] > 0 then s else s.(doneCloses := s.doneCloses + multiset{s.gen})
  }

  function Decision(s: State, op: Op, isSymlink: bool, isSocket: bool): State {
    if s.stopped then s.(pc := Idle)
    else
      var owns := s.listener && isSocket;
      match op
      case UseProxy => if owns then s.(pc := Idle) else s.(pc := ReadFields(Reopen))
      case Rebind => if !isSymlink && owns then s.(pc := Idle) else s.(pc := ReadFields(Reopen))
      case Stop => s.(stopped := true, pc := ReadFields(Quit))
  }

  function Apply(s: State, e: Event): State
    requires Enabled(s, e)
  {
    match e
    case StartDisabled => s.(stopped := true, doneCloses := s.doneCloses + multiset{s.gen}, pc := Idle)
    case StartListening => s.(pc := Listening)
    case Enter(op) => s.(pc := Deciding(op))
    case Decide(isSymlink, isSocket) => Decision(s, s.pc.op, isSymlink, isSocket)
    case TakeFields => s.(listener := false, pc := CloseStop(s.pc.goal, s.gen, s.listener))
    case StopChannel => s.(stopClosed := s.stopClosed + {s.pc.gen}, pc := CloseListener(s.pc.goal, s.pc.gen, s.pc.had))
    case ListenerClosed =>
      s.(open := if s.pc.had then s.open - {s.pc.gen} else s.open, pc := WaitDone(s.pc.goal, s.pc.gen))
    case DoneReceived => s.(pc := if s.pc.goal == Reopen then Listening else RemovingPath)
    case BindFailed => FailDone(s).(pc := Idle)
    case BindOk => s.(open := s.open + {s.gen + 1}, pc := Bound)
    case ChmodFailed => FailDone(s.(open := s.open - {s.gen + 1})).(pc := Idle)
    case Publish => s.(gen := s.gen + 1, listener := true, stopped := false, pc := Spawning)
    case SpawnLoop => s.(loops := s.loops + {s.gen}, pc := Idle)
    case PathRemoved => s.(pc := Idle)
    case LoopExit(g) => s.(loops := s.loops - {g}, doneCloses := s.doneCloses + multiset{g})
  }

  function Run(es: seq<Event>): Option<State> {
    if es == [] then Some(Init)
    else
      match Run(es[..|es| - 1])
      case None => None
      case Some(s) => if Enabled(s, es[|es| - 1]) then Some(Apply(s, es[|es| - 1])) else None
  }

  // ----- Invariant -----

  /** The current done channel has no accept loop to close it yet. */
  predicate Unserved(s: State) {
    s.pc == Spawning || s.pc == NotStarted || (s.gen == 0 && s.pc in {Listening, Bound})
  }

  ghost predicate Channels(s: State) {
    && (forall g: nat :: s.doneCloses[g] <= 1)
    && (forall g: nat :: 0 < g < s.gen ==> s.doneCloses[g] == 1)
    && (forall g: nat :: g > s.gen ==> s.doneCloses[g] == 0)
    && s.loops <= {s.gen} && (s.gen == 0 ==> s.loops == {})
    && (s.gen in s.loops ==> s.doneCloses[s.gen] == 0)
    && (s.gen in s.loops || s.doneCloses[s.gen] == 1 || Unserved(s))
    && (s.pc == NotStarted || s.pc == Spawning ==> s.doneCloses[s.gen] == 0 && s.loops == {})
  }

  ghost predicate Listeners(s: State) {
    && s.open <= {s.gen} + (if s.pc == Bound then {s.gen + 1} else {})
    && (s.listener ==> !s.pc.Listening? && !s.pc.Bound? && !s.pc.NotStarted? && s.gen > 0)
    && (s.gen in s.open ==> s.listener || (s.pc.CloseStop? && s.pc.had) || (s.pc.CloseListener? && s.pc.had))
  }

  /** Inside shutdownListener. */
  predicate ShuttingDown(pc: Pc) { pc.CloseStop? || pc.CloseListener? || pc.WaitDone? }

  ghost predicate Places(s: State) {
    && (s.pc == NotStarted ==> s.gen == 0 && !s.stopped)
    && (ShuttingDown(s.pc) ==> s.pc.gen == s.gen && !s.listener && (s.pc.goal == Reopen ==> !s.stopped))
    && (s.pc == Listening || s.pc == Bound ==> s.loops == {} && !s.stopped && (s.gen > 0 ==> s.doneCloses[s.gen] == 1))
    && (s.pc in {ReadFields(Reopen), Spawning} ==> !s.stopped)
    && (s.pc == Spawning ==> s.gen > 0)
    && (s.pc == RemovingPath ==> !s.listener && s.doneCloses[s.gen] == 1)
  }

  ghost predicate Inv(s: State) {
    Channels(s) && Listeners(s) && Places(s)
  }

  lemma StepKeepsChannels(s: State, e: Event)
    requires Inv(s) && Enabled(s, e)
    ensures Channels(Apply(s, e))
  {
    if e.LoopExit? {
      LoopExitKeepsChannels(s, e.gen);
    } else if e.BindFailed? || e.ChmodFailed? || e.StartDisabled? {
      ClosingKeepsChannels(s, e);
    } else {
      assert Apply(s, e).doneCloses == s.doneCloses;
    }
  }

  lemma LoopExitKeepsChannels(s: State, g: nat)
    requires Inv(s) && g in s.loops
    ensures Channels(Apply(s, LoopExit(g)))
  {
    assert g == s.gen;
  }

  lemma ClosingKeepsChannels(s: State, e: Event)
    requires Inv(s) && Enabled(s, e) && (e.BindFailed? || e.ChmodFailed? || e.StartDisabled?)
    ensures Channels(Apply(s, e))
  {
  }

  lemma StepKeepsListeners(s: State, e: Event)
    requires Inv(s) && Enabled(s, e)
    ensures Listeners(Apply(s, e))
  {
  }

  lemma StepKeepsPlaces(s: State, e: Event)
    requires Inv(s) && Enabled(s, e)
    ensures Places(Apply(s, e))
  {
  }

  lemma {:induction false} AlwaysInv(es: seq<Event>)
    requires Run(es).Some?
    ensures Inv(Run(es).value)
  {
    if es != [] {
      AlwaysInv(es[..|es| - 1]);
      var s, e := Run(es[..|es| - 1]).value, es[|es| - 1];
      StepKeepsChannels(s, e);
      StepKeepsListeners(s, e);
      StepKeepsPlaces(s, e);
    }
  }

  // ----- What every run keeps -----

  /** At most one accept loop is alive, and no channel is closed twice. */
  lemma OneLoopAndNoDoubleClose(es: seq<Event>)
    requires Run(es).Some?
    ensures var s := Run(es).value;
            && (forall a, b :: a in s.loops && b in s.loops ==> a == b)
            && (forall g: nat :: s.doneCloses[g] <= 1)
  {
    AlwaysInv(es);
  }

  /** The step closes the constructor's channel: a disabled Start, or a listen that fails before any other succeeded. */
  predicate ClosesFirst(s: State, e: Event) {
    e == StartDisabled || ((e == BindFailed || e == ChmodFailed) && s.gen == 0)
  }

  /** Some event of the run is such a step. */
  ghost predicate FirstClosed(es: seq<Event>)
    requires Run(es).Some?
  {
    es != [] && (FirstClosed(es[..|es| - 1]) || ClosesFirst(Run(es[..|es| - 1]).value, es[|es| - 1]))
  }

  /**
    Every done channel a listen made is closed exactly once, except the current one while its accept
    loop lives or is about to start. The constructor's channel, generation 0, is closed exactly when
    Start was disabled or failed before a listen succeeded; otherwise it is dropped unclosed.
   */
  lemma DoneClosedExactlyOnce(es: seq<Event>, g: nat)
    requires Run(es).Some? && g <= Run(es).value.gen
    ensures var s := Run(es).value;
      s.doneCloses[g] ==
        (if g == 0 then (if FirstClosed(es) then 1 else 0)
         else if g == s.gen && (g in s.loops || s.pc == Spawning) then 0 else 1)
  {
    AlwaysInv(es);
    FirstChannel(es);
  }

  lemma {:induction false} FirstChannel(es: seq<Event>)
    requires Run(es).Some?
    ensures Run(es).value.doneCloses[0] == if FirstClosed(es) then 1 else 0
  {
    if es != [] {
      var init, e := es[..|es| - 1], es[|es| - 1];
      FirstChannel(init);
      AlwaysInv(init);
      FirstChannelStep(Run(init).value, e);
    }
  }

  lemma FirstChannelStep(s: State, e: Event)
    requires Inv(s) && Enabled(s, e)
    ensures Apply(s, e).doneCloses[0] == if ClosesFirst(s, e) then 1 else s.doneCloses[0]
  {
  }

  /**
    shutdownListener never waits in vain: the channel it waits for is closed, or will be closed by
    a live accept loop whose listener is already closed.
   */
  lemma WaitIsAnswered(es: seq<Event>)
    requires Run(es).Some? && Run(es).value.pc.WaitDone?
    ensures var s := Run(es).value;
            || Enabled(s, DoneReceived)
            || (s.pc.gen in s.loops && s.pc.gen !in s.open && Enabled(Apply(s, LoopExit(s.pc.gen)), DoneReceived))
  {
    AlwaysInv(es);
  }

  /** An open listener is the proxy's own, or one being opened or closed. */
  lemma NoListenerLeaks(es: seq<Event>)
    requires Run(es).Some? && Run(es).value.pc == Idle
    ensures var s := Run(es).value; s.open <= (if s.listener then {s.gen} else {})
  {
    AlwaysInv(es);
  }

  lemma {:induction false} StoppedIsForGood(es: seq<Event>, more: seq<Event>)
    requires Run(es).Some? && Run(es).value.stopped && Run(es + more).Some?
    ensures Run(es + more).value.stopped
    decreases |more|
  {
    if more == [] {
      assert es + more == es;
    } else {
      var init := more[..|more| - 1];
      assert (es + more)[..|es + more| - 1] == es + init;
      StoppedIsForGood(es, init);
      AlwaysInv(es + init);
    }
  }

  /** Once a Stop has been called and decided, nothing binds the public path again, whatever is called. */
  lemma NothingBindsAfterStop(es: seq<Event>, isSymlink: bool, isSocket: bool, more: seq<Event>)
    requires Run(es).Some? && Run(es).value.pc == Idle
    requires Run(es + [Enter(Stop)] + [Decide(isSymlink, isSocket)] + more).Some?
    ensures var s := Run(es + [Enter(Stop)] + [Decide(isSymlink, isSocket)] + more).value;
      s.stopped && !Enabled(s, BindOk) && !Enabled(s, Publish) && s.pc != Spawning
  {
    var s := Run(es).value;
    var e1, s1 := GoOn(es, s, Enter(Stop));
    var e2, s2 := GoOn(e1, s1, Decide(isSymlink, isSocket));
    StoppedIsForGood(e2, more);
    AlwaysInv(e2 + more);
  }

  /** A proxy whose paths are missing or equal never binds anything. */
  lemma DisabledNeverBinds(more: seq<Event>)
    requires Run([StartDisabled] + more).Some?
    ensures var s := Run([StartDisabled] + more).value; s.stopped && !Enabled(s, BindOk) && !Enabled(s, Publish)
  {
    var e, s := GoOn([], Init, StartDisabled);
    assert e == [StartDisabled];
    StoppedIsForGood(e, more);
    AlwaysInv(e + more);
  }

  /** A Stop of a running proxy shuts the listener down, waits for its loop, and removes the path. */
  lemma StopRuns(es: seq<Event>, s: State, isSymlink: bool, isSocket: bool) returns (more: seq<Event>, t: State)
    requires Run(es) == Some(s) && s.pc == Idle && !s.stopped
    ensures es + [Enter(Stop)] + [Decide(isSymlink, isSocket)] <= more && Run(more) == Some(t)
    ensures t.pc == RemovingPath && t.stopped && t.gen in t.stopClosed
  {
    AlwaysInv(es);
    more, t := GoOn(es, s, Enter(Stop));
    more, t := GoOn(more, t, Decide(isSymlink, isSocket));
    more, t := GoOn(more, t, TakeFields);
    more, t := GoOn(more, t, StopChannel);
    more, t := GoOn(more, t, ListenerClosed);
    AlwaysInv(more);
    if t.gen in t.loops { more, t := GoOn(more, t, LoopExit(t.gen)); }
    more, t := GoOn(more, t, DoneReceived);
  }

  /** When a Stop removes the public path no listener is open and the accept loop has exited. */
  lemma StopClosesEverything(es: seq<Event>)
    requires Run(es).Some? && Run(es).value.pc == RemovingPath
    ensures Run(es).value.open == {} && Run(es).value.loops == {} && !Run(es).value.listener
  {
    AlwaysInv(es);
  }

  // ----- An accept loop that ended on its own -----

  /** The proxy believes it listens, but nobody accepts. */
  ghost predicate Dead(s: State) {
    s.listener && !s.stopped && s.loops == {} && (s.pc == Idle || (s.pc.Deciding? && s.pc.op != Stop))
  }

  /** The public path always looks like the proxy's own socket, and nobody calls Stop. */
  predicate LooksHealthy(e: Event) {
    (e.Decide? ==> !e.isSymlink && e.isSocket) && e != Enter(Stop)
  }

  /**
    No UseProxy, Rebind or reclaim tick repairs it as long as the path looks like a socket: the
    state lasts over every such continuation.
   */
  lemma {:induction false} DeadLoopIsNotRepaired(es: seq<Event>, more: seq<Event>)
    requires Run(es).Some? && Dead(Run(es).value) && Run(es + more).Some?
    requires forall k :: 0 <= k < |more| ==> LooksHealthy(more[k])
    ensures Dead(Run(es + more).value)
    decreases |more|
  {
    if more == [] {
      assert es + more == es;
    } else {
      assert (es + more)[..|es + more| - 1] == es + more[..|more| - 1];
      DeadLoopIsNotRepaired(es, more[..|more| - 1]);
    }
  }

  lemma RunOne(es: seq<Event>, e: Event)
    requires Run(es).Some? && Enabled(Run(es).value, e)
    ensures Run(es + [e]) == Some(Apply(Run(es).value, e))
  {
    assert (es + [e])[..|es|] == es;
  }

  /** A Rebind up to its decision. */
  function Rebound(es: seq<Event>, isSymlink: bool, isSocket: bool): seq<Event> {
    es + [Enter(Rebind)] + [Decide(isSymlink, isSocket)]
  }

  lemma GoOn(es: seq<Event>, s: State, e: Event) returns (more: seq<Event>, t: State)
    requires Run(es) == Some(s) && Enabled(s, e)
    ensures more == es + [e] && Run(more) == Some(t) && t == Apply(s, e)
  {
    RunOne(es, e);
    more, t := es + [e], Apply(s, e);
  }

  /** shutdownListener with a loop that has ended. */
  lemma ShutsDown(es: seq<Event>, s: State) returns (more: seq<Event>, t: State)
    requires Run(es) == Some(s) && s.pc == ReadFields(Reopen) && s.doneCloses[s.gen] == 1 && s.loops == {}
    ensures es <= more && Run(more) == Some(t) && t.pc == Listening && t.loops == {} && t.gen == s.gen
  {
    more, t := GoOn(es, s, TakeFields);
    more, t := GoOn(more, t, StopChannel);
    more, t := GoOn(more, t, ListenerClosed);
    more, t := GoOn(more, t, DoneReceived);
  }

  /** listen with every call succeeding. */
  lemma Listens(es: seq<Event>, s: State) returns (more: seq<Event>, t: State)
    requires Run(es) == Some(s) && s.pc == Listening && s.loops == {}
    ensures es <= more && Run(more) == Some(t) && t.pc == Idle && Live(t) && t.gen == s.gen + 1
  {
    more, t := GoOn(es, s, BindOk);
    more, t := GoOn(more, t, Publish);
    more, t := GoOn(more, t, SpawnLoop);
  }

  /** The current listener is open and its accept loop runs. */
  predicate Live(s: State) { s.listener && s.gen in s.open && s.gen in s.loops }

  /**
    Exactly when a Rebind does something about a dead loop: it gives up at once if the listener is
    still recorded and the path is a socket and no symlink. Otherwise it reopens, and the calls
    succeeding a new loop runs.
   */
  lemma RebindRepairsIff(es: seq<Event>, s: State, isSymlink: bool, isSocket: bool) returns (more: seq<Event>, t: State)
    requires Run(es) == Some(s) && s.pc == Idle && !s.stopped && s.loops == {}
    ensures Rebound(es, isSymlink, isSocket) <= more && Run(more) == Some(t) && t.pc == Idle
    ensures if s.listener && !isSymlink && isSocket then more == Rebound(es, isSymlink, isSocket) && t == s
            else Live(t) && t.gen == s.gen + 1
  {
    AlwaysInv(es);
    more, t := GoOn(es, s, Enter(Rebind));
    more, t := GoOn(more, t, Decide(isSymlink, isSocket));
    if !(s.listener && !isSymlink && isSocket) {
      more, t := ShutsDown(more, t);
      more, t := Listens(more, t);
    }
  }

  /** UseProxy differs from Rebind only in that it does not look for a symlink. */
  lemma UseProxyRepairsIff(es: seq<Event>, s: State, isSymlink: bool, isSocket: bool)
      returns (more: seq<Event>, t: State)
    requires Run(es) == Some(s) && s.pc == Idle && !s.stopped && s.loops == {}
    ensures es + [Enter(UseProxy)] + [Decide(isSymlink, isSocket)] <= more && Run(more) == Some(t) && t.pc == Idle
    ensures if s.listener && isSocket then more == es + [Enter(UseProxy)] + [Decide(isSymlink, isSocket)] && t == s
            else Live(t) && t.gen == s.gen + 1
  {
    AlwaysInv(es);
    more, t := GoOn(es, s, Enter(UseProxy));
    more, t := GoOn(more, t, Decide(isSymlink, isSocket));
    if !(s.listener && isSocket) {
      more, t := ShutsDown(more, t);
      more, t := Listens(more, t);
    }
  }

  /** A dead loop comes about: Start binds, and the accept loop ends by itself. */
  lemma DeadLoopIsReached() returns (es: seq<Event>)
    ensures Run(es).Some? && Dead(Run(es).value) && Run(es).value.pc == Idle
    ensures Run(es).value.doneCloses[0] == 0
  {
    var t;
    es, t := GoOn([], Init, StartListening);
    es, t := GoOn(es, t, BindOk);
    es, t := GoOn(es, t, Publish);
    es, t := GoOn(es, t, SpawnLoop);
    es, t := GoOn(es, t, LoopExit(1));
  }
}

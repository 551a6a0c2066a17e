/**
  Single-flight runtime start (backend/internal/daemon/runtime_ready.go): concurrent callers of
  EnsureRuntimeRunning share one start; each returns its result or leaves when its context ends.
 */
module RuntimeStart {
  import opened Options

  /** What startRuntimeUntilRunning returned: 0 for success, otherwise an error. */
  type Outcome = int

  datatype Caller =
    | Waiting(start: nat, arrived: nat)
    | Returned(start: nat, arrived: nat, result: Outcome)
    | Cancelled(start: nat, arrived: nat)

  /** A start whose done channel is closed, with its result and the moment it was closed. */
  datatype Finished = Finished(result: Outcome, at: nat)

  /** `clock` counts steps; `running` holds the starts whose goroutine has not finished. */
  datatype State = State(clock: nat, inflight: Option<nat>, next: nat, running: set<nat>, done: map<nat, Finished>,
      callers: map<nat, Caller>)

  const Init := State(0, None, 0, {}, map[], map[])

  datatype Event = Call(id: nat) | Finish(start: nat, result: Outcome) | Return(id: nat) | Cancel(id: nat)

  predicate Enabled(s: State, e: Event) {
    match e
    case Call(id) => id !in s.callers
    case Finish(start, _) => start in s.running
    case Return(id) => id in s.callers && s.callers[id].Waiting? && s.callers[id].start in s.done
    case Cancel(id) => id in s.callers && s.callers[id].Waiting?
  }

  function Apply(s: State, e: Event): State
    requires Enabled(s, e)
  {
    var s := s.(clock := s.clock + 1);
    match e
    case Call(id) =>
      if s.inflight.Some? then s.(callers := s.callers[id := Waiting(s.inflight.value, s.clock)])
      else s.(inflight := Some(s.next), next := s.next + 1, running := s.running + {s.next},
              callers := s.callers[id := Waiting(s.next, s.clock)])
    case Finish(start, result) =>
      s.(done := s.done[start := Finished(result, s.clock)], inflight := None, running := s.running - {start})
    case Return(id) =>
      var c := s.callers[id];
      s.(callers := s.callers[id := Returned(c.start, c.arrived, s.done[c.start].result)])
    case Cancel(id) =>
      s.(callers := s.callers[id := Cancelled(s.callers[id].start, s.callers[id].arrived)])
  }

  function Run(es: seq<Event>): Option<State> {
    if es == [] then Some(Init)
    else
      match Run(es[..|es| - 1])
      case None => None
      case Some(s) => if Enabled(s, es[|es| - 1]) then Some(Apply(s, es[|es| - 1])) else None
  }

  ghost predicate StartsInv(s: State) {
    && s.running == (if s.inflight.Some? then {s.inflight.value} else {})
    && (s.inflight.Some? ==> s.inflight.value < s.next && s.inflight.value !in s.done)
    && (forall f :: f in s.done ==> f < s.next && s.done[f].at <= s.clock)
  }

  ghost predicate CallerInv(s: State, c: Caller) {
    && c.arrived <= s.clock
    && (c.start in s.done || s.inflight == Some(c.start))
    && (c.start in s.done ==> c.arrived < s.done[c.start].at)
    && (c.Returned? ==> c.start in s.done && c.result == s.done[c.start].result)
  }

  ghost predicate Inv(s: State) {
    StartsInv(s) && forall id :: id in s.callers ==> CallerInv(s, s.callers[id])
  }

  lemma StepKeepsInv(s: State, e: Event)
    requires Inv(s) && Enabled(s, e)
    ensures Inv(Apply(s, e))
  {
    var s' := Apply(s, e);
    assert StartsInv(s');
    forall id | id in s'.callers ensures CallerInv(s', s'.callers[id]) {
      if id in s.callers { assert CallerInv(s, s.callers[id]); }
    }
  }

  lemma {:induction false} AlwaysInv(es: seq<Event>)
    requires Run(es).Some?
    ensures Inv(Run(es).value)
  {
    if es != [] {
      AlwaysInv(es[..|es| - 1]);
      StepKeepsInv(Run(es[..|es| - 1]).value, es[|es| - 1]);
    }
  }

  /** RuntimeStarting: a start is in flight. */
  predicate RuntimeStarting(s: State) { s.inflight.Some? }

  /** At most one start runs at a time, and RuntimeStarting reports exactly that. */
  lemma {:induction false} OneStartAtATime(es: seq<Event>)
    requires Run(es).Some?
    ensures var s := Run(es).value;
            (forall a, b :: a in s.running && b in s.running ==> a == b) && (RuntimeStarting(s) <==> s.running != {})
  {
    AlwaysInv(es);
  }

  /**
    Callers that joined the same start and were not cancelled return the same result, and that
    start finished after each of them arrived.
   */
  lemma JoinedCallersAgree(es: seq<Event>, a: nat, b: nat)
    requires Run(es).Some? && a in Run(es).value.callers && b in Run(es).value.callers
    requires Run(es).value.callers[a].Returned? && Run(es).value.callers[b].Returned?
    requires Run(es).value.callers[a].start == Run(es).value.callers[b].start
    ensures var s := Run(es).value;
            var start := s.callers[a].start;
            && start in s.done && s.callers[a].result == s.callers[b].result == s.done[start].result
            && s.callers[a].arrived < s.done[start].at && s.callers[b].arrived < s.done[start].at
  {
    AlwaysInv(es);
    assert CallerInv(Run(es).value, Run(es).value.callers[a]);
    assert CallerInv(Run(es).value, Run(es).value.callers[b]);
  }

  /** A waiting caller can return, or its start is still running. */
  lemma WaiterIsServed(es: seq<Event>, id: nat)
    requires Run(es).Some? && id in Run(es).value.callers && Run(es).value.callers[id].Waiting?
    ensures var s := Run(es).value; Enabled(s, Return(id)) || s.callers[id].start in s.running
  {
    AlwaysInv(es);
    assert CallerInv(Run(es).value, Run(es).value.callers[id]);
  }

  // ----- What callers get is what the start ended with -----

  lemma {:induction false} ClockCounts(es: seq<Event>)
    requires Run(es).Some?
    ensures Run(es).value.clock == |es|
  {
    if es != [] { ClockCounts(es[..|es| - 1]); }
  }

  /** A start that is not done has not been finished by any event. */
  lemma {:induction false} NotFinishedYet(es: seq<Event>, start: nat)
    requires Run(es).Some? && start !in Run(es).value.done
    ensures forall k :: 0 <= k < |es| && es[k].Finish? ==> es[k].start != start
  {
    if es != [] {
      var init := es[..|es| - 1];
      NotFinishedYet(init, start);
      assert forall k :: 0 <= k < |init| ==> es[k] == init[k];
    }
  }

  /** A done start was finished by exactly one event, which carries its result. */
  lemma {:induction false} FinishedBy(es: seq<Event>, start: nat) returns (k: nat)
    requires Run(es).Some? && start in Run(es).value.done
    ensures k < |es| && es[k] == Finish(start, Run(es).value.done[start].result)
    ensures Run(es).value.done[start].at == k + 1
    ensures forall j :: 0 <= j < |es| && es[j].Finish? && es[j].start == start ==> j == k
  {
    var init, e := es[..|es| - 1], es[|es| - 1];
    assert es == init + [e];
    AlwaysInv(init);
    if e.Finish? && e.start == start {
      ClockCounts(init);
      NotFinishedYet(init, start);
      k := |init|;
      assert forall j :: 0 <= j < |init| ==> es[j] == init[j];
    } else {
      k := FinishedBy(init, start);
      assert forall j :: 0 <= j < |init| ==> es[j] == init[j];
    }
  }

  lemma {:induction false} CalledBy(es: seq<Event>, id: nat) returns (k: nat)
    requires Run(es).Some? && id in Run(es).value.callers
    ensures k < |es| && es[k] == Call(id) && Run(es).value.callers[id].arrived == k + 1
  {
    var init, e := es[..|es| - 1], es[|es| - 1];
    assert es == init + [e];
    if e == Call(id) {
      ClockCounts(init);
      k := |init|;
    } else {
      k := CalledBy(init, id);
    }
  }

  /**
    Every caller that returns gets the result of the one event that ended its start, and that event
    came after the call.
   */
  lemma ResultIsTheStarts(es: seq<Event>, id: nat) returns (called: nat, finished: nat)
    requires Run(es).Some? && id in Run(es).value.callers && Run(es).value.callers[id].Returned?
    ensures var c := Run(es).value.callers[id];
      && called < finished < |es| && es[called] == Call(id) && es[finished] == Finish(c.start, c.result)
      && forall j :: 0 <= j < |es| && es[j].Finish? && es[j].start == c.start ==> j == finished
  {
    AlwaysInv(es);
    var c := Run(es).value.callers[id];
    assert CallerInv(Run(es).value, c);
    called := CalledBy(es, id);
    finished := FinishedBy(es, c.start);
  }
}

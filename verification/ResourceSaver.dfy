/**
  Resource Saver: the idle detector that stops the engine after a quiet period
  (backend/internal/daemon/resource_saver.go, EnterResourceSaver of
  backend/internal/daemon/resource_snapshot.go). The detector's tick releases its lock before it
  enters Resource Saver, so deciding, marking active and the end of the stop are separate events.
 */
module ResourceSaver {
  import opened Options

  type Time = int

  const SECOND := 1_000_000_000
  const TIMEOUT_MIN_SEC := 30

  /** What a tick's checks found, in the order they are made. */
  datatype Probe = FeatureOff | StatusFailed | NotRunning | ListFailed | ContainerRunning | Quiet

  datatype Detector = Detector(active: bool, idleAt: Option<Time>)

  function EffectiveTimeout(timeoutSec: int): int {
    if timeoutSec < TIMEOUT_MIN_SEC then TIMEOUT_MIN_SEC else timeoutSec
  }

  /** The tick decides to stop the engine. */
  predicate Decides(d: Detector, probe: Probe, timeoutSec: int, now: Time) {
    probe == Quiet && d.idleAt.Some? && !d.active && now - d.idleAt.value >= EffectiveTimeout(timeoutSec) * SECOND
  }

  function AfterTick(d: Detector, probe: Probe, now: Time): Detector {
    match probe
    case FeatureOff => d.(idleAt := None)
    case StatusFailed => d
    case NotRunning => d.(idleAt := None)
    case ListFailed => d
    case ContainerRunning => Detector(false, None)
    case Quiet => if d.idleAt.None? then d.(idleAt := Some(now)) else d
  }

  class Saver {
    var active: bool
    var idleAt: Option<Time>

    constructor ()
      ensures Value() == Detector(false, None)
    {
      active, idleAt := false, None;
    }

    function Value(): Detector
      reads this
    {
      Detector(active, idleAt)
    }

    method Clear()
      modifies this
      ensures Value() == Detector(false, None)
    {
      active := false;
      idleAt := None;
    }

    method MarkActive()
      modifies this
      ensures Value() == Detector(true, None)
    {
      active := true;
      idleAt := None;
    }

    /** The part of tick up to its decision; the caller then enters Resource Saver. */
    method Tick(enabled: bool, timeoutSec: int, statusOk: bool, running: bool, listOk: bool, anyRunning: bool,
        now: Time)
      returns (enter: bool)
      modifies this
      ensures var probe := ProbeOf(enabled, statusOk, running, listOk, anyRunning);
              && Value() == AfterTick(old(Value()), probe, now)
              && enter == Decides(old(Value()), probe, timeoutSec, now)
    {
      enter := false;
      if !enabled {
        idleAt := None;
        return;
      }
      var timeout := timeoutSec;
      if timeout < TIMEOUT_MIN_SEC {
        timeout := TIMEOUT_MIN_SEC;
      }
      if !statusOk {
        return;
      }
      if !running {
        idleAt := None;
        return;
      }
      if !listOk {
        return;
      }
      if anyRunning {
        idleAt := None;
        active := false;
        return;
      }
      if idleAt.None? {
        idleAt := Some(now);
        return;
      }
      var idleFor := now - idleAt.value;
      var alreadyActive := active;
      if alreadyActive || idleFor < timeout * SECOND {
        return;
      }
      enter := true;
    }
  }

  function ProbeOf(enabled: bool, statusOk: bool, running: bool, listOk: bool, anyRunning: bool): Probe {
    if !enabled then FeatureOff
    else if !statusOk then StatusFailed
    else if !running then NotRunning
    else if !listOk then ListFailed
    else if anyRunning then ContainerRunning
    else Quiet
  }

  // ----- Histories -----

  /** Where the detector's own loop stands. */
  datatype Phase = Watching | Decided | Stopping

  datatype State = State(detector: Detector, phase: Phase)

  const Init := State(Detector(false, None), Watching)

  /** `Cleared` is a Clear from outside: a wake, a manual start or a manual stop. */
  datatype Event =
    | Ticked(probe: Probe, timeoutSec: int, now: Time)
    | MarkedActive
    | StopEnded(ok: bool)
    | Cleared

  predicate Enabled(s: State, e: Event) {
    match e
    case Ticked(_, _, _) => s.phase == Watching
    case MarkedActive => s.phase == Decided
    case StopEnded(_) => s.phase == Stopping
    case Cleared => true
  }

  function Apply(s: State, e: Event): State
    requires Enabled(s, e)
  {
    match e
    case Ticked(probe, timeoutSec, now) =>
      var phase := if Decides(s.detector, probe, timeoutSec, now) then Decided else Watching;
      State(AfterTick(s.detector, probe, now), phase)
    case MarkedActive => State(Detector(true, None), Stopping)
    case StopEnded(ok) => State(if ok then s.detector else Detector(false, None), Watching)
    case Cleared => s.(detector := Detector(false, None))
  }

  function Run(es: seq<Event>): Option<State> {
    if es == [] then Some(Init)
    else
      match Run(es[..|es| - 1])
      case None => None
      case Some(s) => if Enabled(s, es[|es| - 1]) then Some(Apply(s, es[|es| - 1])) else None
  }

  /** A tick that kept the idle period going: it completed and saw quiet, or a probe failed. */
  predicate KeepsIdle(e: Event) {
    e.Ticked? && (e.probe == Quiet || e.probe == StatusFailed || e.probe == ListFailed)
  }

  /** From event `j`, a quiet tick at `since`, to the end every event keeps the idle period. */
  ghost predicate IdleSince(es: seq<Event>, j: nat, since: Time) {
    && j < |es| && es[j].Ticked? && es[j].probe == Quiet && es[j].now == since
    && forall i :: j <= i < |es| ==> KeepsIdle(es[i])
  }

  lemma {:induction false} IdleHasBegun(es: seq<Event>) returns (j: nat)
    requires Run(es).Some? && Run(es).value.detector.idleAt.Some? && Run(es).value.phase == Watching
    ensures IdleSince(es, j, Run(es).value.detector.idleAt.value)
  {
    var init, e := es[..|es| - 1], es[|es| - 1];
    var s := Run(init).value;
    assert es == init + [e];
    if s.phase == Stopping { StoppingHasNoIdle(init); }
    if s.detector.idleAt.Some? && s.phase == Watching {
      j := IdleHasBegun(init);
      assert forall i :: j <= i < |init| ==> es[i] == init[i];
    } else {
      j := |init|;
    }
  }

  /** While a stop runs no idle period is counted. */
  lemma {:induction false} StoppingHasNoIdle(es: seq<Event>)
    requires Run(es).Some? && Run(es).value.phase == Stopping
    ensures Run(es).value.detector.idleAt == None
  {
    var init := es[..|es| - 1];
    if Run(init).value.phase == Stopping {
      StoppingHasNoIdle(init);
    }
  }

  /**
    Every decision to stop the engine ends an unbroken idle period: it began with a quiet tick at
    least max(30, timeout) seconds earlier, and since then there was no Clear, no earlier stop,
    successful or failed, and no tick that saw the feature off, the runtime down or a container.
   */
  lemma StopNeedsFullIdlePeriod(es: seq<Event>, k: nat) returns (j: nat)
    requires Run(es).Some? && k < |es| && es[k].Ticked?
    requires Run(es[..k + 1]).Some? && Run(es[..k + 1]).value.phase == Decided
    ensures j < k && es[j].Ticked? && es[j].probe == Quiet && es[k].probe == Quiet
    ensures es[k].now - es[j].now >= 30 * SECOND && es[k].now - es[j].now >= es[k].timeoutSec * SECOND
    ensures forall i :: j <= i <= k ==> KeepsIdle(es[i])
  {
    var before := es[..k];
    assert es[..k + 1][..k] == before;
    j := IdleHasBegun(before);
    forall i | j <= i <= k ensures KeepsIdle(es[i]) {
      assert i < k ==> es[i] == before[i];
    }
  }

  /** A stop attempt is always the carrying out of such a decision. */
  lemma {:induction false} StopFollowsDecision(es: seq<Event>) returns (k: nat)
    requires Run(es).Some? && Run(es).value.phase == Decided
    ensures k < |es| && es[k].Ticked? && Run(es[..k + 1]).Some? && Run(es[..k + 1]).value.phase == Decided
    ensures forall i :: k < i < |es| ==> es[i] == Cleared
  {
    var init, e := es[..|es| - 1], es[|es| - 1];
    if e.Ticked? {
      k := |init|;
      assert es[..k + 1] == es;
    } else {
      k := StopFollowsDecision(init);
      assert es[..k + 1] == init[..k + 1];
    }
  }

  /** After a failed stop the idle period starts from nothing. */
  lemma FailedStopStartsOver(es: seq<Event>)
    requires Run(es).Some? && Run(es).value.phase == Stopping
    ensures Run(es + [StopEnded(false)]) == Some(Init)
  {
    assert (es + [StopEnded(false)])[..|es + [StopEnded(false)]| - 1] == es;
  }

  /**
    Exactly when a stop about to be carried out ends an unbroken idle period: its decision at `k`
    ends one that began at `j`, and nothing broke it since unless the last event is a Clear.
   */
  lemma StopEndsIdlePeriodIff(es: seq<Event>) returns (j: nat, k: nat)
    requires Run(es).Some? && Run(es).value.phase == Decided
    ensures j < k < |es| && es[j].Ticked? && es[k].Ticked? && es[j].probe == Quiet && es[k].probe == Quiet
    ensures es[k].now - es[j].now >= 30 * SECOND && es[k].now - es[j].now >= es[k].timeoutSec * SECOND
    ensures (forall i :: j <= i < |es| ==> KeepsIdle(es[i])) <==> es[|es| - 1] != Cleared
  {
    k := StopFollowsDecision(es);
    j := StopNeedsFullIdlePeriod(es, k);
    assert k < |es| - 1 ==> es[|es| - 1] == Cleared;
  }

  /**
    A Clear that falls between a decision and its stop is lost: the engine is stopped all the same
    and Resource Saver marked active.
   */
  lemma ClearCanLoseTheRace(es: seq<Event>)
    requires Run(es).Some? && Run(es).value.phase == Decided
    ensures Run(es + [Cleared] + [MarkedActive]) == Some(State(Detector(true, None), Stopping))
  {
    var e1 := es + [Cleared];
    assert e1[..|e1| - 1] == es;
    var e2 := e1 + [MarkedActive];
    assert e2[..|e2| - 1] == e1;
  }

  /** A decision is reached: two quiet ticks thirty seconds apart. */
  lemma DecisionIsReached() returns (es: seq<Event>)
    ensures Run(es).Some? && Run(es).value.phase == Decided
  {
    var first, second := Ticked(Quiet, 30, 0), Ticked(Quiet, 30, 30 * SECOND);
    assert [first][..0] == [];
    assert [first, second][..1] == [first];
    assert Run([first]) == Some(State(Detector(false, Some(0)), Watching));
    es := [first, second];
  }

  /**
    After a successful stop Resource Saver is active exactly when no Clear fell into the stop; after
    such a Clear the engine is stopped all the same, with Resource Saver inactive.
   */
  lemma ActiveAfterStopIff(es: seq<Event>)
    requires Run(es).Some? && Run(es).value.phase == Stopping
    ensures es != [] && (es[|es| - 1] == MarkedActive || es[|es| - 1] == Cleared)
    ensures Run(es + [StopEnded(true)]) == Some(State(Detector(es[|es| - 1] != Cleared, None), Watching))
  {
    StoppingHasNoIdle(es);
    assert (es + [StopEnded(true)])[..|es|] == es;
  }

  // ----- Exactly when a tick decides -----

  /** Event `j` is the quiet tick that began the idle period lasting to the end. */
  ghost predicate IdleBegins(es: seq<Event>, j: nat) {
    && j < |es| && es[j].Ticked? && es[j].probe == Quiet
    && (forall i :: j <= i < |es| ==> KeepsIdle(es[i]))
    && (forall i :: 0 <= i < j && es[i].Ticked? && es[i].probe == Quiet ==> BrokenBetween(es, i, j))
  }

  ghost predicate BrokenBetween(es: seq<Event>, i: nat, j: nat)
    requires j <= |es|
  {
    exists b :: i < b < j && !KeepsIdle(es[b])
  }

  lemma IdleBeginsPrefix(es: seq<Event>, j: nat)
    requires es != [] && j < |es| - 1
    ensures IdleBegins(es, j) <==> IdleBegins(es[..|es| - 1], j) && KeepsIdle(es[|es| - 1])
  {
    var init := es[..|es| - 1];
    assert forall i :: 0 <= i < |init| ==> init[i] == es[i];
    forall i: nat | i < j ensures BrokenBetween(es, i, j) <==> BrokenBetween(init, i, j) {
      if b :| i < b < j && !KeepsIdle(es[b]) { assert !KeepsIdle(init[b]); }
      if b :| i < b < j && !KeepsIdle(init[b]) { assert !KeepsIdle(es[b]); }
    }
  }

  lemma {:induction false} IdleBegan(es: seq<Event>) returns (j: nat)
    requires Run(es).Some? && Run(es).value.detector.idleAt.Some?
    ensures IdleBegins(es, j) && es[j].now == Run(es).value.detector.idleAt.value
  {
    var init, e := es[..|es| - 1], es[|es| - 1];
    var s := Run(init).value;
    if s.phase == Stopping { StoppingHasNoIdle(init); }
    if s.detector.idleAt.Some? {
      j := IdleBegan(init);
      IdleBeginsPrefix(es, j);
    } else {
      j := |init|;
      forall i: nat | i < j && es[i].Ticked? && es[i].probe == Quiet ensures BrokenBetween(es, i, j) {
        NoIdleMeansBroken(init, i);
        var b :| i < b < |init| && !KeepsIdle(init[b]);
        assert !KeepsIdle(es[b]);
      }
    }
  }

  /** Without an idle period every quiet tick was followed by an event that ends one. */
  lemma {:induction false} NoIdleMeansBroken(es: seq<Event>, i: nat)
    requires Run(es).Some? && Run(es).value.detector.idleAt.None?
    requires i < |es| && es[i].Ticked? && es[i].probe == Quiet
    ensures BrokenBetween(es, i, |es|)
  {
    var init, e := es[..|es| - 1], es[|es| - 1];
    if KeepsIdle(e) {
      NoIdleMeansBroken(init, i);
      var b :| i < b < |init| && !KeepsIdle(init[b]);
      assert !KeepsIdle(es[b]);
    } else {
      assert !KeepsIdle(es[|es| - 1]);
    }
  }

  lemma {:induction false} IdleBeginIsRecorded(es: seq<Event>, j: nat)
    requires Run(es).Some? && IdleBegins(es, j)
    ensures Run(es).value.detector.idleAt == Some(es[j].now)
  {
    var init, e := es[..|es| - 1], es[|es| - 1];
    if j < |init| {
      IdleBeginsPrefix(es, j);
      IdleBeginIsRecorded(init, j);
    } else if Run(init).value.detector.idleAt.Some? {
      IdleGoesOn(es);
    }
  }

  /** An event during an idle period does not begin another. */
  lemma IdleGoesOn(es: seq<Event>)
    requires es != [] && Run(es).Some? && Run(es[..|es| - 1]).value.detector.idleAt.Some?
    ensures !IdleBegins(es, |es| - 1)
  {
    var init := es[..|es| - 1];
    var i := IdleBegan(init);
    assert es[i] == init[i] && forall b :: i < b < |init| ==> es[b] == init[b];
    assert !BrokenBetween(es, i, |init|);
  }

  /** Event `m` made Resource Saver active and nothing since ended that. */
  ghost predicate ActiveSince(es: seq<Event>, m: nat) {
    m < |es| && es[m] == MarkedActive && forall i :: m < i < |es| ==> !EndsActive(es[i])
  }

  predicate EndsActive(e: Event) {
    e == Cleared || e == StopEnded(false) || (e.Ticked? && e.probe == ContainerRunning)
  }

  /** Active exactly since a stop was entered and no Clear, failed stop or running container came after. */
  lemma {:induction false} ActiveIff(es: seq<Event>)
    requires Run(es).Some?
    ensures Run(es).value.detector.active <==> exists m: nat :: ActiveSince(es, m)
  {
    if es != [] {
      var init, e := es[..|es| - 1], es[|es| - 1];
      assert es == init + [e];
      ActiveIff(init);
      if m: nat :| ActiveSince(init, m) {
        if !EndsActive(e) { assert ActiveSince(es, m); }
      }
      if e == MarkedActive { assert ActiveSince(es, |init|); }
      if m: nat :| ActiveSince(es, m) {
        if m < |init| {
          assert init[m] == es[m] && forall i :: m < i < |init| ==> init[i] == es[i];
          assert ActiveSince(init, m);
        }
      }
    }
  }

  /**
    Exactly when a tick decides to stop the engine, read from the history alone: it is quiet,
    Resource Saver is not active, and the idle period began at least thirty seconds and at least
    the configured timeout ago.
   */
  lemma DecidesIff(es: seq<Event>, probe: Probe, timeoutSec: int, now: Time)
    requires Run(es).Some? && Run(es).value.phase == Watching
    ensures Run(es + [Ticked(probe, timeoutSec, now)]).Some?
    ensures Run(es + [Ticked(probe, timeoutSec, now)]).value.phase == Decided <==>
      && probe == Quiet && (forall m: nat :: !ActiveSince(es, m))
      && exists j: nat :: IdleBegins(es, j) && now - es[j].now >= 30 * SECOND && now - es[j].now >= timeoutSec * SECOND
  {
    var e := Ticked(probe, timeoutSec, now);
    assert (es + [e])[..|es|] == es;
    var d := Run(es).value.detector;
    ActiveIff(es);
    forall j: nat | IdleBegins(es, j) ensures d.idleAt == Some(es[j].now) { IdleBeginIsRecorded(es, j); }
    if d.idleAt.Some? {
      var j := IdleBegan(es);
      assert IdleBegins(es, j);
    }
  }
}

/**
  The export scheduler's tick loop over one stored schedule
  (backend/internal/daemon/export_scheduler.go): which ticks run an export, and what a whole run
  of ticks does with the weekly slots. The clock, the runtime, the export and the disk are inputs.
 */
module ExportScheduler {
  import opened Options
  import opened Schedule

  datatype LastStatus = NeverRun | Completed | Failed

  /** The schedule file entry the tick reads and saves. */
  datatype Stored = Stored(schedule: Schedule, nextRunAt: Option<Time>, lastRunAt: Option<Time>, lastStatus: LastStatus)

  /**
    One tick at `now`, with what its run meets: the runtime's state, the export's outcome, the time
    the run ends and whether the save succeeds.
   */
  datatype Tick = Tick(now: Time, running: bool, exportOk: bool, done: Time, saved: bool)

  function Truncate(t: Time): Time { t - t % MINUTE }

  predicate ScheduleDue(next: Option<Time>, now: Time) {
    next.Some? && Truncate(now) >= Truncate(next.value) && StillRunnable(next.value, now)
  }

  /** The tick runs the stored slot. */
  predicate Runs(s: Stored, t: Tick) {
    s.schedule.enabled && ScheduleDue(s.nextRunAt, t.now)
  }

  ghost function Slots(s: Stored): seq<DayTimes> { Normalized(s.schedule.dayTimes) }

  /** What one tick leaves on disk. */
  ghost predicate Step(s: Stored, t: Tick, after: Stored) {
    if !Runs(s, t) || !t.saved then after == s
    else
      && after.lastRunAt == Some(t.now)
      && after.lastStatus == (if t.running && t.exportOk && Valid(s.schedule) then Completed else Failed)
      && if Valid(s.schedule) then
           after.schedule == s.schedule && after.nextRunAt.Some? &&
               IsNext(Slots(s), t.done, true, after.nextRunAt.value)
         else
           after.schedule == s.schedule.(enabled := !t.running) && after.nextRunAt == s.nextRunAt
  }

  method RunSchedule(stored: Stored, t: Tick) returns (after: Stored)
    requires stored.schedule.enabled && ScheduleDue(stored.nextRunAt, t.now)
    ensures Step(stored, t, after)
  {
    var schedule := stored;
    if !t.running {
      schedule := schedule.(lastStatus := Failed, lastRunAt := Some(t.now));
      var nextRun := ComputeNextRun(schedule.schedule, t.done, true);
      if nextRun.At? {
        schedule := schedule.(nextRunAt := Some(nextRun.t));
      }
    } else {
      schedule := schedule.(lastRunAt := Some(t.now), lastStatus := if t.exportOk then Completed else Failed);
      var nextRun := ComputeNextRun(schedule.schedule, t.done, true);
      if !nextRun.At? {
        schedule := schedule.(schedule := schedule.schedule.(enabled := false), lastStatus := Failed);
      } else {
        schedule := schedule.(nextRunAt := Some(nextRun.t));
      }
    }
    after := if t.saved then schedule else stored;
  }

  method TickOnce(stored: Stored, t: Tick) returns (after: Stored)
    ensures Step(stored, t, after)
  {
    if !stored.schedule.enabled {
      return stored;
    }
    if !ScheduleDue(stored.nextRunAt, t.now) {
      return stored;
    }
    after := RunSchedule(stored, t);
  }

  // ----- Runs of ticks -----

  /** States before each tick and after the last, with time moving forward. */
  ghost predicate IsRun(states: seq<Stored>, ticks: seq<Tick>) {
    && |states| == |ticks| + 1
    && (forall i :: 0 <= i < |ticks| ==> Step(states[i], ticks[i], states[i + 1]))
    && (forall i :: 0 <= i < |ticks| ==> ticks[i].now <= ticks[i].done)
    && (forall i, j :: 0 <= i < j < |ticks| ==> ticks[i].done <= ticks[j].now)
  }

  /** Every run's result reached the disk. */
  ghost predicate AllSaved(ticks: seq<Tick>) {
    forall i :: 0 <= i < |ticks| ==> ticks[i].saved
  }

  function SlotRun(s: Stored): Time
    requires s.nextRunAt.Some?
  {
    s.nextRunAt.value
  }

  lemma StepAdvances(s: Stored, t: Tick, after: Stored)
    requires Step(s, t, after) && t.saved && t.now <= t.done && Valid(s.schedule) && Runs(s, t)
    ensures after.schedule == s.schedule && after.nextRunAt.Some?
    ensures SlotRun(after) > SlotRun(s) && SlotRun(after) > t.done && SlotRun(after) % MINUTE == 0
  {
    PastItsMinute(SlotRun(s), t.now, SlotRun(after));
  }

  lemma PastItsMinute(slot: Time, now: Time, next: Time)
    requires Truncate(now) >= Truncate(slot) && next > now && next % MINUTE == 0
    ensures next > slot
  {
  }

  /** Some run in the ticks from `i` up to `j` had its result saved. */
  ghost predicate SavedBetween(states: seq<Stored>, ticks: seq<Tick>, i: nat, j: nat)
    requires |states| == |ticks| + 1 && i <= j <= |ticks|
  {
    exists k :: i <= k < j && Runs(states[k], ticks[k]) && ticks[k].saved
  }

  /**
    Whatever is stored and whatever is saved, the stored slot never moves back, and it moves on
    exactly when the schedule is valid and a run in between was saved.
   */
  lemma {:induction false} NextNeverMovesBack(states: seq<Stored>, ticks: seq<Tick>, i: nat, j: nat)
    requires IsRun(states, ticks) && i <= j < |states| && states[i].nextRunAt.Some?
    ensures states[j].nextRunAt.Some? && SlotRun(states[i]) <= SlotRun(states[j])
    ensures SlotRun(states[i]) < SlotRun(states[j]) <==> Valid(states[i].schedule) && SavedBetween(states, ticks, i, j)
    ensures Valid(states[i].schedule) ==> states[j].schedule == states[i].schedule
    ensures Valid(states[j].schedule) == Valid(states[i].schedule)
    decreases j
  {
    if i < j {
      NextNeverMovesBack(states, ticks, i, j - 1);
      assert Step(states[j - 1], ticks[j - 1], states[j]);
      StepMoves(states[j - 1], ticks[j - 1], states[j]);
      SavedLast(states, ticks, i, j);
    }
  }

  lemma StepMoves(s: Stored, t: Tick, after: Stored)
    requires Step(s, t, after) && t.now <= t.done && s.nextRunAt.Some?
    ensures after.nextRunAt.Some? && SlotRun(s) <= SlotRun(after)
    ensures SlotRun(s) < SlotRun(after) <==> Valid(s.schedule) && Runs(s, t) && t.saved
    ensures Valid(s.schedule) ==> after.schedule == s.schedule
    ensures Valid(after.schedule) == Valid(s.schedule)
  {
    if Valid(s.schedule) && Runs(s, t) && t.saved { StepAdvances(s, t, after); }
  }

  lemma SavedLast(states: seq<Stored>, ticks: seq<Tick>, i: nat, j: nat)
    requires |states| == |ticks| + 1 && i < j <= |ticks|
    ensures SavedBetween(states, ticks, i, j) <==>
      SavedBetween(states, ticks, i, j - 1) || (Runs(states[j - 1], ticks[j - 1]) && ticks[j - 1].saved)
  {
  }

  /**
    Two ticks run the same slot exactly when the schedule is invalid, or no run from the first up
    to the second was saved; otherwise the second slot is later.
   */
  lemma SlotRepeatsIff(states: seq<Stored>, ticks: seq<Tick>, i: nat, j: nat)
    requires IsRun(states, ticks) && i < j < |ticks|
    requires Runs(states[i], ticks[i]) && Runs(states[j], ticks[j])
    ensures SlotRun(states[i]) <= SlotRun(states[j])
    ensures SlotRun(states[i]) == SlotRun(states[j]) <==>
      !Valid(states[i].schedule) || forall k :: i <= k < j && Runs(states[k], ticks[k]) ==> !ticks[k].saved
  {
    NextNeverMovesBack(states, ticks, i, j);
  }

  /** However long runs take, a slot whose run was saved never runs again exactly when the schedule is valid. */
  lemma NoSlotRunsTwice(states: seq<Stored>, ticks: seq<Tick>, i: nat, j: nat)
    requires IsRun(states, ticks) && i < j < |ticks|
    requires Runs(states[i], ticks[i]) && Runs(states[j], ticks[j]) && ticks[i].saved
    ensures SlotRun(states[i]) < SlotRun(states[j]) <==> Valid(states[i].schedule)
  {
    SlotRepeatsIff(states, ticks, i, j);
  }

  /** Two ticks, at the slot and just after it, with the runtime down or the disk full. */
  function TwoTicks(slot: Time, saved: bool): seq<Tick> {
    [Tick(slot, false, false, slot, saved), Tick(slot + 1, false, false, slot + 1, saved)]
  }

  /**
    Every enabled invalid schedule repeats its slot although both runs are saved: with the runtime
    down a run records its failure and keeps both the slot and the enabled flag.
   */
  lemma InvalidSlotRepeats(s: Stored) returns (states: seq<Stored>)
    requires s.schedule.enabled && s.nextRunAt.Some? && !Valid(s.schedule)
    ensures var ticks := TwoTicks(SlotRun(s), true);
      && IsRun(states, ticks) && states[0] == s
      && Runs(states[0], ticks[0]) && Runs(states[1], ticks[1]) && SlotRun(states[1]) == SlotRun(s)
  {
    var slot := SlotRun(s);
    TruncateGrows(slot, slot + 1);
    var a := s.(lastRunAt := Some(slot), lastStatus := Failed);
    states := [s, a, a.(lastRunAt := Some(slot + 1))];
    var ticks := TwoTicks(slot, true);
    assert Step(states[0], ticks[0], states[1]) && Step(states[1], ticks[1], states[2]);
  }

  /** Every enabled schedule, valid or not, repeats its slot when the first run cannot be saved. */
  lemma UnsavedSlotRepeats(s: Stored) returns (states: seq<Stored>)
    requires s.schedule.enabled && s.nextRunAt.Some?
    ensures var ticks := TwoTicks(SlotRun(s), false);
      && IsRun(states, ticks) && states[0] == s
      && Runs(states[0], ticks[0]) && Runs(states[1], ticks[1]) && SlotRun(states[1]) == SlotRun(s)
  {
    TruncateGrows(SlotRun(s), SlotRun(s) + 1);
    states := [s, s, s];
    var ticks := TwoTicks(SlotRun(s), false);
    assert Step(states[0], ticks[0], states[1]) && Step(states[1], ticks[1], states[2]);
  }

  /** The last run among the first `j` ticks whose result was saved. */
  ghost predicate LastSavedRun(states: seq<Stored>, ticks: seq<Tick>, k: nat, j: nat)
    requires |states| == |ticks| + 1 && j <= |ticks|
  {
    && k < j && Runs(states[k], ticks[k]) && ticks[k].saved
    && forall i :: k < i < j && Runs(states[i], ticks[i]) ==> !ticks[i].saved
  }

  /**
    What the stored entry says about the past: the time of the last saved run, and Completed exactly
    when the runtime was up, the export succeeded and the schedule was valid. The entry is disabled
    exactly by a saved run of an invalid schedule with the runtime up.
   */
  lemma {:induction false} EntryRecordsLastRun(states: seq<Stored>, ticks: seq<Tick>, k: nat, j: nat)
    requires IsRun(states, ticks) && j <= |ticks| && LastSavedRun(states, ticks, k, j)
    ensures states[j].lastRunAt == Some(ticks[k].now)
    ensures states[j].lastStatus == Completed <==> ticks[k].running && ticks[k].exportOk && Valid(states[k].schedule)
    ensures states[j].lastStatus != Completed ==> states[j].lastStatus == Failed
    ensures states[j].schedule.enabled <==> Valid(states[k].schedule) || !ticks[k].running
    decreases j
  {
    assert Step(states[j - 1], ticks[j - 1], states[j]);
    if k < j - 1 { EntryRecordsLastRun(states, ticks, k, j - 1); }
  }

  /** What a tick leaves is determined by what it finds. */
  lemma StepIsDetermined(s: Stored, t: Tick, a: Stored, b: Stored)
    requires Step(s, t, a) && Step(s, t, b)
    ensures a == b
  {
  }

  // ----- Which stored slots are run at all -----

  lemma {:induction false} UnchangedUntilRun(states: seq<Stored>, ticks: seq<Tick>, i: nat, j: nat)
    requires IsRun(states, ticks) && i <= j < |states|
    requires forall k :: i <= k < j ==> !Runs(states[k], ticks[k])
    ensures states[j] == states[i]
    decreases j
  {
    if i < j {
      UnchangedUntilRun(states, ticks, i, j - 1);
      assert Step(states[j - 1], ticks[j - 1], states[j]);
    }
  }

  lemma {:induction false} FirstRun(states: seq<Stored>, ticks: seq<Tick>, i: nat, j: nat) returns (k: nat)
    requires |states| == |ticks| + 1 && i <= j < |ticks| && Runs(states[j], ticks[j])
    ensures i <= k <= j && Runs(states[k], ticks[k])
    ensures forall m :: i <= m < k ==> !Runs(states[m], ticks[m])
    decreases j
  {
    if m :| i <= m < j && Runs(states[m], ticks[m]) {
      k := FirstRun(states, ticks, i, m);
    } else {
      k := j;
    }
  }

  ghost predicate RunsFrom(states: seq<Stored>, ticks: seq<Tick>, i: nat)
    requires |states| == |ticks| + 1
  {
    exists j :: i <= j < |ticks| && Runs(states[j], ticks[j])
  }

  /** Some tick from `i` on falls between the slot's minute and the end of its grace. */
  ghost predicate TickInTime(ticks: seq<Tick>, i: nat, slot: Time) {
    exists j :: i <= j < |ticks| && Truncate(slot) <= Truncate(ticks[j].now) && ticks[j].now <= slot + GRACE
  }

  /** A stored slot is ever run exactly when some tick falls in its time. */
  lemma StoredSlotRunsIffTickInTime(states: seq<Stored>, ticks: seq<Tick>, i: nat)
    requires IsRun(states, ticks) && i < |ticks|
    requires states[i].schedule.enabled && states[i].nextRunAt.Some?
    ensures RunsFrom(states, ticks, i) <==> TickInTime(ticks, i, SlotRun(states[i]))
  {
    if j :| i <= j < |ticks| && Runs(states[j], ticks[j]) {
      var k := FirstRun(states, ticks, i, j);
      UnchangedUntilRun(states, ticks, i, k);
    }
    if TickInTime(ticks, i, SlotRun(states[i])) {
      var slot := SlotRun(states[i]);
      var j :| i <= j < |ticks| && Truncate(slot) <= Truncate(ticks[j].now) && ticks[j].now <= slot + GRACE;
      if forall k :: i <= k < j ==> !Runs(states[k], ticks[k]) {
        UnchangedUntilRun(states, ticks, i, j);
        assert Runs(states[j], ticks[j]);
      }
    }
  }

  /** A slot whose grace has passed is never left: no later tick runs anything. */
  lemma {:induction false} MissedSlotStalls(states: seq<Stored>, ticks: seq<Tick>, i: nat, j: nat)
    requires IsRun(states, ticks) && i <= j < |ticks|
    requires states[i].nextRunAt.Some? && ticks[i].now > SlotRun(states[i]) + GRACE
    ensures states[j] == states[i] && !Runs(states[j], ticks[j])
    decreases j
  {
    if i < j {
      MissedSlotStalls(states, ticks, i, j - 1);
      assert Step(states[j - 1], ticks[j - 1], states[j]);
      assert ticks[i].done <= ticks[j].now;
    }
  }

  /** From every enabled stored slot a first tick just after its grace leads to a run of ticks that does nothing. */
  lemma StallingRun(s: Stored, n: nat) returns (states: seq<Stored>, ticks: seq<Tick>)
    requires s.schedule.enabled && s.nextRunAt.Some?
    ensures |ticks| == n && IsRun(states, ticks) && states[0] == s
    ensures forall k :: 0 <= k < n ==> ticks[k].now == SlotRun(s) + GRACE + 1 + k * MINUTE
    ensures forall k :: 0 <= k < n ==> !Runs(states[k], ticks[k])
    ensures forall k :: 0 <= k <= n ==> states[k] == s
  {
    var first := SlotRun(s) + GRACE + 1;
    ticks := seq(n, k requires 0 <= k < n => Tick(first + k * MINUTE, true, true, first + k * MINUTE, true));
    states := seq(n + 1, k requires 0 <= k <= n => s);
    forall k | 0 <= k < n ensures !Runs(states[k], ticks[k]) && Step(states[k], ticks[k], states[k + 1]) {
      assert ticks[k].now > SlotRun(s) + GRACE;
    }
  }

  /** After a run that was not saved something runs again exactly when a later tick is still in the slot's grace. */
  lemma UnsavedRunRepeats(states: seq<Stored>, ticks: seq<Tick>, i: nat)
    requires IsRun(states, ticks) && i < |ticks|
    requires Runs(states[i], ticks[i]) && !ticks[i].saved
    ensures states[i + 1] == states[i]
    ensures RunsFrom(states, ticks, i + 1) <==>
        exists j :: i < j < |ticks| && ticks[j].now <= SlotRun(states[i]) + GRACE
  {
    assert Step(states[i], ticks[i], states[i + 1]);
    if i + 1 < |ticks| {
      StoredSlotRunsIffTickInTime(states, ticks, i + 1);
      forall j | i < j < |ticks| ensures Truncate(SlotRun(states[i])) <= Truncate(ticks[j].now) {
        TruncateGrows(ticks[i].now, ticks[j].now);
      }
    }
  }

  lemma TruncateGrows(a: Time, b: Time)
    requires a <= b
    ensures Truncate(a) <= Truncate(b)
  {
  }

  // ----- Every slot exactly once -----

  /** Time at which the work of the tick before `i` ended; `start` before the first. */
  function Before(ticks: seq<Tick>, start: Time, i: nat): Time
    requires i <= |ticks|
  {
    if i == 0 then start else ticks[i - 1].done
  }

  /** Each tick comes within a minute of the end of the one before. */
  ghost predicate Prompt(ticks: seq<Tick>, start: Time) {
    forall i :: 0 <= i < |ticks| ==> Before(ticks, start, i) <= ticks[i].now <= Before(ticks, start, i) + MINUTE
  }

  /** Ticks that run nothing take no time, and no slot falls inside a running export. */
  ghost predicate NoSlotInsideRuns(states: seq<Stored>, ticks: seq<Tick>)
    requires |states| == |ticks| + 1
  {
    forall i :: 0 <= i < |ticks| ==>
      && (!Runs(states[i], ticks[i]) ==> ticks[i].done == ticks[i].now)
      && forall u :: IsSlot(Slots(states[0]), u) ==> !(ticks[i].now < u <= ticks[i].done)
  }

  /** A scheduler that has handled everything up to `start`. */
  ghost predicate CaughtUp(s: Stored, start: Time) {
    s.schedule.enabled && Valid(s.schedule) && s.nextRunAt.Some? && IsEarliest(Slots(s), start, true, SlotRun(s))
  }

  lemma StepStaysCaughtUp(s: Stored, t: Tick, after: Stored, start: Time)
    requires CaughtUp(s, start) && Step(s, t, after) && t.saved && t.now <= t.done
    requires start <= t.now <= start + MINUTE
    requires !Runs(s, t) ==> t.done == t.now
    requires forall u :: IsSlot(Slots(s), u) ==> !(t.now < u <= t.done)
    ensures CaughtUp(after, t.done) && after.schedule == s.schedule
    ensures Runs(s, t) <==> SlotRun(s) <= t.now
    ensures Runs(s, t) ==> t.now < SlotRun(s) + MINUTE
    ensures forall u :: IsSlot(Slots(s), u) && start < u <= t.done ==> Runs(s, t) && u == SlotRun(s)
  {
    var next := SlotRun(s);
    assert Eligible(Slots(s), start, true, next);
    DueWithinAMinute(next, start, t.now);
    NoneBetween(Slots(s), start, next, t);
    if Runs(s, t) {
      AfterRunIsEarliest(Slots(s), t.done, SlotRun(after));
    } else {
      LaterStart(Slots(s), start, t.now, next);
    }
  }

  lemma DueWithinAMinute(next: Time, start: Time, now: Time)
    requires next % MINUTE == 0 && next > start && start <= now <= start + MINUTE
    ensures ScheduleDue(Some(next), now) <==> next <= now
    ensures now < next + MINUTE
  {
  }

  /** Slots after `start` up to the end of the tick: at most the next one. */
  lemma NoneBetween(es: seq<DayTimes>, start: Time, next: Time, t: Tick)
    requires IsEarliest(es, start, true, next) && t.now < next + MINUTE && t.now <= t.done
    requires forall u :: IsSlot(es, u) ==> !(t.now < u <= t.done)
    ensures forall u :: IsSlot(es, u) && start < u <= t.done ==> u == next && next <= t.now
  {
    forall u | IsSlot(es, u) && start < u <= t.done ensures u == next && next <= t.now {
      assert Eligible(es, start, true, u);
      assert u <= t.now;
      SameMinute(u, next);
    }
  }

  lemma SameMinute(u: Time, next: Time)
    requires u % MINUTE == 0 && next % MINUTE == 0 && next <= u < next + MINUTE
    ensures u == next
  {
  }

  lemma LaterStart(es: seq<DayTimes>, start: Time, now: Time, next: Time)
    requires IsEarliest(es, start, true, next) && start <= now < next
    ensures IsEarliest(es, now, true, next)
  {
    forall u | Eligible(es, now, true, u) ensures next <= u {
      assert Eligible(es, start, true, u);
    }
  }

  lemma {:induction false} StaysCaughtUp(states: seq<Stored>, ticks: seq<Tick>, start: Time, n: nat)
    requires IsRun(states, ticks) && AllSaved(ticks) && Prompt(ticks, start) && NoSlotInsideRuns(states, ticks)
    requires CaughtUp(states[0], start) && n <= |ticks|
    ensures CaughtUp(states[n], Before(ticks, start, n)) && states[n].schedule == states[0].schedule
    decreases n
  {
    if n > 0 {
      StaysCaughtUp(states, ticks, start, n - 1);
      StepStaysCaughtUp(states[n - 1], ticks[n - 1], states[n], Before(ticks, start, n - 1));
    }
  }

  /** Every run is of a slot after `start`, at a tick less than a minute after it. */
  lemma EveryRunIsASlot(states: seq<Stored>, ticks: seq<Tick>, start: Time, i: nat)
    requires IsRun(states, ticks) && AllSaved(ticks) && Prompt(ticks, start) && NoSlotInsideRuns(states, ticks)
    requires CaughtUp(states[0], start) && i < |ticks| && Runs(states[i], ticks[i])
    ensures IsSlot(Slots(states[0]), SlotRun(states[i]))
    ensures Before(ticks, start, i) < SlotRun(states[i]) <= ticks[i].now < SlotRun(states[i]) + MINUTE
  {
    StaysCaughtUp(states, ticks, start, i);
    StepStaysCaughtUp(states[i], ticks[i], states[i + 1], Before(ticks, start, i));
  }

  /** Every slot that passes is run at some tick. */
  lemma {:induction false} EverySlotIsRun(states: seq<Stored>, ticks: seq<Tick>, start: Time, n: nat, u: Time)
      returns (i: nat)
    requires IsRun(states, ticks) && AllSaved(ticks) && Prompt(ticks, start) && NoSlotInsideRuns(states, ticks)
    requires CaughtUp(states[0], start) && n <= |ticks|
    requires IsSlot(Slots(states[0]), u) && start < u <= Before(ticks, start, n)
    ensures i < n && Runs(states[i], ticks[i]) && SlotRun(states[i]) == u
    decreases n
  {
    if u <= Before(ticks, start, n - 1) {
      i := EverySlotIsRun(states, ticks, start, n - 1, u);
    } else {
      i := n - 1;
      StaysCaughtUp(states, ticks, start, i);
      StepStaysCaughtUp(states[i], ticks[i], states[n], Before(ticks, start, i));
    }
  }

  /**
    From a caught-up start, with prompt ticks, saved results and no slot inside a running export:
    every slot up to the last tick runs, at exactly one tick, less than a minute after its time.
   */
  lemma EachSlotRunsExactlyOnce(states: seq<Stored>, ticks: seq<Tick>, start: Time, u: Time)
    requires IsRun(states, ticks) && AllSaved(ticks) && Prompt(ticks, start) && NoSlotInsideRuns(states, ticks)
    requires CaughtUp(states[0], start) && IsSlot(Slots(states[0]), u)
    requires start < u <= Before(ticks, start, |ticks|)
    ensures exists i :: 0 <= i < |ticks| && RunsSlot(states, ticks, i, u)
    ensures forall i, j ::
      0 <= i < |ticks| && 0 <= j < |ticks| && RunsSlot(states, ticks, i, u) && RunsSlot(states, ticks, j, u) ==> i == j
    ensures forall i :: 0 <= i < |ticks| && RunsSlot(states, ticks, i, u) ==> u <= ticks[i].now < u + MINUTE
  {
    var i := EverySlotIsRun(states, ticks, start, |ticks|, u);
    assert RunsSlot(states, ticks, i, u);
    forall a, b | 0 <= a < |ticks| && 0 <= b < |ticks| && RunsSlot(states, ticks, a, u) && RunsSlot(states, ticks, b, u)
      ensures a == b
    {
      StaysCaughtUp(states, ticks, start, a);
      StaysCaughtUp(states, ticks, start, b);
      if a < b { NoSlotRunsTwice(states, ticks, a, b); }
      if b < a { NoSlotRunsTwice(states, ticks, b, a); }
    }
    forall a | 0 <= a < |ticks| && RunsSlot(states, ticks, a, u) ensures u <= ticks[a].now < u + MINUTE {
      EveryRunIsASlot(states, ticks, start, a);
    }
  }

  ghost predicate RunsSlot(states: seq<Stored>, ticks: seq<Tick>, i: nat, u: Time)
    requires |states| == |ticks| + 1 && i < |ticks|
  {
    Runs(states[i], ticks[i]) && SlotRun(states[i]) == u
  }
}

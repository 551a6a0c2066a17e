/**
  Weekly export schedules: validation and the 14-day scan for the next run
  (backend/internal/volumeexport/schedule_timing.go). Times are nanoseconds on a fixed-offset
  clock, counted from the start of some Sunday.
 */
module Schedule {
  import opened Options
  import opened Text

  type Time = int

  const MINUTE := 60_000_000_000
  const DAY := 86_400_000_000_000
  const MINUTES_PER_DAY := 1440
  const GRACE := MINUTE

  /** One weekday (0 is Sunday) and its export times as text. */
  datatype DayTimes = DayTimes(day: int, times: seq<string>)

  datatype Schedule = Schedule(enabled: bool, dayTimes: seq<DayTimes>, exportType: string, folder: string,
      imageRef: string)

  datatype Invalid =
    | NoDays
    | BadDay
    | NoTimes(day: int)
    | BadTime
    | DuplicateTime(day: int)
    | BadType
    | NoFolder
    | NoImageRef

  // ----- Times of day -----

  /** Minutes after midnight for HH:MM (the hour may have one digit), or nothing. */
  function ParseTimeOfDay(value: string): (r: Option<nat>)
    ensures r.Some? ==> r.value < MINUTES_PER_DAY
  {
    var v := TrimSpace(value);
    if |v| == 0 || !IsDigit(v[0]) then None
    else
      var two := |v| >= 2 && IsDigit(v[1]);
      var hour := if two then Digit(v[0]) * 10 + Digit(v[1]) else Digit(v[0]);
      var rest := if two then v[2..] else v[1..];
      if hour >= 24 || |rest| != 3 || rest[0] != ':' || !IsDigit(rest[1]) || !IsDigit(rest[2]) then None
      else
        var minute := Digit(rest[1]) * 10 + Digit(rest[2]);
        if minute >= 60 then None else Some(hour * 60 + minute)
  }

  /** The two-digit text of a minute of the day. */
  function Clock(m: nat): string
    requires m < MINUTES_PER_DAY
  {
    TwoDigits(m / 60) + ":" + TwoDigits(m % 60)
  }

  function TwoDigits(n: nat): (s: string)
    requires n < 100
    ensures |s| == 2 && IsDigit(s[0]) && IsDigit(s[1])
    ensures Digit(s[0]) * 10 + Digit(s[1]) == n
  {
    [('0' as int + n / 10) as char, ('0' as int + n % 10) as char]
  }

  lemma ClockRoundTrip(m: nat)
    requires m < MINUTES_PER_DAY
    ensures ParseTimeOfDay(Clock(m)) == Some(m)
  {
    var h, t := TwoDigits(m / 60), TwoDigits(m % 60);
    var v := Clock(m);
    assert v == [h[0], h[1], ':', t[0], t[1]];
    assert TrimSpace(v) == v;
    assert v[2..] == [':', t[0], t[1]];
  }

  /** A time is accepted exactly when, trimmed, it is HH:MM or H:MM, and then read as written. */
  lemma ParseTimeOfDayIff(value: string, m: nat)
    requires m < MINUTES_PER_DAY
    ensures ParseTimeOfDay(value) == Some(m) <==>
      TrimSpace(value) == Clock(m) || (m < 600 && TrimSpace(value) == Clock(m)[1..])
  {
    if ParseTimeOfDay(value) == Some(m) { ParsedIsClock(value, m); }
    if TrimSpace(value) == Clock(m) || (m < 600 && TrimSpace(value) == Clock(m)[1..]) { ClockIsParsed(value, m); }
  }

  lemma ClockIsParsed(value: string, m: nat)
    requires m < MINUTES_PER_DAY
    requires TrimSpace(value) == Clock(m) || (m < 600 && TrimSpace(value) == Clock(m)[1..])
    ensures ParseTimeOfDay(value) == Some(m)
  {
    var v := TrimSpace(value);
    var h, t := TwoDigits(m / 60), TwoDigits(m % 60);
    assert Clock(m) == [h[0], h[1], ':', t[0], t[1]];
    if v == Clock(m) {
      assert v[2..] == [':', t[0], t[1]];
    } else {
      assert v == [h[1], ':', t[0], t[1]] && v[1..] == [':', t[0], t[1]];
      assert h[0] == '0';
    }
  }

  lemma ParsedIsClock(value: string, m: nat)
    requires m < MINUTES_PER_DAY && ParseTimeOfDay(value) == Some(m)
    ensures TrimSpace(value) == Clock(m) || (m < 600 && TrimSpace(value) == Clock(m)[1..])
  {
    var v := TrimSpace(value);
    var h, t := TwoDigits(m / 60), TwoDigits(m % 60);
    var two := |v| >= 2 && IsDigit(v[1]);
    var hour := if two then Digit(v[0]) * 10 + Digit(v[1]) else Digit(v[0]);
    var rest := if two then v[2..] else v[1..];
    var minute := Digit(rest[1]) * 10 + Digit(rest[2]);
    HourAndMinute(hour, minute, m);
    SameTwoDigits(t, rest[1], rest[2]);
    assert Clock(m) == [h[0], h[1], ':', t[0], t[1]];
    if two {
      SameTwoDigits(h, v[0], v[1]);
      assert v == [v[0], v[1]] + rest;
    } else {
      SameTwoDigits(h, '0', v[0]);
      assert v == [v[0]] + rest;
      assert Clock(m)[1..] == [h[1], ':', t[0], t[1]];
    }
  }

  lemma HourAndMinute(hour: nat, minute: nat, m: nat)
    requires minute < 60 && hour * 60 + minute == m
    ensures m / 60 == hour && m % 60 == minute
  {
  }

  lemma SameTwoDigits(s: string, a: char, b: char)
    requires |s| == 2 && IsDigit(s[0]) && IsDigit(s[1]) && IsDigit(a) && IsDigit(b)
    requires Digit(s[0]) * 10 + Digit(s[1]) == Digit(a) * 10 + Digit(b)
    ensures s == [a, b]
  {
  }

  // ----- Normalization and validation -----

  /** Insertion into a list sorted by day, after entries of the same day. */
  function InsertDay(e: DayTimes, es: seq<DayTimes>): (r: seq<DayTimes>)
    ensures multiset(r) == multiset(es) + multiset{e}
  {
    if es == [] || e.day < es[0].day then [e] + es
    else
      assert es == [es[0]] + es[1..];
      [es[0]] + InsertDay(e, es[1..])
  }

  function SortDays(es: seq<DayTimes>): (r: seq<DayTimes>)
    ensures multiset(r) == multiset(es) && |r| == |es|
  {
    if es == [] then []
    else
      assert es == es[..|es| - 1] + [es[|es| - 1]];
      var r := InsertDay(es[|es| - 1], SortDays(es[..|es| - 1]));
      assert |multiset(r)| == |r| && |multiset(es)| == |es|;
      r
  }

  ghost predicate SortedByDay(es: seq<DayTimes>) {
    forall i, j :: 0 <= i < j < |es| ==> es[i].day <= es[j].day
  }

  lemma {:induction false} InsertDaySorted(e: DayTimes, es: seq<DayTimes>)
    requires SortedByDay(es)
    ensures SortedByDay(InsertDay(e, es))
  {
    if es != [] && e.day >= es[0].day {
      var tail := InsertDay(e, es[1..]);
      InsertDaySorted(e, es[1..]);
      InsertDayMembers(e, es[1..]);
      forall j | 0 <= j < |tail| ensures es[0].day <= tail[j].day { assert tail[j] in tail; }
    }
  }

  lemma {:induction false} SortDaysSorted(es: seq<DayTimes>)
    ensures SortedByDay(SortDays(es))
  {
    if es != [] {
      SortDaysSorted(es[..|es| - 1]);
      InsertDaySorted(es[|es| - 1], SortDays(es[..|es| - 1]));
    }
  }

  function InsertText(t: string, ts: seq<string>): (r: seq<string>)
    ensures multiset(r) == multiset(ts) + multiset{t}
  {
    if ts == [] || Less(t, ts[0]) then [t] + ts
    else
      assert ts == [ts[0]] + ts[1..];
      [ts[0]] + InsertText(t, ts[1..])
  }

  function SortTexts(ts: seq<string>): (r: seq<string>)
    ensures multiset(r) == multiset(ts)
  {
    if ts == [] then []
    else
      assert ts == [ts[0]] + ts[1..];
      InsertText(ts[0], SortTexts(ts[1..]))
  }

  ghost predicate SortedTexts(ts: seq<string>) {
    forall i, j :: 0 <= i < j < |ts| ==> !Less(ts[j], ts[i])
  }

  lemma NotLessTransitive(a: string, b: string, c: string)
    requires !Less(b, a) && !Less(c, b)
    ensures !Less(c, a)
  {
    LessIsTotal(a, b);
    LessIsTotal(b, c);
    LessIsTotal(a, c);
    if Less(a, b) && Less(b, c) { LessTransitive(a, b, c); }
  }

  lemma {:induction false} InsertTextSorted(t: string, ts: seq<string>)
    requires SortedTexts(ts)
    ensures SortedTexts(InsertText(t, ts))
  {
    if ts != [] {
      LessIsTotal(t, ts[0]);
      if Less(t, ts[0]) {
        forall j | 0 <= j < |ts| ensures !Less(ts[j], t) { if j > 0 { NotLessTransitive(t, ts[0], ts[j]); } }
      } else {
        var tail := InsertText(t, ts[1..]);
        InsertTextSorted(t, ts[1..]);
        forall j | 0 <= j < |tail| ensures !Less(tail[j], ts[0]) {
          assert tail[j] in multiset(tail);
          assert tail[j] in multiset(ts[1..]) + multiset{t};
          assert tail[j] == t || tail[j] in ts[1..];
        }
      }
    }
  }

  lemma {:induction false} SortTextsSorted(ts: seq<string>)
    ensures SortedTexts(SortTexts(ts))
  {
    if ts != [] {
      SortTextsSorted(ts[1..]);
      InsertTextSorted(ts[0], SortTexts(ts[1..]));
    }
  }

  function SortTimesOf(e: DayTimes): DayTimes { e.(times := SortTexts(e.times)) }

  function Normalized(es: seq<DayTimes>): (r: seq<DayTimes>)
    ensures |r| == |es|
  {
    var s := SortDays(es);
    seq(|s|, i requires 0 <= i < |s| => SortTimesOf(s[i]))
  }

  /** The entries in some order, each with its own times in some order. */
  ghost predicate IsRearranged(es: seq<DayTimes>, r: seq<DayTimes>) {
    exists mid: seq<DayTimes> :: multiset(mid) == multiset(es) && SameTimes(mid, r)
  }

  ghost predicate SameTimes(mid: seq<DayTimes>, r: seq<DayTimes>) {
    |mid| == |r| && forall i :: 0 <= i < |r| ==>
        r[i].day == mid[i].day && multiset(r[i].times) == multiset(mid[i].times)
  }

  lemma NormalizedIsSorted(es: seq<DayTimes>)
    ensures SortedByDay(Normalized(es)) && IsRearranged(es, Normalized(es))
    ensures forall i :: 0 <= i < |Normalized(es)| ==> SortedTexts(Normalized(es)[i].times)
  {
    SortDaysSorted(es);
    assert SameTimes(SortDays(es), Normalized(es));
    forall i | 0 <= i < |es| ensures SortedTexts(Normalized(es)[i].times) { SortTextsSorted(SortDays(es)[i].times); }
  }

  method NormalizeSchedule(schedule: Schedule) returns (r: Schedule)
    ensures r == schedule.(dayTimes := Normalized(schedule.dayTimes))
    ensures SortedByDay(r.dayTimes)
    ensures forall i :: 0 <= i < |r.dayTimes| ==> SortedTexts(r.dayTimes[i].times)
    ensures IsRearranged(schedule.dayTimes, r.dayTimes)
  {
    NormalizedIsSorted(schedule.dayTimes);
    if |schedule.dayTimes| == 0 {
      assert Normalized([]) == [];
      return schedule;
    }
    var days := SortEachDay(SortDays(schedule.dayTimes));
    assert days == Normalized(schedule.dayTimes);
    r := schedule.(dayTimes := days);
  }

  method SortEachDay(sorted: seq<DayTimes>) returns (days: seq<DayTimes>)
    ensures |days| == |sorted| && forall i :: 0 <= i < |days| ==> days[i] == SortTimesOf(sorted[i])
  {
    days := sorted;
    for index := 0 to |days|
      invariant |days| == |sorted|
      invariant forall i :: 0 <= i < index ==> days[i] == SortTimesOf(sorted[i])
      invariant forall i :: index <= i < |days| ==> days[i] == sorted[i]
    {
      days := days[index := days[index].(times := SortTexts(days[index].times))];
    }
  }

  /** No two listed texts are equal up to surrounding white space. */
  ghost predicate NoTextTwice(times: seq<string>) {
    && (forall v :: multiset(times)[v] <= 1)
    && (forall a, b :: a in times && b in times && a != b ==> TrimSpace(a) != TrimSpace(b))
  }

  /** Every time parses and no text is listed twice. */
  ghost predicate ValidTimes(times: seq<string>) {
    AllParse(times) && NoTextTwice(times)
  }

  ghost predicate ValidDay(e: DayTimes) {
    0 <= e.day <= 6 && |e.times| > 0 && ValidTimes(e.times)
  }

  predicate ValidTarget(s: Schedule) {
    var t := TrimSpace(s.exportType);
    && t in {"local_file", "local_image", "new_image", "registry"}
    && (if t == "local_file" then TrimSpace(s.folder) != "" else TrimSpace(s.imageRef) != "")
  }

  ghost predicate ValidDays(es: seq<DayTimes>) {
    |es| > 0 && forall e :: e in es ==> ValidDay(e)
  }

  ghost predicate Valid(s: Schedule) {
    ValidDays(s.dayTimes) && ValidTarget(s)
  }

  lemma NoTextTwiceStep(times: seq<string>, v: string)
    ensures NoTextTwice(times + [v]) <==> NoTextTwice(times) && forall a :: a in times ==> TrimSpace(a) != TrimSpace(v)
  {
    var more := times + [v];
    assert forall a :: a in times ==> a in more;
    assert v in more;
    forall a ensures multiset(more)[a] == multiset(times)[a] + if a == v then 1 else 0 {
      assert multiset(more) == multiset(times) + multiset{v};
    }
    assert forall a :: a in times <==> multiset(times)[a] >= 1;
    if NoTextTwice(more) {
      assert multiset(more)[v] == 1;
      forall a | a in times ensures TrimSpace(a) != TrimSpace(v) { assert a in more && a != v; }
      forall a | a in times ensures multiset(times)[a] == 1 { assert multiset(more)[a] == 1; }
    }
    if NoTextTwice(times) && forall a :: a in times ==> TrimSpace(a) != TrimSpace(v) {
      assert v !in times;
      forall a | a in more ensures multiset(more)[a] == 1 { assert a == v || a in times; }
    }
  }

  function Trimmed(times: seq<string>): set<string> { set v | v in times :: TrimSpace(v) }

  /** A text already listed, up to white space, makes the whole list invalid; a new one keeps it good so far. */
  lemma ListedAgain(times: seq<string>, i: nat)
    requires i < |times| && NoTextTwice(times[..i])
    ensures TrimSpace(times[i]) in Trimmed(times[..i]) ==> !NoTextTwice(times)
    ensures TrimSpace(times[i]) !in Trimmed(times[..i]) ==> NoTextTwice(times[..i + 1])
    ensures Trimmed(times[..i + 1]) == Trimmed(times[..i]) + {TrimSpace(times[i])}
  {
    assert times[..i + 1] == times[..i] + [times[i]];
    NoTextTwiceStep(times[..i], times[i]);
    PrefixHasNoTextTwice(times, i + 1);
  }

  ghost predicate AllParse(times: seq<string>) { forall v :: v in times ==> ParseTimeOfDay(v).Some? }

  lemma AllParseStep(times: seq<string>, i: nat)
    requires i < |times| && AllParse(times[..i])
    ensures ParseTimeOfDay(times[i]).Some? ==> AllParse(times[..i + 1])
    ensures ParseTimeOfDay(times[i]).None? ==> !AllParse(times)
  {
    assert times[..i + 1] == times[..i] + [times[i]];
    assert times[i] in times;
  }

  method ValidateTimes(e: DayTimes) returns (err: Option<Invalid>)
    ensures err.None? <==> ValidTimes(e.times)
  {
    var times := e.times;
    var seen: set<string> := {};
    assert times[..0] == [];
    for i := 0 to |times|
      invariant AllParse(times[..i]) && NoTextTwice(times[..i])
      invariant seen == Trimmed(times[..i])
    {
      AllParseStep(times, i);
      ListedAgain(times, i);
      if ParseTimeOfDay(times[i]).None? {
        return Some(BadTime);
      }
      var key := TrimSpace(times[i]);
      if key in seen {
        return Some(DuplicateTime(e.day));
      }
      seen := seen + {key};
    }
    assert times[..|times|] == times;
    return None;
  }

  lemma PrefixHasNoTextTwice(times: seq<string>, n: nat)
    requires n <= |times|
    ensures NoTextTwice(times) ==> NoTextTwice(times[..n])
  {
    var a, b := times[..n], times[n..];
    assert times == a + b;
    forall v ensures multiset(times)[v] == multiset(a)[v] + multiset(b)[v] {
      assert multiset(a + b) == multiset(a) + multiset(b);
    }
  }

  /** Normalizing changes neither the entries, up to the order of their times, nor their validity. */
  lemma NormalizedMembers(es: seq<DayTimes>)
    ensures forall e :: e in es ==> SortTimesOf(e) in Normalized(es)
    ensures forall e' :: e' in Normalized(es) ==> exists e :: e in es && e' == SortTimesOf(e)
  {
    var s := SortDays(es);
    forall e | e in es ensures SortTimesOf(e) in Normalized(es) {
      assert e in multiset(s);
      var i :| 0 <= i < |s| && s[i] == e;
      assert Normalized(es)[i] == SortTimesOf(e);
    }
    forall e' | e' in Normalized(es) ensures exists e :: e in es && e' == SortTimesOf(e) {
      var i :| 0 <= i < |s| && Normalized(es)[i] == e';
      assert s[i] in multiset(s);
      assert s[i] in es;
    }
  }

  lemma SortKeepsTimes(e: DayTimes)
    ensures forall v :: v in SortTimesOf(e).times <==> v in e.times
    ensures ValidDay(SortTimesOf(e)) <==> ValidDay(e)
  {
    var t := SortTimesOf(e).times;
    assert multiset(t) == multiset(e.times);
    assert forall v :: v in t <==> v in multiset(t);
    assert forall v :: v in e.times <==> v in multiset(e.times);
    assert |multiset(t)| == |t| && |multiset(e.times)| == |e.times|;
  }

  lemma ValidNormalized(es: seq<DayTimes>)
    ensures ValidDays(Normalized(es)) <==> ValidDays(es)
  {
    NormalizedMembers(es);
    forall e | e in es ensures ValidDay(SortTimesOf(e)) <==> ValidDay(e) { SortKeepsTimes(e); }
  }

  method ValidateDays(es: seq<DayTimes>) returns (err: Option<Invalid>)
    ensures err.None? <==> forall e :: e in es ==> ValidDay(e)
  {
    for i := 0 to |es|
      invariant forall e :: e in es[..i] ==> ValidDay(e)
    {
      var entry := es[i];
      assert entry in es;
      if entry.day < 0 || entry.day > 6 {
        return Some(BadDay);
      }
      if |entry.times| == 0 {
        return Some(NoTimes(entry.day));
      }
      var bad := ValidateTimes(entry);
      if bad.Some? {
        return bad;
      }
    }
    assert es[..|es|] == es;
    return None;
  }

  method ValidateScheduleInput(schedule: Schedule) returns (err: Option<Invalid>)
    ensures err.None? <==> !schedule.enabled || Valid(schedule)
    ensures schedule.enabled && ValidDays(schedule.dayTimes) ==>
      && (err == Some(NoFolder) <==> TrimSpace(schedule.exportType) == "local_file" && TrimSpace(schedule.folder) == "")
      && (err == Some(NoImageRef) <==>
            TrimSpace(schedule.exportType) in {"local_image", "new_image", "registry"} &&
                TrimSpace(schedule.imageRef) == "")
      && (err == Some(BadType) <==>
            TrimSpace(schedule.exportType) !in {"local_file", "local_image", "new_image", "registry"})
  {
    var s := NormalizeSchedule(schedule);
    ValidNormalized(schedule.dayTimes);
    if !s.enabled {
      return None;
    }
    if |s.dayTimes| == 0 {
      return Some(NoDays);
    }
    err := ValidateDays(s.dayTimes);
    if err.Some? {
      return;
    }
    var exportType := TrimSpace(s.exportType);
    if exportType != "local_file" && exportType != "local_image" && exportType != "new_image" &&
        exportType != "registry" {
      return Some(BadType);
    }
    if exportType == "local_file" {
      if TrimSpace(s.folder) == "" {
        return Some(NoFolder);
      }
    } else if TrimSpace(s.imageRef) == "" {
      return Some(NoImageRef);
    }
    return None;
  }

  // ----- The weekly slot set -----

  function DayOf(t: Time): int { t / DAY }

  function Weekday(t: Time): int { DayOf(t) % 7 }

  function MinuteOfDay(t: Time): nat { (t % DAY) / MINUTE }

  function TimesForDay(es: seq<DayTimes>, day: int): seq<string> {
    if es == [] then [] else if es[0].day == day then es[0].times else TimesForDay(es[1..], day)
  }

  ghost predicate Lists(times: seq<string>, minute: nat) {
    exists v :: v in times && ParseTimeOfDay(v) == Some(minute)
  }

  /** A slot of the code's own reading: only the first entry of a weekday counts. */
  ghost predicate IsSlot(es: seq<DayTimes>, t: Time) {
    t % MINUTE == 0 && Lists(TimesForDay(es, Weekday(t)), MinuteOfDay(t))
  }

  /** A slot of the schedule as written: any entry of the weekday counts. */
  ghost predicate IsWrittenSlot(es: seq<DayTimes>, t: Time) {
    t % MINUTE == 0 && exists e :: e in es && e.day == Weekday(t) && Lists(e.times, MinuteOfDay(t))
  }

  predicate StillRunnable(candidate: Time, now: Time) {
    !(now > candidate + GRACE)
  }

  predicate Qualifies(t: Time, now: Time, afterRun: bool) {
    if afterRun then t > now else StillRunnable(t, now)
  }

  ghost predicate Eligible(es: seq<DayTimes>, now: Time, afterRun: bool, t: Time) {
    IsSlot(es, t) && Qualifies(t, now, afterRun)
  }

  /** What the scan looks for: the least eligible slot dated today or later. */
  ghost predicate IsNext(es: seq<DayTimes>, now: Time, afterRun: bool, t: Time) {
    && Eligible(es, now, afterRun, t) && DayOf(t) >= DayOf(now)
    && forall u :: Eligible(es, now, afterRun, u) && DayOf(u) >= DayOf(now) ==> t <= u
  }

  /** The least eligible slot, whatever its date. */
  ghost predicate IsEarliest(es: seq<DayTimes>, now: Time, afterRun: bool, t: Time) {
    Eligible(es, now, afterRun, t) && forall u :: Eligible(es, now, afterRun, u) ==> t <= u
  }

  function SlotTime(day: int, minute: nat): Time { day * DAY + minute * MINUTE }

  lemma SlotTimeParts(day: int, minute: nat)
    requires minute < MINUTES_PER_DAY
    ensures var t := SlotTime(day, minute);
            DayOf(t) == day && MinuteOfDay(t) == minute && t % MINUTE == 0
  {
  }

  lemma SlotTimeOf(t: Time)
    requires t % MINUTE == 0
    ensures SlotTime(DayOf(t), MinuteOfDay(t)) == t && MinuteOfDay(t) < MINUTES_PER_DAY
  {
  }

  // ----- The scan -----

  datatype NextRun = Disabled | Rejected(why: Invalid) | At(t: Time) | NoUpcomingRun

  /** `next` is the least qualifying slot dated in the days from `lo` up to `hi`. */
  ghost predicate LeastBetween(es: seq<DayTimes>, now: Time, afterRun: bool, lo: int, hi: int, next: Option<Time>) {
    && (next.Some? ==> Eligible(es, now, afterRun, next.value) && lo <= DayOf(next.value) < hi)
    && forall u :: Eligible(es, now, afterRun, u) && lo <= DayOf(u) < hi ==> next.Some? && next.value <= u
  }

  /** One day of the scan: `next` improved by the `times` of the day already seen. */
  ghost predicate LeastWithin(es: seq<DayTimes>, now: Time, afterRun: bool, lo: int, day: int, times: seq<string>,
      next: Option<Time>) {
    && (next.Some? ==> Eligible(es, now, afterRun, next.value) && lo <= DayOf(next.value) <= day)
    && (forall u :: Eligible(es, now, afterRun, u) && lo <= DayOf(u) < day ==> next.Some? && next.value <= u)
    && (forall u :: Eligible(es, now, afterRun, u) && DayOf(u) == day && Lists(times, MinuteOfDay(u)) ==>
          next.Some? && next.value <= u)
  }

  method ScanDay(es: seq<DayTimes>, now: Time, afterRun: bool, ghost lo: int, day: int, best: Option<Time>)
      returns (next: Option<Time>)
    requires lo <= day
    requires forall e :: e in es ==> ValidDay(e)
    requires LeastBetween(es, now, afterRun, lo, day, best)
    ensures LeastBetween(es, now, afterRun, lo, day + 1, next)
  {
    next := best;
    var times := TimesForDay(es, day % 7);
    TimesForDayValid(es, day % 7);
    DayStarts(es, now, afterRun, lo, day, best);
    assert times[..0] == [];
    for i := 0 to |times|
      invariant LeastWithin(es, now, afterRun, lo, day, times[..i], next)
    {
      var minute := ParseTimeOfDay(times[i]).value;
      assert Lists(TimesForDay(es, day % 7), minute);
      ScanStep(es, now, afterRun, lo, day, times[..i], times[i], next);
      assert times[..i + 1] == times[..i] + [times[i]];
      next := Consider(next, SlotTime(day, minute), now, afterRun);
    }
    assert times[..|times|] == times;
    DayEnds(es, now, afterRun, lo, day, next);
  }

  method Consider(best: Option<Time>, candidate: Time, now: Time, afterRun: bool) returns (next: Option<Time>)
    ensures next == Improve(best, candidate, now, afterRun)
  {
    next := best;
    if afterRun {
      if !(candidate > now) {
        return;
      }
    } else if !StillRunnable(candidate, now) {
      return;
    }
    if next.None? || candidate < next.value {
      next := Some(candidate);
    }
  }

  lemma DayStarts(es: seq<DayTimes>, now: Time, afterRun: bool, lo: int, day: int, best: Option<Time>)
    requires LeastBetween(es, now, afterRun, lo, day, best)
    ensures LeastWithin(es, now, afterRun, lo, day, [], best)
  {
    assert forall u: nat :: !Lists([], u);
  }

  lemma DayEnds(es: seq<DayTimes>, now: Time, afterRun: bool, lo: int, day: int, next: Option<Time>)
    requires lo <= day && LeastWithin(es, now, afterRun, lo, day, TimesForDay(es, day % 7), next)
    ensures LeastBetween(es, now, afterRun, lo, day + 1, next)
  {
  }

  /** One candidate of the scan. */
  function Improve(next: Option<Time>, candidate: Time, now: Time, afterRun: bool): Option<Time> {
    if Qualifies(candidate, now, afterRun) && (next.None? || candidate < next.value) then Some(candidate) else next
  }

  lemma CandidateIsSlot(es: seq<DayTimes>, day: int, minute: nat)
    requires minute < MINUTES_PER_DAY && Lists(TimesForDay(es, day % 7), minute)
    ensures IsSlot(es, SlotTime(day, minute)) && DayOf(SlotTime(day, minute)) == day
  {
    SlotTimeParts(day, minute);
  }

  lemma OneSlotPerMinute(es: seq<DayTimes>, day: int, minute: nat)
    ensures forall u :: IsSlot(es, u) && DayOf(u) == day && MinuteOfDay(u) == minute ==> u == SlotTime(day, minute)
  {
    forall u | IsSlot(es, u) && DayOf(u) == day && MinuteOfDay(u) == minute ensures u == SlotTime(day, minute) {
      SlotTimeOf(u);
    }
  }

  lemma ScanStep(es: seq<DayTimes>, now: Time, afterRun: bool, lo: int, day: int, times: seq<string>, v: string,
      next: Option<Time>)
    requires lo <= day && LeastWithin(es, now, afterRun, lo, day, times, next)
    requires ParseTimeOfDay(v).Some? && Lists(TimesForDay(es, day % 7), ParseTimeOfDay(v).value)
    ensures LeastWithin(es, now, afterRun, lo, day, times + [v],
        Improve(next, SlotTime(day, ParseTimeOfDay(v).value), now, afterRun))
  {
    var minute := ParseTimeOfDay(v).value;
    CandidateIsSlot(es, day, minute);
    OneSlotPerMinute(es, day, minute);
    ListsAppend(times, v);
    ImproveStep(es, now, afterRun, lo, day, times, times + [v], minute, SlotTime(day, minute), next);
  }

  lemma ImproveStep(es: seq<DayTimes>, now: Time, afterRun: bool, lo: int, day: int, times: seq<string>,
      more: seq<string>, minute: nat, candidate: Time, next: Option<Time>)
    requires lo <= day && LeastWithin(es, now, afterRun, lo, day, times, next)
    requires IsSlot(es, candidate) && DayOf(candidate) == day
    requires forall u :: IsSlot(es, u) && DayOf(u) == day && MinuteOfDay(u) == minute ==> u == candidate
    requires forall m: nat :: Lists(more, m) ==> Lists(times, m) || m == minute
    ensures LeastWithin(es, now, afterRun, lo, day, more, Improve(next, candidate, now, afterRun))
  {
  }

  lemma ListsAppend(times: seq<string>, v: string)
    ensures forall m: nat :: Lists(times + [v], m) <==> Lists(times, m) || ParseTimeOfDay(v) == Some(m)
  {
    forall m: nat ensures Lists(times + [v], m) <==> Lists(times, m) || ParseTimeOfDay(v) == Some(m) {
      if Lists(times, m) {
        var w :| w in times && ParseTimeOfDay(w) == Some(m);
        assert w in times + [v];
      }
      if ParseTimeOfDay(v) == Some(m) {
        assert v in times + [v];
      }
    }
  }

  lemma {:induction false} TimesForDayValid(es: seq<DayTimes>, day: int)
    requires forall e :: e in es ==> ValidDay(e)
    ensures forall i :: 0 <= i < |TimesForDay(es, day)| ==> ParseTimeOfDay(TimesForDay(es, day)[i]).Some?
  {
    if es != [] {
      assert es[0] in es;
      if es[0].day != day {
        TimesForDayValid(es[1..], day);
      } else {
        assert forall v :: v in es[0].times ==> ParseTimeOfDay(v).Some?;
      }
    }
  }

  /** A valid schedule has a qualifying slot in the second week of the scan. */
  lemma SlotInSecondWeek(es: seq<DayTimes>, now: Time, afterRun: bool) returns (t: Time)
    requires |es| > 0 && ValidDay(es[0])
    ensures Eligible(es, now, afterRun, t) && DayOf(now) + 7 <= DayOf(t) < DayOf(now) + 14
  {
    var day := DayOf(now) + 7 + (es[0].day - DayOf(now)) % 7;
    var v := es[0].times[0];
    var minute := ParseTimeOfDay(v).value;
    t := SlotTime(day, minute);
    SlotTimeParts(day, minute);
    assert day % 7 == es[0].day;
    assert v in TimesForDay(es, Weekday(t));
  }

  /** The scan returns the least slot; "no upcoming run" is never returned for a valid schedule. */
  method ComputeNextRun(schedule: Schedule, now: Time, afterRun: bool) returns (r: NextRun)
    ensures !schedule.enabled <==> r.Disabled?
    ensures schedule.enabled && !Valid(schedule) <==> r.Rejected?
    ensures r.At? ==> IsNext(Normalized(schedule.dayTimes), now, afterRun, r.t)
    ensures !r.NoUpcomingRun?
  {
    var s := NormalizeSchedule(schedule);
    if !s.enabled {
      return Disabled;
    }
    ValidNormalized(schedule.dayTimes);
    var err := ValidateScheduleInput(s);
    if err.Some? {
      return Rejected(err.value);
    }
    var es := s.dayTimes;
    var today := DayOf(now);
    var next: Option<Time> := None;
    for offset := 0 to 14
      invariant LeastBetween(es, now, afterRun, today, today + offset, next)
    {
      next := ScanDay(es, now, afterRun, today, today + offset, next);
    }
    ghost var sure := SlotInSecondWeek(es, now, afterRun);
    if next.None? {
      return NoUpcomingRun;
    }
    return At(next.value);
  }

  // ----- Which slot set the scan serves -----

  /** After a run the scan finds the least slot after `now`, with no restriction on its date. */
  lemma AfterRunIsEarliest(es: seq<DayTimes>, now: Time, t: Time)
    ensures IsNext(es, now, true, t) <==> IsEarliest(es, now, true, t)
  {
    forall u | Eligible(es, now, true, u) ensures DayOf(u) >= DayOf(now) {
    }
  }

  /**
    Initially it finds the least slot still in grace, except at exactly midnight with a 23:59 slot
    the day before: that slot is in grace and dated yesterday, where the scan does not look.
   */
  lemma InitialIsEarliestUnlessMidnight(es: seq<DayTimes>, now: Time, t: Time)
    requires IsNext(es, now, false, t)
    ensures IsEarliest(es, now, false, t) <==> !(now % DAY == 0 && IsSlot(es, now - MINUTE))
  {
    forall u | Eligible(es, now, false, u) && DayOf(u) < DayOf(now) ensures now % DAY == 0 && u == now - MINUTE {
      OnlyLastMinuteInGrace(u, now);
    }
    if now % DAY == 0 && IsSlot(es, now - MINUTE) {
      assert Eligible(es, now, false, now - MINUTE);
      assert DayOf(now - MINUTE) < DayOf(now) <= DayOf(t);
    }
  }

  lemma OnlyLastMinuteInGrace(u: Time, now: Time)
    requires u % MINUTE == 0 && StillRunnable(u, now) && DayOf(u) < DayOf(now)
    ensures now % DAY == 0 && u == now - MINUTE
  {
    SlotTimeOf(u);
    var start := DayOf(now) * DAY;
    assert u <= start - MINUTE by {
      assert u == DayOf(u) * DAY + MinuteOfDay(u) * MINUTE;
    }
  }

  /** The schedule that shows it: Sundays at 23:59, asked at the start of a Monday. */
  lemma MidnightSlotMissed()
    ensures var es := [DayTimes(0, [Clock(1439)])];
            && IsSlot(es, DAY - MINUTE) && StillRunnable(DAY - MINUTE, DAY)
            && !IsNext(es, DAY, false, DAY - MINUTE)
  {
    ClockRoundTrip(1439);
    var v := Clock(1439);
    assert v in [v] && ParseTimeOfDay(v) == Some(1439);
  }

  ghost predicate DistinctDays(es: seq<DayTimes>) {
    forall i, j :: 0 <= i < j < |es| ==> es[i].day != es[j].day
  }

  /** Every time written for a day also stands in the first entry of that day. */
  ghost predicate FirstEntriesCover(es: seq<DayTimes>) {
    forall e, m: nat :: e in es && Lists(e.times, m) ==> Lists(TimesForDay(es, e.day), m)
  }

  lemma {:induction false} TimesForDayOfEntry(es: seq<DayTimes>, e: DayTimes)
    requires e in es && DistinctDays(es)
    ensures TimesForDay(es, e.day) == e.times
  {
    if es[0] != e {
      assert es == [es[0]] + es[1..];
      assert e in es[1..];
      var k :| 1 <= k < |es| && es[k] == e;
      assert es[0].day != es[k].day;
      TimesForDayOfEntry(es[1..], e);
    }
  }

  lemma DistinctDaysCover(es: seq<DayTimes>)
    requires DistinctDays(es)
    ensures FirstEntriesCover(es)
  {
    forall e, m: nat | e in es && Lists(e.times, m) ensures Lists(TimesForDay(es, e.day), m) {
      TimesForDayOfEntry(es, e);
    }
  }

  lemma {:induction false} FirstEntryIsEntry(es: seq<DayTimes>, day: int) returns (e: DayTimes)
    requires TimesForDay(es, day) != []
    ensures e in es && e.day == day && e.times == TimesForDay(es, day)
  {
    if es[0].day == day {
      e := es[0];
    } else {
      e := FirstEntryIsEntry(es[1..], day);
    }
  }

  lemma SlotIsWritten(es: seq<DayTimes>, t: Time)
    requires IsSlot(es, t)
    ensures IsWrittenSlot(es, t)
  {
    var e := FirstEntryIsEntry(es, Weekday(t));
  }

  lemma CoveredSlots(es: seq<DayTimes>)
    requires FirstEntriesCover(es)
    ensures forall t :: IsSlot(es, t) <==> IsWrittenSlot(es, t)
  {
    forall t | IsSlot(es, t) ensures IsWrittenSlot(es, t) { SlotIsWritten(es, t); }
  }

  /** With one entry per day the scan serves the schedule as written, in either order of entries. */
  lemma DistinctDaysServeTheWrittenSchedule(es: seq<DayTimes>)
    requires DistinctDays(es)
    ensures forall t :: IsSlot(Normalized(es), t) <==> IsWrittenSlot(es, t)
  {
    var norm := Normalized(es);
    NormalizedDistinct(es);
    DistinctDaysCover(norm);
    CoveredSlots(norm);
    forall t ensures IsWrittenSlot(norm, t) <==> IsWrittenSlot(es, t) { WrittenSlotsNormalized(es, t); }
  }

  lemma WrittenSlotsNormalized(es: seq<DayTimes>, t: Time)
    ensures IsWrittenSlot(Normalized(es), t) <==> IsWrittenSlot(es, t)
  {
    NormalizedMembers(es);
    if IsWrittenSlot(es, t) {
      var e :| e in es && e.day == Weekday(t) && Lists(e.times, MinuteOfDay(t));
      SortKeepsTimes(e);
      assert Lists(SortTimesOf(e).times, MinuteOfDay(t));
    }
    if IsWrittenSlot(Normalized(es), t) {
      var e' :| e' in Normalized(es) && e'.day == Weekday(t) && Lists(e'.times, MinuteOfDay(t));
      var e :| e in es && e' == SortTimesOf(e);
      SortKeepsTimes(e);
      assert Lists(e.times, MinuteOfDay(t));
    }
  }

  lemma NormalizedDistinct(es: seq<DayTimes>)
    requires DistinctDays(es)
    ensures DistinctDays(Normalized(es))
  {
    SortDaysDistinct(es);
  }

  lemma {:induction false} SortDaysDistinct(es: seq<DayTimes>)
    requires DistinctDays(es)
    ensures DistinctDays(SortDays(es))
  {
    if es != [] {
      var init, last := es[..|es| - 1], es[|es| - 1];
      SortDaysDistinct(init);
      forall x | x in SortDays(init) ensures x.day != last.day {
        assert x in multiset(SortDays(init));
        assert x in init;
      }
      InsertDayDistinct(last, SortDays(init));
    }
  }

  lemma InsertDayMembers(e: DayTimes, es: seq<DayTimes>)
    ensures forall x :: x in InsertDay(e, es) <==> x in es || x == e
  {
    forall x ensures x in InsertDay(e, es) <==> x in es || x == e {
      assert x in InsertDay(e, es) <==> x in multiset(InsertDay(e, es));
    }
  }

  lemma {:induction false} InsertDayDistinct(e: DayTimes, es: seq<DayTimes>)
    requires DistinctDays(es) && forall x :: x in es ==> x.day != e.day
    ensures DistinctDays(InsertDay(e, es))
  {
    if es != [] {
      assert es[0] in es;
      InsertDayMembers(e, es[1..]);
      if e.day >= es[0].day {
        InsertDayDistinct(e, es[1..]);
        PutFirst(es[0], InsertDay(e, es[1..]));
      } else {
        PutFirst(e, es);
      }
    }
  }

  lemma PutFirst(e: DayTimes, es: seq<DayTimes>)
    requires DistinctDays(es) && forall x :: x in es ==> x.day != e.day
    ensures DistinctDays([e] + es)
  {
  }

  /**
    Exactly when an after-run scan serves every slot as written: when no entry of a day adds a time
    its first entry lacks. Validation does not reject the other schedules.
   */
  lemma ScanServesWrittenSlots(es: seq<DayTimes>)
    requires ValidDays(es)
    ensures (forall now, t :: IsNext(es, now, true, t) ==>
               IsWrittenSlot(es, t) && forall u :: IsWrittenSlot(es, u) && u > now ==> t <= u)
            <==> FirstEntriesCover(es)
  {
    if FirstEntriesCover(es) {
      CoveredSlots(es);
      forall now, t | IsNext(es, now, true, t)
        ensures IsWrittenSlot(es, t) && forall u :: IsWrittenSlot(es, u) && u > now ==> t <= u
      {
        AfterRunIsEarliest(es, now, t);
      }
    } else {
      var e, m: nat :| e in es && Lists(e.times, m) && !Lists(TimesForDay(es, e.day), m);
      UnservedIsWritten(es, e, m);
      var u := SlotTime(e.day, m);
      var t := JustBefore(es, u);
      assert IsNext(es, u - 1, true, t) && IsWrittenSlot(es, u) && u > u - 1 && !(t <= u);
    }
  }

  /**
    A valid schedule that loses a slot: 09:00 and 10:00 on Sunday, written as two entries. Just
    before 10:00 the scan answers with a later time.
   */
  lemma SecondEntryIsSkipped() returns (t: Time)
    ensures var es := [DayTimes(0, [Clock(540)]), DayTimes(0, [Clock(600)])];
      && ValidDays(es) && !FirstEntriesCover(es)
      && IsWrittenSlot(es, SlotTime(0, 600)) && !IsSlot(es, SlotTime(0, 600))
      && IsNext(es, SlotTime(0, 600) - 1, true, t) && SlotTime(0, 600) < t
  {
    var a, b := DayTimes(0, [Clock(540)]), DayTimes(0, [Clock(600)]);
    var es := [a, b];
    OneTimeIsValid(0, 540);
    OneTimeIsValid(0, 600);
    assert ValidDays(es);
    assert TimesForDay(es, 0) == a.times;
    ClockRoundTrip(600);
    ClockRoundTrip(540);
    assert b in es && Clock(600) in b.times && Lists(b.times, 600);
    assert !Lists(a.times, 600);
    UnservedIsWritten(es, b, 600);
    t := JustBefore(es, SlotTime(0, 600));
  }

  lemma OneTimeIsValid(day: int, m: nat)
    requires 0 <= day <= 6 && m < MINUTES_PER_DAY
    ensures ValidDay(DayTimes(day, [Clock(m)]))
  {
    ClockRoundTrip(m);
    var ts := [Clock(m)];
    assert multiset(ts) == multiset{Clock(m)};
    assert forall v :: v in ts ==> v == Clock(m);
  }

  /** Just before a written time that is no slot, the scan answers with a later one. */
  lemma JustBefore(es: seq<DayTimes>, u: Time) returns (t: Time)
    requires ValidDays(es) && !IsSlot(es, u)
    ensures IsNext(es, u - 1, true, t) && u < t
  {
    assert es[0] in es;
    var far := SlotInSecondWeek(es, u - 1, true);
    t := LeastSlotAfter(es, u - 1, far);
    AfterRunIsEarliest(es, u - 1, t);
  }

  lemma UnservedIsWritten(es: seq<DayTimes>, e: DayTimes, m: nat)
    requires ValidDays(es) && e in es && Lists(e.times, m) && !Lists(TimesForDay(es, e.day), m)
    ensures IsWrittenSlot(es, SlotTime(e.day, m)) && !IsSlot(es, SlotTime(e.day, m))
  {
    var v :| v in e.times && ParseTimeOfDay(v) == Some(m);
    SlotTimeParts(e.day, m);
    assert ValidDay(e) && e.day % 7 == e.day;
  }

  lemma {:induction false} LeastSlotAfter(es: seq<DayTimes>, now: Time, far: Time) returns (t: Time)
    requires Eligible(es, now, true, far)
    ensures IsEarliest(es, now, true, t)
    decreases far - now
  {
    if u :| Eligible(es, now, true, u) && u < far {
      t := LeastSlotAfter(es, now, u);
    } else {
      t := far;
    }
  }
}

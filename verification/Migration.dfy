/**
  A migration run from Docker Desktop: preflight, configuration, images, volumes, containers, builds
  (backend/internal/migration/docker_desktop.go). The answers of both engines and of the file
  system are the fields of a World.
 */
module Migration {
  import opened Options
  import opened Compose

  datatype Phase = Running | Failed | Completed

  datatype Error =
    | NoError | SocketNotFound | CliNotFound | DockerDesktopNotRunning | CalfNotConfigured | CalfNotRunning
    | StagingFailed | DiskTooSmall | ConfigNotSaved | ImagesNotListed | VolumesNotListed
    | ContainersNotListed | MountsNotCreated

  datatype Stage = Preflight | Config | Images | Volumes | Containers | Builds | Done

  datatype Count = Count(total: nat, ok: nat)

  datatype Summary = Summary(configApplied: bool, images: Count, volumes: Count, containers: Count, builds: Count)

  datatype Status = Status(phase: Phase, step: Stage, progress: nat, summary: Summary, error: Error)

  /** The current status and all the statuses reported so far. */
  datatype Trace = Trace(status: Status, log: seq<Status>)

  const Zero := Count(0, 0)
  const InitialStatus := Status(Running, Preflight, 0, Summary(false, Zero, Zero, Zero, Zero), NoError)

  datatype ImageAnswer = ImageAnswer(saveOk: bool, loadOk: bool)
  datatype VolumeAnswer = VolumeAnswer(exportOk: bool, createOk: bool, importOk: bool)

  /** `containers` holds one entry per listed id, None where inspecting it fails. */
  datatype World = World(
    socketFound: bool, cliFound: bool, desktopUp: bool, calfConfigured: bool, calfUp: bool, stagingOk: bool,
    diskOk: bool,
    hasSettings: bool, saveConfigOk: bool,
    images: Option<seq<ImageAnswer>>,
    volumes: Option<seq<VolumeAnswer>>,
    containers: Option<seq<Option<Container>>>,
    mountsOk: bool, composeUp: set<string>,
    hasBuildSink: bool, history: Option<nat>, fallback: Option<nat>)

  // ----- Reports -----

  function Emit(t: Trace): Trace { t.(log := t.log + [t.status]) }

  function Enter(t: Trace, step: Stage, progress: nat): Trace {
    Emit(t.(status := t.status.(step := step, progress := progress)))
  }

  function WithProgress(t: Trace, progress: nat): Trace { t.(status := t.status.(progress := progress)) }

  function WithSummary(t: Trace, summary: Summary): Trace { t.(status := t.status.(summary := summary)) }

  function Fail(t: Trace, error: Error): Trace { Emit(t.(status := t.status.(phase := Failed, error := error))) }

  datatype Part = ImagePart | VolumePart | ContainerPart

  function CountOf(s: Summary, part: Part): Count {
    match part case ImagePart => s.images case VolumePart => s.volumes case ContainerPart => s.containers
  }

  function SetCount(s: Summary, part: Part, c: Count): Summary {
    match part
    case ImagePart => s.(images := c)
    case VolumePart => s.(volumes := c)
    case ContainerPart => s.(containers := c)
  }

  function SetTotal(t: Trace, part: Part, total: nat): Trace {
    var s := t.status.summary;
    Emit(WithSummary(t, SetCount(s, part, CountOf(s, part).(total := total))))
  }

  function Counted(s: Summary, part: Part, n: nat): Summary {
    SetCount(s, part, CountOf(s, part).(ok := CountOf(s, part).ok + n))
  }

  function AddOk(t: Trace, part: Part, n: nat): Trace { Emit(WithSummary(t, Counted(t.status.summary, part, n))) }

  // ----- The item loops -----

  /** Skipped items leave no second report; failed ones report without counting. */
  datatype Outcome = Skipped | NotImported | Imported

  function ImageOutcome(a: ImageAnswer): Outcome {
    if !a.saveOk then Skipped else if a.loadOk then Imported else NotImported
  }

  function VolumeOutcome(a: VolumeAnswer): Outcome {
    if !a.exportOk || !a.createOk then Skipped else if a.importOk then Imported else NotImported
  }

  function ContainerOutcome(c: Container, running: map<string, bool>): Outcome {
    if !c.createOk || (Lookup(running, Name(c)) && !c.startOk) then Skipped else Imported
  }

  function ImageOutcomes(answers: seq<ImageAnswer>): (os: seq<Outcome>)
    ensures |os| == |answers| && forall i :: 0 <= i < |os| ==> os[i] == ImageOutcome(answers[i])
  {
    seq(|answers|, i requires 0 <= i < |answers| => ImageOutcome(answers[i]))
  }

  function VolumeOutcomes(answers: seq<VolumeAnswer>): (os: seq<Outcome>)
    ensures |os| == |answers| && forall i :: 0 <= i < |os| ==> os[i] == VolumeOutcome(answers[i])
  {
    seq(|answers|, i requires 0 <= i < |answers| => VolumeOutcome(answers[i]))
  }

  function ContainerOutcomes(cs: seq<Container>, running: map<string, bool>): (os: seq<Outcome>)
    ensures |os| == |cs| && forall i :: 0 <= i < |os| ==> os[i] == ContainerOutcome(cs[i], running)
  {
    seq(|cs|, i requires 0 <= i < |cs| => ContainerOutcome(cs[i], running))
  }

  function Max(a: nat, b: nat): nat { if a > b then a else b }

  function Share(base: nat, span: nat, index: nat, n: nat): nat { base + (index * span) / Max(n, 1) }

  function Item(t: Trace, part: Part, progress: nat, o: Outcome): Trace {
    var u := Emit(WithProgress(t, progress));
    match o
    case Skipped => u
    case NotImported => Emit(u)
    case Imported => AddOk(u, part, 1)
  }

  function Shares(base: nat, span: nat, n: nat): (ps: seq<nat>)
    ensures |ps| == n && forall i :: 0 <= i < n ==> ps[i] == Share(base, span, i, n)
  {
    seq(n, i requires 0 <= i < n => Share(base, span, i, n))
  }

  /** After the first k items, each reported at its own progress. */
  function Items(t: Trace, part: Part, ps: seq<nat>, os: seq<Outcome>, k: nat): Trace
    requires k <= |os| == |ps|
  {
    if k == 0 then t else Item(Items(t, part, ps, os, k - 1), part, ps[k - 1], os[k - 1])
  }

  /** All items of a part, which takes `span` percent from `base` on. */
  function AllItems(t: Trace, part: Part, base: nat, span: nat, os: seq<Outcome>): Trace {
    Items(t, part, Shares(base, span, |os|), os, |os|)
  }

  function Successes(os: seq<Outcome>): (n: nat)
    ensures n <= |os|
  {
    if os == [] then 0 else Successes(os[..|os| - 1]) + if os[|os| - 1] == Imported then 1 else 0
  }

  // ----- The containers step -----

  function Inspected(ids: seq<Option<Container>>): (cs: seq<Container>)
    ensures |cs| <= |ids|
  {
    if ids == [] then []
    else
      var init, last := Inspected(ids[..|ids| - 1]), ids[|ids| - 1];
      if last.Some? then init + [last.value] else init
  }

  function RunningOf(cs: seq<Container>): map<string, bool> {
    if cs == [] then map[]
    else var last := cs[|cs| - 1]; RunningOf(cs[..|cs| - 1])[Name(last) := last.wasRunning]
  }

  function StoppedOf(cs: seq<Container>, running: map<string, bool>): seq<string> {
    if cs == [] then []
    else
      var init, last := StoppedOf(cs[..|cs| - 1], running), cs[|cs| - 1];
      if Lookup(running, Name(last)) && last.stopOk then init + [Name(last)] else init
  }

  function NamesOf(cs: seq<Container>): set<string> { set c | c in cs :: Name(c) }

  /** The names recorded as migrated after the first k groups. */
  function MigratedOf(gs: seq<Group>, up: set<string>): set<string> {
    if gs == [] then {}
    else
      var last := gs[|gs| - 1];
      MigratedOf(gs[..|gs| - 1], up) + if last.name in up then NamesOf(last.containers) else {}
  }

  function GroupReports(t: Trace, gs: seq<Group>, up: set<string>): Trace {
    if gs == [] then t
    else
      var u, last := Emit(GroupReports(t, gs[..|gs| - 1], up)), gs[|gs| - 1];
      if last.name in up then AddOk(u, ContainerPart, |last.containers|) else u
  }

  function Unmigrated(cs: seq<Container>, migrated: set<string>): (r: seq<Container>)
    ensures |r| <= |cs|
  {
    if cs == [] then []
    else
      var init, last := Unmigrated(cs[..|cs| - 1], migrated), cs[|cs| - 1];
      if Name(last) in migrated then init else init + [last]
  }

  function Remaining(cs: seq<Container>, gs: seq<Group>, migrated: set<string>): seq<Container> {
    Members(cs, "") + Unmigrated(Flatten(gs), migrated)
  }

  function Restarted(stopped: seq<string>, migrated: set<string>): seq<string> {
    if stopped == [] then []
    else
      var init, last := Restarted(stopped[..|stopped| - 1], migrated), stopped[|stopped| - 1];
      if last in migrated then init else init + [last]
  }

  datatype Step = Step(trace: Trace, error: Error)

  /** The containers listed, or none. */
  function Listed(w: World): seq<Container> {
    if w.containers.Some? then Inspected(w.containers.value) else []
  }

  function MigratedNames(w: World): set<string> {
    if w.mountsOk then MigratedOf(Groups(Listed(w), RunningOf(Listed(w))), w.composeUp) else {}
  }

  /** The source containers the step stops, and those it starts again when it returns. */
  function Stops(w: World): seq<string> { StoppedOf(Listed(w), RunningOf(Listed(w))) }
  function Restarts(w: World): seq<string> { Restarted(Stops(w), MigratedNames(w)) }

  function ConfigStep(t: Trace, w: World): Step {
    var u := Enter(t, Config, 5);
    if !w.hasSettings then Step(u, NoError)
    else if !w.saveConfigOk then Step(u, ConfigNotSaved)
    else Step(Emit(WithSummary(u, u.status.summary.(configApplied := true))), NoError)
  }

  function ImagesStep(t: Trace, w: World): Step {
    var u := Enter(t, Images, t.status.progress);
    match w.images
    case None => Step(u, ImagesNotListed)
    case Some(answers) =>
      Step(AllItems(SetTotal(u, ImagePart, |answers|), ImagePart, 10, 35, ImageOutcomes(answers)), NoError)
  }

  function VolumesStep(t: Trace, w: World): Step {
    var u := Enter(t, Volumes, 50);
    match w.volumes
    case None => Step(u, VolumesNotListed)
    case Some(answers) =>
      Step(AllItems(SetTotal(u, VolumePart, |answers|), VolumePart, 50, 20, VolumeOutcomes(answers)), NoError)
  }

  function ContainersStep(t: Trace, w: World): Step {
    var u := Enter(t, Containers, 75);
    match w.containers
    case None => Step(u, ContainersNotListed)
    case Some(ids) =>
      var v := SetTotal(u, ContainerPart, |ids|);
      var cs := Inspected(ids);
      if !w.mountsOk then Step(v, MountsNotCreated)
      else
        var gs := Groups(cs, RunningOf(cs));
        var rest := Remaining(cs, gs, MigratedNames(w));
        Step(AllItems(GroupReports(v, gs, w.composeUp), ContainerPart, 75, 20,
            ContainerOutcomes(rest, RunningOf(cs))), NoError)
  }

  function ImportBuilds(t: Trace, n: nat): Trace {
    var u := Emit(WithSummary(t, t.status.summary.(builds := t.status.summary.builds.(total := n))));
    var s := u.status.summary;
    Emit(WithSummary(u, s.(builds := s.builds.(ok := s.builds.ok + n))))
  }

  function BuildsStep(t: Trace, w: World): Trace {
    var u := Enter(t, Builds, 95);
    if !w.hasBuildSink then u
    else if w.history.Some? then ImportBuilds(u, w.history.value)
    else if w.fallback.Some? then ImportBuilds(u, w.fallback.value)
    else u
  }

  function Finish(t: Trace): Trace {
    Emit(t.(status := t.status.(phase := Completed, step := Done, progress := 100)))
  }

  function PreflightError(w: World): Error {
    if !w.socketFound then SocketNotFound
    else if !w.cliFound then CliNotFound
    else if !w.desktopUp then DockerDesktopNotRunning
    else if !w.calfConfigured then CalfNotConfigured
    else if !w.calfUp then CalfNotRunning
    else if !w.stagingOk then StagingFailed
    else NoError
  }

  /** The containers step is reached: every earlier one went through. */
  predicate ReachesContainers(w: World) {
    && PreflightError(w) == NoError && w.diskOk && !(w.hasSettings && !w.saveConfigOk)
    && w.images.Some? && w.volumes.Some?
  }

  function LastSteps(t: Trace, w: World): Trace {
    var k := ContainersStep(t, w);
    if k.error != NoError then Fail(k.trace, k.error) else Finish(BuildsStep(k.trace, w))
  }

  function MiddleSteps(t: Trace, w: World): Trace {
    var i := ImagesStep(t, w);
    if i.error != NoError then Fail(i.trace, i.error)
    else
      var v := VolumesStep(i.trace, w);
      if v.error != NoError then Fail(v.trace, v.error) else LastSteps(v.trace, w)
  }

  function Run(w: World): Trace {
    var t0 := Emit(Trace(InitialStatus, []));
    if PreflightError(w) != NoError then Fail(t0, PreflightError(w))
    else
      var t1 := Enter(t0, Preflight, 2);
      if !w.diskOk then Fail(t1, DiskTooSmall)
      else
        var c := ConfigStep(t1, w);
        if c.error != NoError then Fail(c.trace, c.error)
        else MiddleSteps(c.trace, w)
  }

  // ----- Progress and counters -----

  predicate Fair(c: Count) { c.ok <= c.total }

  predicate Consistent(s: Status) {
    s.progress <= 100 && Fair(s.summary.images) && Fair(s.summary.volumes) && Fair(s.summary.containers) &&
        Fair(s.summary.builds)
  }

  /** What every report keeps: nothing reported so far is ahead of the current status. */
  ghost predicate Good(t: Trace) {
    && Consistent(t.status)
    && (forall i :: 0 <= i < |t.log| ==> Consistent(t.log[i]) && t.log[i].progress <= t.status.progress)
    && (forall i, j :: 0 <= i < j < |t.log| ==> t.log[i].progress <= t.log[j].progress)
  }

  lemma EmitKeeps(t: Trace, status: Status)
    requires Good(t) && Consistent(status) && t.status.progress <= status.progress
    ensures Good(Emit(t.(status := status)))
  {
  }

  lemma ShareBounds(base: nat, span: nat, index: nat, n: nat)
    requires index < n
    ensures base <= Share(base, span, index, n) <= base + span
  {
    MulAtMost(index, n, span);
    var a := index * span;
    QuotientAtMost(a, span, n);
    assert Share(base, span, index, n) == base + a / n;
  }

  lemma SharesRise(base: nat, span: nat, n: nat)
    ensures Rising(Shares(base, span, n), base, base + span)
  {
    forall i | 0 <= i < n ensures base <= Share(base, span, i, n) <= base + span { ShareBounds(base, span, i, n); }
    forall i | 0 < i < n ensures Share(base, span, i - 1, n) <= Share(base, span, i, n) {
      MulAtMost(i - 1, i, span);
      QuotientGrows((i - 1) * span, i * span, n);
    }
  }

  ghost predicate Rising(ps: seq<nat>, low: nat, high: nat) {
    && (forall i :: 0 <= i < |ps| ==> low <= ps[i] <= high)
    && (forall i :: 0 < i < |ps| ==> ps[i - 1] <= ps[i])
  }

  lemma QuotientGrows(a: nat, b: nat, n: nat)
    requires a <= b && n > 0
    ensures a / n <= b / n
  {
    var q, r := a / n, b / n;
    assert n * q <= a by { DivRemainder(a, n); }
    assert b < n * (r + 1) by { DivRemainder(b, n); }
    Cancel(n, q, r + 1);
  }

  lemma MulAtMost(a: nat, b: nat, c: nat)
    requires a <= b
    ensures a * c <= b * c
  {
    assert b * c == a * c + (b - a) * c;
  }

  lemma DivRemainder(a: nat, n: nat)
    requires n > 0
    ensures n * (a / n) <= a < n * (a / n + 1)
  {
    assert a == n * (a / n) + a % n;
  }

  lemma Cancel(n: nat, x: int, y: int)
    requires n * x < n * y
    ensures x < y
  {
    assert n * (y - x) == n * y - n * x;
  }

  lemma QuotientAtMost(a: nat, q: nat, n: nat)
    requires n > 0 && a <= n * q
    ensures a / n <= q
  {
    DivRemainder(a, n);
    Cancel(n, a / n, q + 1);
  }

  lemma {:induction false} SuccessesStep(os: seq<Outcome>, k: nat)
    requires k < |os|
    ensures Successes(os[..k + 1]) == Successes(os[..k]) + if os[k] == Imported then 1 else 0
  {
    assert os[..k + 1][..k] == os[..k];
  }

  lemma CountedAdds(s: Summary, part: Part, m: nat, n: nat)
    ensures Counted(Counted(s, part, m), part, n) == Counted(s, part, m + n)
    ensures CountOf(Counted(s, part, m), part) == Count(CountOf(s, part).total, CountOf(s, part).ok + m)
    ensures Counted(s, part, 0) == s
  {
  }

  lemma {:induction false} ItemsKeep(t: Trace, part: Part, ps: seq<nat>, high: nat, os: seq<Outcome>, k: nat)
    requires k <= |os| == |ps| && Good(t) && t.status.progress <= high <= 100
    requires Rising(ps, t.status.progress, high)
    requires CountOf(t.status.summary, part).ok + |os| <= CountOf(t.status.summary, part).total
    ensures var u := Items(t, part, ps, os, k);
      && Good(u)
      && u.status.progress == (if k > 0 then ps[k - 1] else t.status.progress)
      && u.status.summary == Counted(t.status.summary, part, Successes(os[..k]))
  {
    CountedAdds(t.status.summary, part, 0, 0);
    if k > 0 {
      ItemsKeep(t, part, ps, high, os, k - 1);
      SuccessesStep(os, k - 1);
      CountedAdds(t.status.summary, part, Successes(os[..k - 1]), if os[k - 1] == Imported then 1 else 0);
      ItemKeeps(Items(t, part, ps, os, k - 1), part, ps[k - 1], os[k - 1]);
    }
  }

  /** The items of a part count one success each and move the progress forward inside its span. */
  lemma AllItemsKeep(t: Trace, part: Part, base: nat, span: nat, os: seq<Outcome>)
    requires Good(t) && t.status.progress <= base && base + span <= 100
    requires CountOf(t.status.summary, part).ok + |os| <= CountOf(t.status.summary, part).total
    ensures var u := AllItems(t, part, base, span, os);
      && Good(u) && u.status.progress <= base + span
      && u.status.summary == Counted(t.status.summary, part, Successes(os))
  {
    SharesRise(base, span, |os|);
    ItemsKeep(t, part, Shares(base, span, |os|), base + span, os, |os|);
    assert os[..|os|] == os;
  }

  lemma ItemKeeps(t: Trace, part: Part, p: nat, o: Outcome)
    requires Good(t) && t.status.progress <= p <= 100
    requires CountOf(t.status.summary, part).ok < CountOf(t.status.summary, part).total
    ensures Good(Item(t, part, p, o)) && Item(t, part, p, o).status.progress == p
    ensures Item(t, part, p, o).status.summary == Counted(t.status.summary, part, if o == Imported then 1 else 0)
  {
    var s := t.status.(progress := p);
    EmitKeeps(t, s);
    var u := Emit(WithProgress(t, p));
    EmitKeeps(u, u.status);
    CountedAdds(s.summary, part, 0, 0);
    if o == Imported { EmitKeeps(u, s.(summary := Counted(s.summary, part, 1))); }
  }

  // ----- Containers are counted at most once -----

  function ImportedSize(gs: seq<Group>, up: set<string>): nat {
    if gs == [] then 0
    else ImportedSize(gs[..|gs| - 1], up) + if gs[|gs| - 1].name in up then |gs[|gs| - 1].containers| else 0
  }

  lemma {:induction false} UnmigratedAppend(a: seq<Container>, b: seq<Container>, m: set<string>)
    ensures Unmigrated(a + b, m) == Unmigrated(a, m) + Unmigrated(b, m)
  {
    if b == [] {
      assert a + b == a;
    } else {
      UnmigratedAppend(a, b[..|b| - 1], m);
      assert (a + b)[..|a + b| - 1] == a + b[..|b| - 1];
    }
  }

  lemma {:induction false} AllMigrated(cs: seq<Container>, m: set<string>)
    requires forall c <- cs :: Name(c) in m
    ensures Unmigrated(cs, m) == []
  {
    if cs != [] { assert cs[|cs| - 1] in cs; AllMigrated(cs[..|cs| - 1], m); }
  }

  /** Imported and left-over grouped containers never outnumber the grouped ones. */
  lemma {:induction false} GroupedOnce(gs: seq<Group>, up: set<string>, m: set<string>)
    requires MigratedOf(gs, up) <= m
    ensures ImportedSize(gs, up) + |Unmigrated(Flatten(gs), m)| <= |Flatten(gs)|
  {
    if gs != [] {
      var init, last := gs[..|gs| - 1], gs[|gs| - 1];
      GroupedOnce(init, up, m);
      UnmigratedAppend(Flatten(init), last.containers, m);
      if last.name in up {
        forall c | c in last.containers ensures Name(c) in m { assert Name(c) in NamesOf(last.containers); }
        AllMigrated(last.containers, m);
      }
    }
  }

  lemma {:induction false} GroupReportsKeep(t: Trace, gs: seq<Group>, up: set<string>)
    requires Good(t)
    requires t.status.summary.containers.ok + ImportedSize(gs, up) <= t.status.summary.containers.total
    ensures var u := GroupReports(t, gs, up);
      && Good(u) && u.status.progress == t.status.progress
      && u.status.summary == Counted(t.status.summary, ContainerPart, ImportedSize(gs, up))
  {
    var s := t.status.summary;
    CountedAdds(s, ContainerPart, 0, 0);
    if gs != [] {
      var init, last := gs[..|gs| - 1], gs[|gs| - 1];
      GroupReportsKeep(t, init, up);
      var u := GroupReports(t, init, up);
      EmitKeeps(u, u.status);
      if last.name in up {
        CountedAdds(s, ContainerPart, ImportedSize(init, up), |last.containers|);
        EmitKeeps(Emit(u), u.status.(summary := Counted(u.status.summary, ContainerPart, |last.containers|)));
      }
    }
  }

  /** How many containers end up counted: whole imported projects, then the others one by one. */
  function ContainersMigrated(w: World): nat {
    var cs := Listed(w);
    var gs := Groups(cs, RunningOf(cs));
    ImportedSize(gs, w.composeUp)
    + Successes(ContainerOutcomes(Remaining(cs, gs, MigratedNames(w)), RunningOf(cs)))
  }

  lemma ContainersFit(cs: seq<Container>, running: map<string, bool>, up: set<string>)
    ensures var gs := Groups(cs, running);
      ImportedSize(gs, up) + |Remaining(cs, gs, MigratedOf(gs, up))| <= |cs|
  {
    var gs := Groups(cs, running);
    GroupedOnce(gs, up, MigratedOf(gs, up));
    GroupingPartitions(cs, running);
    assert |multiset(Members(cs, "")) + multiset(Flatten(gs))| == |multiset(cs)|;
  }

  // ----- Each step -----

  ghost predicate Untouched(s: Summary, part: Part) { CountOf(s, part) == Zero }

  lemma ImagesKeep(t: Trace, w: World)
    requires Good(t) && t.status.progress <= 10 && Untouched(t.status.summary, ImagePart)
    ensures var u := ImagesStep(t, w).trace;
      && Good(u) && u.status.progress <= 45
      && (w.images.Some? ==>
            var done := Count(|w.images.value|, Successes(ImageOutcomes(w.images.value)));
            u.status.summary == t.status.summary.(images := done))
  {
    var u := Enter(t, Images, t.status.progress);
    EmitKeeps(t, u.status);
    if w.images.Some? {
      var os := ImageOutcomes(w.images.value);
      var s := u.status.summary.(images := Count(|os|, 0));
      EmitKeeps(u, u.status.(summary := s));
      AllItemsKeep(SetTotal(u, ImagePart, |os|), ImagePart, 10, 35, os);
    }
  }

  lemma VolumesKeep(t: Trace, w: World)
    requires Good(t) && t.status.progress <= 50 && Untouched(t.status.summary, VolumePart)
    ensures var u := VolumesStep(t, w).trace;
      && Good(u) && u.status.progress <= 70
      && (w.volumes.Some? ==>
            var done := Count(|w.volumes.value|, Successes(VolumeOutcomes(w.volumes.value)));
            u.status.summary == t.status.summary.(volumes := done))
  {
    var u := Enter(t, Volumes, 50);
    EmitKeeps(t, u.status);
    if w.volumes.Some? {
      var os := VolumeOutcomes(w.volumes.value);
      EmitKeeps(u, u.status.(summary := u.status.summary.(volumes := Count(|os|, 0))));
      AllItemsKeep(SetTotal(u, VolumePart, |os|), VolumePart, 50, 20, os);
    }
  }

  /** Groups first, then the remaining containers. */
  lemma ImportsKeep(v: Trace, gs: seq<Group>, up: set<string>, os: seq<Outcome>)
    requires Good(v) && v.status.progress == 75 && v.status.summary.containers.ok == 0
    requires ImportedSize(gs, up) + |os| <= v.status.summary.containers.total
    ensures var u := AllItems(GroupReports(v, gs, up), ContainerPart, 75, 20, os);
      && Good(u) && u.status.progress <= 95
      && u.status.summary == v.status.summary.(containers :=
           Count(v.status.summary.containers.total, ImportedSize(gs, up) + Successes(os)))
  {
    GroupReportsKeep(v, gs, up);
    CountedAdds(v.status.summary, ContainerPart, ImportedSize(gs, up), Successes(os));
    AllItemsKeep(GroupReports(v, gs, up), ContainerPart, 75, 20, os);
  }

  lemma ContainersKeep(t: Trace, w: World)
    requires Good(t) && t.status.progress <= 75 && Untouched(t.status.summary, ContainerPart)
    ensures var k := ContainersStep(t, w);
      && Good(k.trace) && k.trace.status.progress <= 95
      && (k.error == NoError ==>
            k.trace.status.summary ==
              t.status.summary.(containers := Count(|w.containers.value|, ContainersMigrated(w))))
  {
    var u := Enter(t, Containers, 75);
    EmitKeeps(t, u.status);
    if w.containers.Some? {
      var n, cs := |w.containers.value|, Inspected(w.containers.value);
      var v := SetTotal(u, ContainerPart, n);
      EmitKeeps(u, u.status.(summary := u.status.summary.(containers := Count(n, 0))));
      if w.mountsOk {
        var gs := Groups(cs, RunningOf(cs));
        ContainersFit(cs, RunningOf(cs), w.composeUp);
        ImportsKeep(v, gs, w.composeUp, ContainerOutcomes(Remaining(cs, gs, MigratedNames(w)), RunningOf(cs)));
      }
    }
  }

  /** The build records the run hands on: none without a receiver, else those of the first listing that works. */
  function BuildsListed(w: World): nat {
    if !w.hasBuildSink then 0
    else if w.history.Some? then w.history.value
    else if w.fallback.Some? then w.fallback.value
    else 0
  }

  lemma BuildsKeep(t: Trace, w: World)
    requires Good(t) && t.status.progress <= 95 && t.status.summary.builds == Zero
    ensures var u := BuildsStep(t, w);
      && Good(u) && u.status.progress == 95
      && u.status.summary == t.status.summary.(builds := Count(BuildsListed(w), BuildsListed(w)))
  {
    var u := Enter(t, Builds, 95);
    EmitKeeps(t, u.status);
    var n := BuildsListed(w);
    var s := u.status.(summary := u.status.summary.(builds := Count(n, 0)));
    EmitKeeps(u, s);
    EmitKeeps(Emit(u.(status := s)), s.(summary := s.summary.(builds := Count(n, n))));
  }

  lemma ConfigKeeps(t: Trace, w: World)
    requires Good(t) && t.status.progress <= 5
    ensures var c := ConfigStep(t, w);
      && Good(c.trace) && c.trace.status.progress == 5
      && c.trace.status.summary == t.status.summary.(configApplied := c.trace.status.summary.configApplied)
  {
    var u := Enter(t, Config, 5);
    EmitKeeps(t, u.status);
    EmitKeeps(u, u.status.(summary := u.status.summary.(configApplied := true)));
  }

  lemma OpeningKeeps()
    ensures var t := Enter(Emit(Trace(InitialStatus, [])), Preflight, 2);
      Good(Emit(Trace(InitialStatus, []))) && Good(t) && t.status.progress == 2 &&
          t.status.summary == InitialStatus.summary
  {
    var t := Trace(InitialStatus, []);
    EmitKeeps(t, InitialStatus);
    EmitKeeps(Emit(t), InitialStatus.(progress := 2));
  }

  lemma FailKeeps(t: Trace, error: Error)
    requires Good(t)
    ensures Good(Fail(t, error))
  {
    EmitKeeps(t, t.status.(phase := Failed, error := error));
  }

  // ----- Main results -----

  /** Every migration run reports rising progress within 0..100 and never counts more successes than items. */
  lemma RunIsGood(w: World)
    ensures Good(Run(w))
  {
    OpeningKeeps();
    var t0 := Emit(Trace(InitialStatus, []));
    FailKeeps(t0, PreflightError(w));
    var t1 := Enter(t0, Preflight, 2);
    FailKeeps(t1, DiskTooSmall);
    ConfigKeeps(t1, w);
    var c := ConfigStep(t1, w);
    FailKeeps(c.trace, c.error);
    ImagesKeep(c.trace, w);
    var i := ImagesStep(c.trace, w);
    FailKeeps(i.trace, i.error);
    if i.error == NoError {
      VolumesKeep(i.trace, w);
      var v := VolumesStep(i.trace, w);
      FailKeeps(v.trace, v.error);
      if v.error == NoError {
        LastStepsKeep(v.trace, w);
      }
    }
  }

  lemma LastStepsKeep(t: Trace, w: World)
    requires Good(t) && t.status.progress <= 75
    requires Untouched(t.status.summary, ContainerPart) && t.status.summary.builds == Zero
    ensures Good(LastSteps(t, w))
  {
    ContainersKeep(t, w);
    var k := ContainersStep(t, w);
    FailKeeps(k.trace, k.error);
    if k.error == NoError {
      BuildsKeep(k.trace, w);
      var b := BuildsStep(k.trace, w);
      EmitKeeps(b, b.status.(phase := Completed, step := Done, progress := 100));
    }
  }

  /** The last report is the status itself. */
  ghost predicate Reported(t: Trace) { t.log != [] && t.log[|t.log| - 1] == t.status }

  lemma EndsReported(t: Trace, error: Error)
    ensures Reported(Fail(t, error)) && Reported(Finish(t))
  {
  }

  lemma LastStepsReported(t: Trace, w: World)
    ensures Reported(LastSteps(t, w))
  {
    var k := ContainersStep(t, w);
    EndsReported(k.trace, k.error);
    EndsReported(BuildsStep(k.trace, w), k.error);
  }

  lemma MiddleStepsReported(t: Trace, w: World)
    ensures Reported(MiddleSteps(t, w))
  {
    var i := ImagesStep(t, w);
    EndsReported(i.trace, i.error);
    var v := VolumesStep(i.trace, w);
    EndsReported(v.trace, v.error);
    LastStepsReported(v.trace, w);
  }

  lemma RunReported(w: World)
    ensures Reported(Run(w))
  {
    var t0 := Emit(Trace(InitialStatus, []));
    EndsReported(t0, PreflightError(w));
    var t1 := Enter(t0, Preflight, 2);
    EndsReported(t1, DiskTooSmall);
    var c := ConfigStep(t1, w);
    EndsReported(c.trace, c.error);
    MiddleStepsReported(c.trace, w);
  }

  /** Reported progress never falls and stays within 0..100; the last report is the returned status. */
  lemma ProgressNeverDecreases(w: World)
    ensures var t := Run(w);
      && Reported(t)
      && (forall i, j :: 0 <= i < j < |t.log| ==> t.log[i].progress <= t.log[j].progress)
      && (forall i :: 0 <= i < |t.log| ==> t.log[i].progress <= 100)
  {
    RunReported(w);
    RunIsGood(w);
  }

  /** In every report no counter exceeds its total. */
  lemma CountersStayWithinTotals(w: World)
    ensures forall r <- Run(w).log ::
      && r.summary.images.ok <= r.summary.images.total && r.summary.volumes.ok <= r.summary.volumes.total
      && r.summary.containers.ok <= r.summary.containers.total && r.summary.builds.ok <= r.summary.builds.total
  {
    RunIsGood(w);
  }

  /** The first thing that stops the run. */
  function FirstError(w: World): Error {
    if PreflightError(w) != NoError then PreflightError(w)
    else if !w.diskOk then DiskTooSmall
    else if w.hasSettings && !w.saveConfigOk then ConfigNotSaved
    else MiddleError(w)
  }

  function LastError(w: World): Error {
    if w.containers.None? then ContainersNotListed
    else if !w.mountsOk then MountsNotCreated
    else NoError
  }

  predicate Ended(s: Status, error: Error) {
    && s.error == error
    && (if error == NoError then s.phase == Completed && s.progress == 100 else s.phase == Failed && s.progress < 100)
  }

  ghost predicate StillRunning(s: Status) { s.phase == Running && s.error == NoError }

  lemma {:induction false} ItemsRun(t: Trace, part: Part, ps: seq<nat>, os: seq<Outcome>, k: nat)
    requires k <= |os| == |ps|
    ensures var u := Items(t, part, ps, os, k);
      u.status.phase == t.status.phase && u.status.error == t.status.error && u.status.step == t.status.step
  {
    if k > 0 { ItemsRun(t, part, ps, os, k - 1); }
  }

  lemma AllItemsRun(t: Trace, part: Part, base: nat, span: nat, os: seq<Outcome>)
    requires StillRunning(t.status)
    ensures StillRunning(AllItems(t, part, base, span, os).status)
  {
    ItemsRun(t, part, Shares(base, span, |os|), os, |os|);
  }

  lemma {:induction false} GroupsRun(t: Trace, gs: seq<Group>, up: set<string>)
    ensures var u := GroupReports(t, gs, up);
      u.status.phase == t.status.phase && u.status.error == t.status.error && u.status.step == t.status.step
  {
    if gs != [] { GroupsRun(t, gs[..|gs| - 1], up); }
  }

  lemma StepsRun(t: Trace, w: World)
    requires StillRunning(t.status)
    ensures StillRunning(ConfigStep(t, w).trace.status)
    ensures StillRunning(ImagesStep(t, w).trace.status)
    ensures StillRunning(VolumesStep(t, w).trace.status)
    ensures StillRunning(ContainersStep(t, w).trace.status)
    ensures StillRunning(BuildsStep(t, w).status)
  {
    if w.images.Some? {
      var n := |w.images.value|;
      AllItemsRun(SetTotal(Enter(t, Images, t.status.progress), ImagePart, n), ImagePart, 10, 35,
          ImageOutcomes(w.images.value));
    }
    if w.volumes.Some? {
      var n := |w.volumes.value|;
      AllItemsRun(SetTotal(Enter(t, Volumes, 50), VolumePart, n), VolumePart, 50, 20, VolumeOutcomes(w.volumes.value));
    }
    if w.containers.Some? && w.mountsOk {
      var cs := Listed(w);
      var v := SetTotal(Enter(t, Containers, 75), ContainerPart, |w.containers.value|);
      var gs := Groups(cs, RunningOf(cs));
      var rest := Remaining(cs, gs, MigratedNames(w));
      GroupsRun(v, gs, w.composeUp);
      AllItemsRun(GroupReports(v, gs, w.composeUp), ContainerPart, 75, 20, ContainerOutcomes(rest, RunningOf(cs)));
    }
  }

  lemma LastStepsEnd(t: Trace, w: World)
    requires StillRunning(t.status)
    requires Good(t) && t.status.progress <= 75 && Untouched(t.status.summary, ContainerPart)
    ensures Ended(LastSteps(t, w).status, LastError(w))
  {
    ContainersKeep(t, w);
    StepsRun(t, w);
    StepsRun(ContainersStep(t, w).trace, w);
  }

  /**
    A run completes, at 100 %, exactly when nothing fatal happens; otherwise it fails with the first
    fatal error, below 100 %.
   */
  lemma CompletesIff(w: World)
    ensures Ended(Run(w).status, FirstError(w))
  {
    OpeningKeeps();
    var t1 := Enter(Emit(Trace(InitialStatus, [])), Preflight, 2);
    StepsRun(t1, w);
    ConfigKeeps(t1, w);
    var c := ConfigStep(t1, w);
    if c.error == NoError { MiddleStepsEnd(c.trace, w); }
  }

  function MiddleError(w: World): Error {
    if w.images.None? then ImagesNotListed
    else if w.volumes.None? then VolumesNotListed
    else LastError(w)
  }

  lemma MiddleStepsEnd(t: Trace, w: World)
    requires StillRunning(t.status) && Good(t) && t.status.progress <= 10
    requires t.status.summary.images == Zero && t.status.summary.volumes == Zero && t.status.summary.containers == Zero
    ensures Ended(MiddleSteps(t, w).status, MiddleError(w))
  {
    StepsRun(t, w);
    ImagesKeep(t, w);
    var i := ImagesStep(t, w);
    if i.error == NoError {
      StepsRun(i.trace, w);
      VolumesKeep(i.trace, w);
      var v := VolumesStep(i.trace, w);
      if v.error == NoError { LastStepsEnd(v.trace, w); }
    }
  }

  /** The preflight error is that of the first check that fails, in this order. */
  lemma PreflightReportsTheFirst(w: World)
    ensures PreflightError(w) == SocketNotFound <==> !w.socketFound
    ensures PreflightError(w) == CliNotFound <==> w.socketFound && !w.cliFound
    ensures PreflightError(w) == DockerDesktopNotRunning <==> w.socketFound && w.cliFound && !w.desktopUp
    ensures PreflightError(w) == CalfNotConfigured <==> w.socketFound && w.cliFound && w.desktopUp && !w.calfConfigured
    ensures PreflightError(w) == NoError <==>
      w.socketFound && w.cliFound && w.desktopUp && w.calfConfigured && w.calfUp && w.stagingOk
  {
  }

  function Indices(os: seq<Outcome>): set<nat> { set i: nat | i < |os| && os[i] == Imported }

  lemma {:induction false} SuccessesAreCounted(os: seq<Outcome>)
    ensures Successes(os) == |Indices(os)|
  {
    if os != [] {
      var init := os[..|os| - 1];
      SuccessesAreCounted(init);
      assert Indices(os) == Indices(init) + if os[|os| - 1] == Imported then {|init|} else {};
    }
  }

  /** An image counts exactly when it was saved and loaded, a volume when it was exported, created and imported. */
  lemma CountsAreOfWholeItems(images: seq<ImageAnswer>, volumes: seq<VolumeAnswer>)
    ensures Successes(ImageOutcomes(images)) == |set i: nat | i < |images| && images[i].saveOk && images[i].loadOk|
    ensures Successes(VolumeOutcomes(volumes)) ==
      |set i: nat | i < |volumes| && volumes[i].exportOk && volumes[i].createOk && volumes[i].importOk|
  {
    SuccessesAreCounted(ImageOutcomes(images));
    SuccessesAreCounted(VolumeOutcomes(volumes));
    assert Indices(ImageOutcomes(images)) == set i: nat | i < |images| && images[i].saveOk && images[i].loadOk;
    assert Indices(VolumeOutcomes(volumes)) ==
      set i: nat | i < |volumes| && volumes[i].exportOk && volumes[i].createOk && volumes[i].importOk;
  }

  /** Where the steps leave the progress: the share of the last item, of 10 to 45, 50 to 70 and 75 to 95 percent. */
  lemma StepsEndAtLastShare(t: Trace, w: World)
    requires w.images.Some? && w.volumes.Some?
    ensures var n := |w.images.value|;
      ImagesStep(t, w).trace.status.progress == if n == 0 then t.status.progress else 10 + ((n - 1) * 35) / n
    ensures var n := |w.volumes.value|;
      VolumesStep(t, w).trace.status.progress == if n == 0 then 50 else 50 + ((n - 1) * 20) / n
    ensures BuildsStep(t, w).status.progress == 95 && ConfigStep(t, w).trace.status.progress == 5
  {
    var n, m := |w.images.value|, |w.volumes.value|;
    ItemsProgress(SetTotal(Enter(t, Images, t.status.progress), ImagePart, n), ImagePart, 10, 35,
        ImageOutcomes(w.images.value));
    ItemsProgress(SetTotal(Enter(t, Volumes, 50), VolumePart, m), VolumePart, 50, 20, VolumeOutcomes(w.volumes.value));
  }

  lemma ItemsProgress(t: Trace, part: Part, base: nat, span: nat, os: seq<Outcome>)
    ensures AllItems(t, part, base, span, os).status.progress ==
      if os == [] then t.status.progress else base + ((|os| - 1) * span) / |os|
  {
    if os != [] { assert Shares(base, span, |os|)[|os| - 1] == Share(base, span, |os| - 1, |os|); }
  }

  /** What a completed run reports: each counter is the number of items whose every command succeeded. */
  lemma FinalCounts(w: World)
    requires FirstError(w) == NoError
    ensures var s := Run(w).status.summary;
      && s.configApplied == w.hasSettings
      && s.images == Count(|w.images.value|,
           |set i: nat | i < |w.images.value| && w.images.value[i].saveOk && w.images.value[i].loadOk|)
      && s.volumes == Count(|w.volumes.value|,
           |set i: nat | i < |w.volumes.value| && w.volumes.value[i].exportOk && w.volumes.value[i].createOk
                         && w.volumes.value[i].importOk|)
      && s.containers == Count(|w.containers.value|, ContainersMigrated(w))
      && s.builds == Count(BuildsListed(w), BuildsListed(w))
  {
    OpeningKeeps();
    var t1 := Enter(Emit(Trace(InitialStatus, [])), Preflight, 2);
    ConfigKeeps(t1, w);
    var c := ConfigStep(t1, w).trace;
    ImagesKeep(c, w);
    var i := ImagesStep(c, w).trace;
    VolumesKeep(i, w);
    var v := VolumesStep(i, w).trace;
    ContainersKeep(v, w);
    BuildsKeep(ContainersStep(v, w).trace, w);
    CountsAreOfWholeItems(w.images.value, w.volumes.value);
  }

  // ----- The source is left as it was found, up to imported projects -----

  ghost predicate DistinctNames(cs: seq<Container>) {
    forall i, j :: 0 <= i < j < |cs| ==> Name(cs[i]) != Name(cs[j])
  }

  /** The container's compose project came up on calf. */
  predicate ProjectImported(w: World, c: Container) {
    w.mountsOk && c.project != "" && c.project in w.composeUp
  }

  lemma {:induction false} RunningByName(cs: seq<Container>)
    requires DistinctNames(cs)
    ensures forall i :: 0 <= i < |cs| ==> Lookup(RunningOf(cs), Name(cs[i])) == cs[i].wasRunning
  {
    if cs != [] { RunningByName(cs[..|cs| - 1]); }
  }

  lemma {:induction false} StoppedNames(cs: seq<Container>, running: map<string, bool>)
    ensures forall c <- cs :: Lookup(running, Name(c)) && c.stopOk ==> Name(c) in StoppedOf(cs, running)
    ensures forall n <- StoppedOf(cs, running) :: exists c :: c in cs && Name(c) == n && Lookup(running, n) && c.stopOk
  {
    if cs != [] {
      var init, last := cs[..|cs| - 1], cs[|cs| - 1];
      assert cs == init + [last];
      StoppedNames(init, running);
      forall n | n in StoppedOf(cs, running)
          ensures exists c :: c in cs && Name(c) == n && Lookup(running, n) && c.stopOk {
        if n !in StoppedOf(init, running) { assert last in cs; }
      }
    }
  }

  lemma {:induction false} StoppedOnce(cs: seq<Container>, running: map<string, bool>)
    requires DistinctNames(cs)
    ensures Distinct(StoppedOf(cs, running))
  {
    if cs != [] {
      var init, last := cs[..|cs| - 1], cs[|cs| - 1];
      StoppedOnce(init, running);
      StoppedNames(init, running);
      forall n | n in StoppedOf(init, running) ensures n != Name(last) {
        var c :| c in init && Name(c) == n;
        var i :| 0 <= i < |init| && init[i] == c;
      }
    }
  }

  lemma {:induction false} RestartedNames(stopped: seq<string>, migrated: set<string>)
    ensures forall n :: n in Restarted(stopped, migrated) <==> n in stopped && n !in migrated
    ensures Distinct(stopped) ==> Distinct(Restarted(stopped, migrated))
  {
    if stopped != [] {
      var init, last := stopped[..|stopped| - 1], stopped[|stopped| - 1];
      assert stopped == init + [last];
      RestartedNames(init, migrated);
      assert Distinct(stopped) ==> Distinct(init) && last !in init;
    }
  }

  lemma {:induction false} MigratedByGroup(gs: seq<Group>, up: set<string>)
    ensures forall i, c :: 0 <= i < |gs| && gs[i].name in up && c in gs[i].containers ==> Name(c) in MigratedOf(gs, up)
    ensures forall n <- MigratedOf(gs, up) :: exists i, c ::
        0 <= i < |gs| && gs[i].name in up && c in gs[i].containers && Name(c) == n
  {
    if gs != [] {
      var init, last := gs[..|gs| - 1], gs[|gs| - 1];
      MigratedByGroup(init, up);
      forall n | n in MigratedOf(gs, up)
        ensures exists i, c :: 0 <= i < |gs| && gs[i].name in up && c in gs[i].containers && Name(c) == n
      {
        if n in MigratedOf(init, up) {
          var i, c :| 0 <= i < |init| && init[i].name in up && c in init[i].containers && Name(c) == n;
          assert gs[i] == init[i];
        } else {
          var c :| c in last.containers && Name(c) == n;
          assert gs[|gs| - 1].name in up && c in gs[|gs| - 1].containers;
        }
      }
      forall i, c | 0 <= i < |gs| && gs[i].name in up && c in gs[i].containers ensures Name(c) in MigratedOf(gs, up) {
        if i < |init| { assert init[i] == gs[i]; } else { assert Name(c) in NamesOf(last.containers); }
      }
    }
  }

  lemma ImportedIsMigrated(w: World)
    ensures forall c <- Listed(w) :: ProjectImported(w, c) ==> Name(c) in MigratedNames(w)
  {
    var cs := Listed(w);
    var gs := Groups(cs, RunningOf(cs));
    MigratedByGroup(gs, w.composeUp);
    ProjectsSorted(cs);
    forall c | c in cs && ProjectImported(w, c) ensures Name(c) in MigratedNames(w) {
      var k :| 0 <= k < |cs| && cs[k] == c;
      assert HasProject(cs, c.project);
      var i :| 0 <= i < |Projects(cs)| && Projects(cs)[i] == c.project;
      assert gs[i].name == c.project && c in gs[i].containers;
    }
  }

  lemma MigratedWasImported(w: World)
    ensures forall n <- MigratedNames(w) :: exists c :: c in Listed(w) && ProjectImported(w, c) && Name(c) == n
  {
    var cs := Listed(w);
    var gs := Groups(cs, RunningOf(cs));
    MigratedByGroup(gs, w.composeUp);
    forall n | n in MigratedNames(w) ensures exists c :: c in cs && ProjectImported(w, c) && Name(c) == n {
      var i, c :| 0 <= i < |gs| && gs[i].name in w.composeUp && c in gs[i].containers && Name(c) == n;
      GroupMember(cs, RunningOf(cs), i, c);
    }
  }

  lemma GroupMember(cs: seq<Container>, running: map<string, bool>, i: nat, c: Container)
    requires i < |Groups(cs, running)| && c in Groups(cs, running)[i].containers
    ensures c in cs && c.project == Groups(cs, running)[i].name && c.project != ""
  {
    ProjectsSorted(cs);
    assert Projects(cs)[i] in Projects(cs);
  }

  /**
    The containers started again on the source are exactly those that were stopped there and whose
    compose project was not imported, each once.
   */
  lemma RestartsExactlyTheUnimported(w: World)
    requires DistinctNames(Listed(w))
    ensures forall c <- Listed(w) :: Name(c) in Restarts(w) <==> c.wasRunning && c.stopOk && !ProjectImported(w, c)
    ensures forall c <- Listed(w) :: Name(c) in Stops(w) <==> c.wasRunning && c.stopOk
    ensures Distinct(Restarts(w))
    ensures forall n <- Restarts(w) :: n in NamesOf(Listed(w))
  {
    var cs := Listed(w);
    var running := RunningOf(cs);
    RunningByName(cs);
    StoppedNames(cs, running);
    StoppedOnce(cs, running);
    RestartedNames(Stops(w), MigratedNames(w));
    ImportedIsMigrated(w);
    MigratedWasImported(w);
    forall c | c in cs
      ensures Name(c) in Stops(w) <==> c.wasRunning && c.stopOk
      ensures Name(c) in MigratedNames(w) <==> ProjectImported(w, c)
    {
      OneContainerPerName(cs, c);
    }
  }

  lemma OneContainerPerName(cs: seq<Container>, c: Container)
    requires DistinctNames(cs) && c in cs
    ensures forall d <- cs :: Name(d) == Name(c) ==> d == c
    ensures Lookup(RunningOf(cs), Name(c)) == c.wasRunning
  {
    RunningByName(cs);
    var i :| 0 <= i < |cs| && cs[i] == c;
    forall d | d in cs && Name(d) == Name(c) ensures d == c {
      var j :| 0 <= j < |cs| && cs[j] == d;
      assert i == j;
    }
  }

  // ----- How many containers are migrated -----

  /** The container ends up on calf: with its project, or created and, if it was running, started. */
  predicate Moved(w: World, c: Container) {
    ProjectImported(w, c) || (c.createOk && (c.wasRunning ==> c.startOk))
  }

  function MovedCount(w: World, cs: seq<Container>): nat {
    if cs == [] then 0 else MovedCount(w, cs[..|cs| - 1]) + if Moved(w, cs[|cs| - 1]) then 1 else 0
  }

  function ImportedCount(w: World, cs: seq<Container>): nat {
    if cs == [] then 0 else ImportedCount(w, cs[..|cs| - 1]) + if ProjectImported(w, cs[|cs| - 1]) then 1 else 0
  }

  lemma {:induction false} CountsAppend(w: World, a: seq<Container>, b: seq<Container>)
    ensures MovedCount(w, a + b) == MovedCount(w, a) + MovedCount(w, b)
    ensures ImportedCount(w, a + b) == ImportedCount(w, a) + ImportedCount(w, b)
  {
    if b == [] {
      assert a + b == a;
    } else {
      CountsAppend(w, a, b[..|b| - 1]);
      assert (a + b)[..|a + b| - 1] == a + b[..|b| - 1];
    }
  }

  lemma WithoutOne<T>(b: seq<T>, i: nat)
    requires i < |b|
    ensures multiset(b[..i] + b[i + 1..]) == multiset(b) - multiset{b[i]}
    ensures b == b[..i] + [b[i]] + b[i + 1..]
  {
    assert b == b[..i] + [b[i]] + b[i + 1..];
  }

  lemma SamePairWithoutOne<T>(a: seq<T>, b: seq<T>, i: nat)
    requires a != [] && i < |b| && b[i] == a[|a| - 1] && multiset(a) == multiset(b)
    ensures multiset(a[..|a| - 1]) == multiset(b[..i] + b[i + 1..])
  {
    WithoutOne(b, i);
    assert a == a[..|a| - 1] + [a[|a| - 1]];
  }

  lemma CountWithoutOne(w: World, b: seq<Container>, i: nat)
    requires i < |b|
    ensures MovedCount(w, b) == MovedCount(w, b[..i] + b[i + 1..]) + if Moved(w, b[i]) then 1 else 0
  {
    var x, y, one := b[..i], b[i + 1..], [b[i]];
    WithoutOne(b, i);
    CountsAppend(w, x + one, y);
    CountsAppend(w, x, one);
    CountsAppend(w, x, y);
    assert one[..0] == [];
  }

  /** Counting does not depend on the order. */
  lemma {:induction false} CountOfMultiset(w: World, a: seq<Container>, b: seq<Container>)
    requires multiset(a) == multiset(b)
    ensures MovedCount(w, a) == MovedCount(w, b)
    decreases |a|
  {
    if a == [] {
      assert |multiset(b)| == 0;
    } else {
      var n := |a| - 1;
      assert a[n] in multiset(a);
      var i :| 0 <= i < |b| && b[i] == a[n];
      SamePairWithoutOne(a, b, i);
      CountOfMultiset(w, a[..n], b[..i] + b[i + 1..]);
      CountWithoutOne(w, b, i);
    }
  }

  /** Of containers with distinct names, those imported and those then created one by one are the moved ones. */
  lemma {:induction false} ImportedOrCreated(w: World, x: seq<Container>)
    requires DistinctNames(Listed(w)) && forall c <- x :: c in Listed(w)
    ensures var rest := Unmigrated(x, MigratedNames(w));
      ImportedCount(w, x) + Successes(ContainerOutcomes(rest, RunningOf(Listed(w)))) == MovedCount(w, x)
  {
    if x != [] {
      var init, c := x[..|x| - 1], x[|x| - 1];
      assert c in x;
      ImportedOrCreated(w, init);
      MigratedOrNot(w, c);
      OneContainerPerName(Listed(w), c);
      OutcomesAppend(Unmigrated(init, MigratedNames(w)), c, RunningOf(Listed(w)));
    }
  }

  lemma OutcomesAppend(cs: seq<Container>, c: Container, running: map<string, bool>)
    ensures Successes(ContainerOutcomes(cs + [c], running)) ==
      Successes(ContainerOutcomes(cs, running)) + if ContainerOutcome(c, running) == Imported then 1 else 0
  {
    var os := ContainerOutcomes(cs + [c], running);
    assert os[..|os| - 1] == ContainerOutcomes(cs, running);
  }

  lemma MigratedOrNot(w: World, c: Container)
    requires DistinctNames(Listed(w)) && c in Listed(w)
    ensures Name(c) in MigratedNames(w) <==> ProjectImported(w, c)
  {
    ImportedIsMigrated(w);
    MigratedWasImported(w);
    OneContainerPerName(Listed(w), c);
  }

  lemma {:induction false} AllImportedOrNone(w: World, cs: seq<Container>, imported: bool)
    requires forall c <- cs :: ProjectImported(w, c) == imported
    ensures ImportedCount(w, cs) == if imported then |cs| else 0
  {
    if cs != [] { assert cs[|cs| - 1] in cs; AllImportedOrNone(w, cs[..|cs| - 1], imported); }
  }

  lemma {:induction false} ImportedGroups(w: World, gs: seq<Group>)
    requires forall i, c :: 0 <= i < |gs| && c in gs[i].containers ==>
        (ProjectImported(w, c) <==> gs[i].name in w.composeUp)
    ensures ImportedSize(gs, w.composeUp) == ImportedCount(w, Flatten(gs))
  {
    if gs != [] {
      var init, last := gs[..|gs| - 1], gs[|gs| - 1];
      ImportedGroups(w, init);
      AllImportedOrNone(w, last.containers, last.name in w.composeUp);
      CountsAppend(w, Flatten(init), last.containers);
    }
  }

  /**
    With distinct names, the containers a run counts as migrated are exactly as many as the inspected
    ones whose project was imported, or that were created and, if they had been running, started.
   */
  lemma MigratedAreTheMoved(w: World)
    requires w.mountsOk && DistinctNames(Listed(w))
    ensures ContainersMigrated(w) == MovedCount(w, Listed(w))
  {
    var cs := Listed(w);
    var running, m := RunningOf(cs), MigratedNames(w);
    var gs, alone := Groups(cs, running), Members(cs, "");
    GroupingPartitions(cs, running);
    ImportedGroups(w, gs);
    AllImportedOrNone(w, alone, false);
    CountsAppend(w, alone, Flatten(gs));
    SameElements(alone + Flatten(gs), cs);
    CountOfMultiset(w, alone + Flatten(gs), cs);
    ImportedOrCreated(w, alone + Flatten(gs));
    UnmigratedAppend(alone, Flatten(gs), m);
    NoneMigrated(w, alone);
  }

  lemma SameElements(a: seq<Container>, b: seq<Container>)
    requires multiset(a) == multiset(b)
    ensures forall c <- a :: c in b
  {
    forall c | c in a ensures c in b { assert c in multiset(a); }
  }

  lemma {:induction false} NoneMigrated(w: World, cs: seq<Container>)
    requires DistinctNames(Listed(w)) && forall c <- cs :: c in Listed(w) && !ProjectImported(w, c)
    ensures Unmigrated(cs, MigratedNames(w)) == cs
  {
    if cs != [] {
      assert cs[|cs| - 1] in cs;
      MigratedOrNot(w, cs[|cs| - 1]);
      NoneMigrated(w, cs[..|cs| - 1]);
    }
  }

  // ----- The run as it updates its status -----

  class Migrator {
    var status: Status
    var emitted: seq<Status>

    ghost function Value(): Trace
      reads this
    {
      Trace(status, emitted)
    }

    constructor ()
      ensures Value() == Trace(InitialStatus, [])
    {
      status, emitted := InitialStatus, [];
    }

    method Report()
      modifies this
      ensures Value() == Emit(old(Value()))
    {
      emitted := emitted + [status];
    }

    method FailWith(error: Error)
      modifies this
      ensures Value() == Fail(old(Value()), error)
    {
      status := status.(phase := Failed, error := error);
      Report();
    }

    method MigrateConfig(w: World) returns (error: Error)
      modifies this
      ensures Step(Value(), error) == ConfigStep(old(Value()), w)
    {
      status := status.(step := Config, progress := 5);
      Report();
      if !w.hasSettings {
        return NoError;
      }
      if !w.saveConfigOk {
        return ConfigNotSaved;
      }
      status := status.(summary := status.summary.(configApplied := true));
      Report();
      return NoError;
    }

    method MigrateImages(w: World) returns (error: Error)
      modifies this
      ensures Step(Value(), error) == ImagesStep(old(Value()), w)
    {
      status := status.(step := Images);
      Report();
      if w.images.None? {
        return ImagesNotListed;
      }
      var refs := w.images.value;
      status := status.(summary := status.summary.(images := status.summary.images.(total := |refs|)));
      Report();
      ImportImages(refs);
      return NoError;
    }

    method ImportImages(refs: seq<ImageAnswer>)
      modifies this
      ensures Value() == AllItems(old(Value()), ImagePart, 10, 35, ImageOutcomes(refs))
    {
      ghost var start, shares := Value(), Shares(10, 35, |refs|);
      for index := 0 to |refs|
        invariant Value() == Items(start, ImagePart, shares, ImageOutcomes(refs), index)
      {
        ghost var before := Value();
        status := status.(progress := 10 + (index * 35) / Max(|refs|, 1));
        Report();
        ghost var reported := Value();
        assert reported == Emit(WithProgress(before, shares[index]));
        if !refs[index].saveOk {
          continue;
        }
        if refs[index].loadOk {
          var sum := status.summary;
          status := status.(summary := sum.(images := sum.images.(ok := sum.images.ok + 1)));
          assert Value() == WithSummary(reported, Counted(reported.status.summary, ImagePart, 1));
        }
        Report();
      }
    }

    method MigrateVolumes(w: World) returns (error: Error)
      modifies this
      ensures Step(Value(), error) == VolumesStep(old(Value()), w)
    {
      status := status.(step := Volumes, progress := 50);
      Report();
      if w.volumes.None? {
        return VolumesNotListed;
      }
      var names := w.volumes.value;
      status := status.(summary := status.summary.(volumes := status.summary.volumes.(total := |names|)));
      Report();
      ImportVolumes(names);
      return NoError;
    }

    method ImportVolumes(names: seq<VolumeAnswer>)
      modifies this
      ensures Value() == AllItems(old(Value()), VolumePart, 50, 20, VolumeOutcomes(names))
    {
      ghost var start, shares := Value(), Shares(50, 20, |names|);
      for index := 0 to |names|
        invariant Value() == Items(start, VolumePart, shares, VolumeOutcomes(names), index)
      {
        ghost var before := Value();
        status := status.(progress := 50 + (index * 20) / Max(|names|, 1));
        Report();
        ghost var reported := Value();
        assert reported == Emit(WithProgress(before, shares[index]));
        if !names[index].exportOk {
          continue;
        }
        if !names[index].createOk {
          continue;
        }
        if names[index].importOk {
          var sum := status.summary;
          status := status.(summary := sum.(volumes := sum.volumes.(ok := sum.volumes.ok + 1)));
          assert Value() == WithSummary(reported, Counted(reported.status.summary, VolumePart, 1));
        }
        Report();
      }
    }

    method MigrateGroups(groups: seq<Group>, composeUp: set<string>) returns (migrated: set<string>)
      modifies this
      ensures Value() == GroupReports(old(Value()), groups, composeUp)
      ensures migrated == MigratedOf(groups, composeUp)
    {
      migrated := {};
      ghost var start := Value();
      assert groups[..0] == [];
      for i := 0 to |groups|
        invariant Value() == GroupReports(start, groups[..i], composeUp)
        invariant migrated == MigratedOf(groups[..i], composeUp)
      {
        assert groups[..i + 1][..i] == groups[..i];
        Report();
        if groups[i].name !in composeUp {
          continue;
        }
        var containers := groups[i].containers;
        ghost var before, known := Value(), migrated;
        for k := 0 to |containers|
          invariant Value() == WithSummary(before, Counted(before.status.summary, ContainerPart, k))
          invariant migrated == known + NamesOf(containers[..k])
        {
          assert containers[..k + 1] == containers[..k] + [containers[k]];
          migrated := migrated + {Name(containers[k])};
          var sum := status.summary;
          status := status.(summary := sum.(containers := sum.containers.(ok := sum.containers.ok + 1)));
        }
        assert containers[..|containers|] == containers;
        Report();
      }
      assert groups[..|groups|] == groups;
    }

    method MigrateRemaining(remaining: seq<Container>, running: map<string, bool>)
      modifies this
      ensures Value() == AllItems(old(Value()), ContainerPart, 75, 20, ContainerOutcomes(remaining, running))
    {
      ghost var start, shares := Value(), Shares(75, 20, |remaining|);
      for index := 0 to |remaining|
        invariant Value() == Items(start, ContainerPart, shares, ContainerOutcomes(remaining, running), index)
      {
        ghost var before := Value();
        status := status.(progress := 75 + (index * 20) / Max(|remaining|, 1));
        Report();
        ghost var reported := Value();
        assert reported == Emit(WithProgress(before, shares[index]));
        if !remaining[index].createOk {
          continue;
        }
        if Lookup(running, Name(remaining[index])) {
          if !remaining[index].startOk {
            continue;
          }
        }
        var sum := status.summary;
        status := status.(summary := sum.(containers := sum.containers.(ok := sum.containers.ok + 1)));
        Report();
      }
    }

    /** Restarting the source runs on every return after the stops. */
    method MigrateContainers(w: World) returns (error: Error, stopped: seq<string>, restarts: seq<string>)
      modifies this
      ensures Step(Value(), error) == ContainersStep(old(Value()), w)
      ensures stopped == Stops(w) && restarts == Restarts(w)
    {
      status := status.(step := Containers, progress := 75);
      Report();
      if w.containers.None? {
        return ContainersNotListed, [], [];
      }
      var ids := w.containers.value;
      status := status.(summary := status.summary.(containers := status.summary.containers.(total := |ids|)));
      Report();
      var inspects, running := InspectAll(ids);
      stopped := StopRunning(inspects, running);
      var composeGroups, standalone := GroupContainersByComposeProject(inspects, running);
      if !w.mountsOk {
        restarts := StartAgain(stopped, {});
        return MountsNotCreated, stopped, restarts;
      }
      var migrated := MigrateGroups(composeGroups, w.composeUp);
      var left := LeftOver(composeGroups, migrated);
      MigrateRemaining(standalone + left, running);
      restarts := StartAgain(stopped, migrated);
      return NoError, stopped, restarts;
    }

    method MigrateBuilds(w: World)
      modifies this
      ensures Value() == BuildsStep(old(Value()), w)
    {
      status := status.(step := Builds, progress := 95);
      Report();
      if !w.hasBuildSink {
        return;
      }
      var rows;
      if w.history.None? {
        if w.fallback.None? {
          return;
        }
        rows := w.fallback.value;
      } else {
        rows := w.history.value;
      }
      status := status.(summary := status.summary.(builds := status.summary.builds.(total := rows)));
      Report();
      ghost var start := Value();
      for i := 0 to rows
        invariant var sum := start.status.summary;
          Value() == WithSummary(start, sum.(builds := sum.builds.(ok := sum.builds.ok + i)))
      {
        var sum := status.summary;
        status := status.(summary := sum.(builds := sum.builds.(ok := sum.builds.ok + 1)));
      }
      Report();
    }

    method CheckTools(w: World) returns (error: Error)
      ensures error == PreflightError(w)
    {
      if !w.socketFound {
        return SocketNotFound;
      }
      if !w.cliFound {
        return CliNotFound;
      }
      if !w.desktopUp {
        return DockerDesktopNotRunning;
      }
      if !w.calfConfigured {
        return CalfNotConfigured;
      }
      if !w.calfUp {
        return CalfNotRunning;
      }
      if !w.stagingOk {
        return StagingFailed;
      }
      return NoError;
    }

    method RunFromDockerDesktop(w: World) returns (stopped: seq<string>, restarts: seq<string>)
      requires Value() == Trace(InitialStatus, [])
      modifies this
      ensures Value() == Run(w)
      ensures stopped == (if ReachesContainers(w) then Stops(w) else [])
      ensures restarts == (if ReachesContainers(w) then Restarts(w) else [])
    {
      stopped, restarts := [], [];
      Report();
      var error := CheckTools(w);
      if error != NoError {
        FailWith(error);
        return;
      }
      status := status.(step := Preflight, progress := 2);
      Report();
      if !w.diskOk {
        FailWith(DiskTooSmall);
        return;
      }
      error := MigrateConfig(w);
      if error != NoError {
        FailWith(error);
        return;
      }
      error := MigrateImages(w);
      if error != NoError {
        FailWith(error);
        return;
      }
      error := MigrateVolumes(w);
      if error != NoError {
        FailWith(error);
        return;
      }
      error, stopped, restarts := MigrateContainers(w);
      if error != NoError {
        FailWith(error);
        return;
      }
      MigrateBuilds(w);
      status := status.(phase := Completed, step := Done, progress := 100);
      Report();
    }
  }

  method InspectAll(ids: seq<Option<Container>>) returns (inspects: seq<Container>, running: map<string, bool>)
    ensures inspects == Inspected(ids) && running == RunningOf(inspects)
  {
    inspects, running := [], map[];
    assert ids[..0] == [];
    for i := 0 to |ids|
      invariant inspects == Inspected(ids[..i]) && running == RunningOf(inspects)
    {
      assert ids[..i + 1][..i] == ids[..i];
      if ids[i].None? {
        continue;
      }
      var inspect := ids[i].value;
      assert (inspects + [inspect])[..|inspects|] == inspects;
      running := running[Name(inspect) := inspect.wasRunning];
      inspects := inspects + [inspect];
    }
    assert ids[..|ids|] == ids;
  }

  method StopRunning(inspects: seq<Container>, running: map<string, bool>) returns (stopped: seq<string>)
    ensures stopped == StoppedOf(inspects, running)
  {
    stopped := [];
    assert inspects[..0] == [];
    for i := 0 to |inspects|
      invariant stopped == StoppedOf(inspects[..i], running)
    {
      assert inspects[..i + 1][..i] == inspects[..i];
      if !Lookup(running, Name(inspects[i])) {
        continue;
      }
      if inspects[i].stopOk {
        stopped := stopped + [Name(inspects[i])];
      }
    }
    assert inspects[..|inspects|] == inspects;
  }

  method LeftOver(groups: seq<Group>, migrated: set<string>) returns (left: seq<Container>)
    ensures left == Unmigrated(Flatten(groups), migrated)
  {
    left := [];
    assert groups[..0] == [];
    for i := 0 to |groups|
      invariant left == Unmigrated(Flatten(groups[..i]), migrated)
    {
      assert groups[..i + 1][..i] == groups[..i];
      var containers := groups[i].containers;
      ghost var before := left;
      assert containers[..0] == [];
      for k := 0 to |containers|
        invariant left == before + Unmigrated(containers[..k], migrated)
      {
        assert containers[..k + 1][..k] == containers[..k];
        if Name(containers[k]) in migrated {
          continue;
        }
        left := left + [containers[k]];
      }
      assert containers[..|containers|] == containers;
      UnmigratedAppend(Flatten(groups[..i]), containers, migrated);
    }
    assert groups[..|groups|] == groups;
  }

  method StartAgain(stopped: seq<string>, migrated: set<string>) returns (restarts: seq<string>)
    ensures restarts == Restarted(stopped, migrated)
  {
    restarts := [];
    assert stopped[..0] == [];
    for i := 0 to |stopped|
      invariant restarts == Restarted(stopped[..i], migrated)
    {
      assert stopped[..i + 1][..i] == stopped[..i];
      if stopped[i] in migrated {
        continue;
      }
      restarts := restarts + [stopped[i]];
    }
    assert stopped[..|stopped|] == stopped;
  }
}

/**
  Build-log parsing as a fold over classified lines (backend/internal/runtime/build_parser.go).
  Durations are natural milliseconds.
 */
module BuildParser {
  import opened Options
  import opened Text

  /** A non-empty trimmed line, by the first pattern it matches. */
  datatype Line =
    | Done(id: int, ms: nat)
    | Cached(id: int)
    | Indexed(id: int, index: int, total: int, name: string)
    | Header(id: int, name: string, text: string)
    | Note(text: string)
    | Plain

  datatype Step = Step(name: string, index: int, total: int, durationMs: nat, cached: bool, log: string)

  const NewStep := Step("", 0, 0, 0, false, "")

  datatype Timing = Timing(imagePulls: nat, localTransfers: nat, executions: nat, fileOperations: nat,
      resultExports: nat, idle: nat)

  datatype Bucket = ImagePulls | LocalTransfers | Executions | FileOperations | ResultExports | Idle

  datatype BuildResult = BuildResult(steps: seq<Step>, timing: Timing, cachedSteps: nat, totalSteps: nat)

  /** The loop's variables: steps by id, ids in order of creation, the current step and the timing. */
  datatype Parser = Parser(steps: map<int, Step>, order: seq<int>, current: int, timing: Timing)

  const Start := Parser(map[], [], 0, Timing(0, 0, 0, 0, 0, 0))

  /** The words that decide, in order; the first one found in the name wins. */
  const WORDS := [
    ("load metadata", ImagePulls), ("from ", ImagePulls),
    ("transferring", LocalTransfers), ("load build context", LocalTransfers), ("load .dockerignore", LocalTransfers),
    ("exporting", ResultExports), ("export to", ResultExports),
    ("resolve", FileOperations), ("load build definition", FileOperations),
    ("run ", Executions), ("copy ", Executions)]

  function FirstWord(name: string, words: seq<(string, Bucket)>): Option<Bucket> {
    if words == [] then None
    else if Contains(name, words[0].0) then Some(words[0].1)
    else FirstWord(name, words[1..])
  }

  /** The bucket by the table; other steps are idle without a duration, internal ones file work, the rest executions. */
  function BucketOf(name: string, ms: nat): Bucket {
    match FirstWord(Lower(name), WORDS)
    case Some(b) => b
    case None =>
      if ms == 0 then Idle else if Contains(Lower(name), "internal") then FileOperations else Executions
  }

  function Charge(t: Timing, b: Bucket, ms: nat): Timing {
    match b
    case ImagePulls => t.(imagePulls := t.imagePulls + ms)
    case LocalTransfers => t.(localTransfers := t.localTransfers + ms)
    case Executions => t.(executions := t.executions + ms)
    case FileOperations => t.(fileOperations := t.fileOperations + ms)
    case ResultExports => t.(resultExports := t.resultExports + ms)
    case Idle => t.(idle := t.idle + ms)
  }

  function TotalMs(t: Timing): nat {
    t.imagePulls + t.localTransfers + t.executions + t.fileOperations + t.resultExports + t.idle
  }

  function Ensure(p: Parser, id: int): (q: Parser)
    ensures id in q.steps
  {
    if id in p.steps then p else p.(steps := p.steps[id := NewStep], order := p.order + [id])
  }

  function AddLog(s: Step, text: string): Step {
    s.(log := (if s.log != "" then s.log + "\n" else s.log) + text)
  }

  /** How a step's name and duration choose a bucket. */
  type Classifier = (string, nat) -> Bucket

  function Feed(c: Classifier, p: Parser, line: Line): Parser {
    match line
    case Done(id, ms) =>
      var q := Ensure(p, id);
      var step := q.steps[id];
      q.(steps := q.steps[id := step.(durationMs := ms)], timing := Charge(q.timing, c(step.name, ms), ms),
          current := 0)
    case Cached(id) =>
      var q := Ensure(p, id);
      q.(steps := q.steps[id := q.steps[id].(cached := true)], current := 0)
    case Indexed(id, index, total, name) =>
      var q := Ensure(p, id);
      var step := q.steps[id].(index := index, total := total);
      q.(steps := q.steps[id := if name != "" then step.(name := name) else step], current := id)
    case Header(id, name, text) =>
      if p.current > 0 && id == p.current then LogCurrent(p, text)
      else
        var q := Ensure(p, id);
        q.(steps := q.steps[id := if name != "" then q.steps[id].(name := name) else q.steps[id]], current := id)
    case Note(text) => if p.current > 0 then LogCurrent(p, text) else p
    case Plain => p
  }

  function LogCurrent(p: Parser, text: string): Parser {
    if p.current in p.steps then p.(steps := p.steps[p.current := AddLog(p.steps[p.current], text)]) else p
  }

  function Parse(c: Classifier, lines: seq<Line>): Parser {
    if lines == [] then Start else Feed(c, Parse(c, lines[..|lines| - 1]), lines[|lines| - 1])
  }

  // ----- What a log says, without the parser's variables -----

  /** The sum of the durations on all DONE lines. */
  function DoneMs(lines: seq<Line>): nat {
    if lines == [] then 0
    else DoneMs(lines[..|lines| - 1]) + (match lines[|lines| - 1] case Done(_, ms) => ms case _ => 0)
  }

  predicate NamesStep(line: Line) { line.Done? || line.Cached? || line.Indexed? || line.Header? }

  /** The distinct step ids in order of first appearance. */
  function FirstSeen(lines: seq<Line>): seq<int> {
    if lines == [] then []
    else
      var seen, line := FirstSeen(lines[..|lines| - 1]), lines[|lines| - 1];
      if NamesStep(line) && line.id !in seen then seen + [line.id] else seen
  }

  function CachedIds(lines: seq<Line>): set<int> {
    set i | 0 <= i < |lines| && lines[i].Cached? :: lines[i].id
  }

  /** The duration on the last DONE line of a step, 0 without one. */
  function LastDone(lines: seq<Line>, id: int): nat {
    if lines == [] then 0
    else
      match lines[|lines| - 1]
      case Done(i, ms) => if i == id then ms else LastDone(lines[..|lines| - 1], id)
      case _ => LastDone(lines[..|lines| - 1], id)
  }

  /** Ids and current step agree with the lines read so far. */
  ghost predicate OrderAgrees(p: Parser, lines: seq<Line>) {
    && p.order == FirstSeen(lines) && Distinct(p.order)
    && (forall id :: id in p.steps <==> id in p.order)
    && (p.current > 0 ==> p.current in p.steps)
  }

  /** Cached flags and durations agree with the lines read so far. */
  ghost predicate StepsAgree(p: Parser, lines: seq<Line>) {
    && (forall id :: id in p.steps ==>
        (p.steps[id].cached <==> id in CachedIds(lines)) && p.steps[id].durationMs == LastDone(lines, id))
    && (forall id :: id !in p.steps ==> id !in CachedIds(lines) && LastDone(lines, id) == 0)
  }

  ghost predicate Agrees(p: Parser, lines: seq<Line>) {
    OrderAgrees(p, lines) && StepsAgree(p, lines) && TotalMs(p.timing) == DoneMs(lines)
  }

  lemma CachedIdsStep(lines: seq<Line>, line: Line)
    ensures CachedIds(lines + [line]) == CachedIds(lines) + (if line.Cached? then {line.id} else {})
  {
    var more := lines + [line];
    forall id ensures id in CachedIds(more) <==> id in CachedIds(lines) + (if line.Cached? then {line.id} else {}) {
      if id in CachedIds(more) {
        var i :| 0 <= i < |more| && more[i].Cached? && more[i].id == id;
        assert i < |lines| ==> lines[i] == more[i];
      }
      if id in CachedIds(lines) {
        var i :| 0 <= i < |lines| && lines[i].Cached? && lines[i].id == id;
        assert more[i] == lines[i];
      }
      if line.Cached? && id == line.id {
        assert more[|lines|] == line;
      }
    }
  }

  lemma FeedTiming(c: Classifier, p: Parser, line: Line)
    ensures TotalMs(Feed(c, p, line).timing) == TotalMs(p.timing) + match line case Done(_, ms) => ms case _ => 0
  {
  }

  lemma FeedOrder(c: Classifier, p: Parser, line: Line)
    requires p.current > 0 ==> p.current in p.steps
    ensures var q := Feed(c, p, line);
            && q.order == (if NamesStep(line) && line.id !in p.steps then p.order + [line.id] else p.order)
            && q.steps.Keys == p.steps.Keys + (if NamesStep(line) then {line.id} else {})
            && (q.current > 0 ==> q.current in q.steps)
  {
    var q := Feed(c, p, line);
    if NamesStep(line) {
      assert line.id in q.steps;
      assert forall id :: id in q.steps <==> id in p.steps || id == line.id;
    } else {
      assert forall id :: id in q.steps <==> id in p.steps;
    }
  }

  /** The step as it was, or a new one. */
  function Before(p: Parser, id: int): Step { if id in p.steps then p.steps[id] else NewStep }

  lemma FeedStep(c: Classifier, p: Parser, line: Line, id: int)
    requires id in Feed(c, p, line).steps
    ensures var step := Feed(c, p, line).steps[id];
            && (step.cached <==> Before(p, id).cached || line == Cached(id))
            && step.durationMs == (if line.Done? && line.id == id then line.ms else Before(p, id).durationMs)
  {
  }

  lemma FeedKeepsOrder(c: Classifier, p: Parser, lines: seq<Line>, line: Line)
    requires OrderAgrees(p, lines)
    ensures OrderAgrees(Feed(c, p, line), lines + [line])
  {
    FeedOrder(c, p, line);
    assert (lines + [line])[..|lines + [line]| - 1] == lines;
    var q := Feed(c, p, line);
    forall id ensures id in q.steps <==> id in q.order {
      assert id in q.steps <==> id in q.steps.Keys;
    }
  }

  lemma FeedKeepsSteps(c: Classifier, p: Parser, lines: seq<Line>, line: Line)
    requires OrderAgrees(p, lines) && StepsAgree(p, lines)
    ensures StepsAgree(Feed(c, p, line), lines + [line])
  {
    FeedOrder(c, p, line);
    CachedIdsStep(lines, line);
    assert (lines + [line])[..|lines + [line]| - 1] == lines;
    var q := Feed(c, p, line);
    forall id | id in q.steps
      ensures (q.steps[id].cached <==> id in CachedIds(lines + [line])) &&
          q.steps[id].durationMs == LastDone(lines + [line], id)
    {
      FeedStep(c, p, line, id);
    }
    forall id | id !in q.steps ensures id !in CachedIds(lines + [line]) && LastDone(lines + [line], id) == 0 {
      assert id !in q.steps.Keys && id !in p.steps;
    }
  }

  lemma FeedKeepsAgreement(c: Classifier, p: Parser, lines: seq<Line>, line: Line)
    requires Agrees(p, lines)
    ensures Agrees(Feed(c, p, line), lines + [line])
  {
    FeedKeepsOrder(c, p, lines, line);
    FeedKeepsSteps(c, p, lines, line);
    FeedTiming(c, p, line);
    assert (lines + [line])[..|lines + [line]| - 1] == lines;
  }

  lemma {:induction false} ParseAgrees(c: Classifier, lines: seq<Line>)
    ensures Agrees(Parse(c, lines), lines)
  {
    if lines != [] {
      ParseAgrees(c, lines[..|lines| - 1]);
      FeedKeepsAgreement(c, Parse(c, lines[..|lines| - 1]), lines[..|lines| - 1], lines[|lines| - 1]);
      assert lines[..|lines| - 1] + [lines[|lines| - 1]] == lines;
    }
  }

  /** Time is conserved: the six buckets together hold the durations of all DONE lines. */
  lemma {:induction false} TimingIsConserved(c: Classifier, lines: seq<Line>)
    ensures TotalMs(Parse(c, lines).timing) == DoneMs(lines)
  {
    ParseAgrees(c, lines);
  }

  // ----- Names, numbers, logs and buckets -----

  /** The step that note lines go to, 0 for none: the last one announced, until a DONE or CACHED line. */
  function Current(lines: seq<Line>): int {
    if lines == [] then 0
    else
      match lines[|lines| - 1]
      case Done(_, _) => 0
      case Cached(_) => 0
      case Indexed(id, _, _, _) => id
      case Header(id, _, _) => id
      case Note(_) => Current(lines[..|lines| - 1])
      case Plain => Current(lines[..|lines| - 1])
  }

  /** A header line that repeats the current step is output of that step. */
  predicate IsOutput(before: seq<Line>, line: Line, id: int) {
    Current(before) > 0 && Current(before) == id && (line.Note? || (line.Header? && line.id == id))
  }

  /** The output lines of a step. */
  function Output(lines: seq<Line>, id: int): seq<string> {
    if lines == [] then []
    else
      var init, line := lines[..|lines| - 1], lines[|lines| - 1];
      if IsOutput(init, line, id) then Output(init, id) + [line.text] else Output(init, id)
  }

  /** The last non-empty name announced for a step. */
  function NameOf(lines: seq<Line>, id: int): string {
    if lines == [] then ""
    else
      var init, line := lines[..|lines| - 1], lines[|lines| - 1];
      if (line.Indexed? || line.Header?) && line.id == id && line.name != "" && !IsOutput(init, line, id) then line.name
      else NameOf(init, id)
  }

  /** The last index and total announced for a step. */
  function PlaceOf(lines: seq<Line>, id: int): (int, int) {
    if lines == [] then (0, 0)
    else
      match lines[|lines| - 1]
      case Indexed(i, index, total, _) => if i == id then (index, total) else PlaceOf(lines[..|lines| - 1], id)
      case _ => PlaceOf(lines[..|lines| - 1], id)
  }

  function In(t: Timing, b: Bucket): nat {
    match b
    case ImagePulls => t.imagePulls
    case LocalTransfers => t.localTransfers
    case Executions => t.executions
    case FileOperations => t.fileOperations
    case ResultExports => t.resultExports
    case Idle => t.idle
  }

  /** The durations of the DONE lines whose step then bore a name of the bucket. */
  function Spent(c: Classifier, lines: seq<Line>, b: Bucket): nat {
    if lines == [] then 0
    else
      var init := lines[..|lines| - 1];
      Spent(c, init, b) +
      match lines[|lines| - 1]
      case Done(id, ms) => if c(NameOf(init, id), ms) == b then ms else 0
      case _ => 0
  }

  /** Output lines are trimmed and not empty. */
  ghost predicate TextsAreFull(lines: seq<Line>) {
    forall i :: 0 <= i < |lines| && (lines[i].Note? || lines[i].Header?) ==> lines[i].text != ""
  }

  ghost predicate StepReads(step: Step, lines: seq<Line>, id: int) {
    && step.name == NameOf(lines, id) && (step.index, step.total) == PlaceOf(lines, id)
    && (TextsAreFull(lines) ==> step.log == Join(Output(lines, id), "\n"))
  }

  lemma {:induction false} OutputIsFull(lines: seq<Line>, id: int)
    requires TextsAreFull(lines)
    ensures forall i :: 0 <= i < |Output(lines, id)| ==> Output(lines, id)[i] != ""
  {
    if lines != [] { OutputIsFull(lines[..|lines| - 1], id); }
  }

  lemma JoinOneMore(ls: seq<string>, text: string)
    requires forall i :: 0 <= i < |ls| ==> ls[i] != ""
    ensures Join(ls + [text], "\n") == (if Join(ls, "\n") != "" then Join(ls, "\n") + "\n" else Join(ls, "\n")) + text
  {
    if ls == [] {
      assert ls + [text] == [text];
    } else {
      JoinAppend(ls, [text], "\n");
      assert |Join(ls, "\n")| >= |ls[0]|;
    }
  }

  /** Every step bears the last name, index and total announced for it and holds exactly its output lines. */
  lemma {:induction false} ParseReadsSteps(c: Classifier, lines: seq<Line>, id: int)
    ensures Parse(c, lines).current == Current(lines)
    ensures StepReads(Before(Parse(c, lines), id), lines, id)
  {
    if lines != [] {
      var init, line := lines[..|lines| - 1], lines[|lines| - 1];
      ParseReadsSteps(c, init, id);
      ParseAgrees(c, init);
      FeedReads(c, Parse(c, init), init, line, id);
      assert init + [line] == lines;
    }
  }

  lemma FeedReads(c: Classifier, p: Parser, lines: seq<Line>, line: Line, id: int)
    requires p.current == Current(lines) && StepReads(Before(p, id), lines, id) && OrderAgrees(p, lines)
    ensures Feed(c, p, line).current == Current(lines + [line])
    ensures StepReads(Before(Feed(c, p, line), id), lines + [line], id)
  {
    var more := lines + [line];
    assert more[..|more| - 1] == lines;
    FeedOutput(c, p, lines, line, id);
    FeedName(c, p, lines, line, id);
  }

  lemma FeedName(c: Classifier, p: Parser, lines: seq<Line>, line: Line, id: int)
    requires p.current == Current(lines) && OrderAgrees(p, lines)
    ensures var step, was := Before(Feed(c, p, line), id), Before(p, id);
      && step.name == (if (line.Indexed? || line.Header?) && line.id == id && line.name != "" &&
          !IsOutput(lines, line, id)
                       then line.name else was.name)
      && (step.index, step.total) ==
           (if line.Indexed? && line.id == id then (line.index, line.total) else (was.index, was.total))
  {
  }

  lemma FeedOutput(c: Classifier, p: Parser, lines: seq<Line>, line: Line, id: int)
    requires p.current == Current(lines) && OrderAgrees(p, lines)
    requires TextsAreFull(lines) ==> Before(p, id).log == Join(Output(lines, id), "\n")
    ensures TextsAreFull(lines + [line]) ==> Before(Feed(c, p, line), id).log == Join(Output(lines + [line], id), "\n")
  {
    var more := lines + [line];
    assert more[..|more| - 1] == lines;
    FeedLog(c, p, lines, line, id);
    if TextsAreFull(more) {
      assert TextsAreFull(lines) by { assert forall i :: 0 <= i < |lines| ==> more[i] == lines[i]; }
      OutputIsFull(lines, id);
      if IsOutput(lines, line, id) { JoinOneMore(Output(lines, id), line.text); }
    }
  }

  lemma FeedLog(c: Classifier, p: Parser, lines: seq<Line>, line: Line, id: int)
    requires p.current == Current(lines) && OrderAgrees(p, lines)
    ensures Before(Feed(c, p, line), id).log ==
      if IsOutput(lines, line, id) then AddLog(Before(p, id), line.text).log else Before(p, id).log
  {
  }

  lemma FeedBucket(c: Classifier, p: Parser, line: Line, b: Bucket)
    ensures In(Feed(c, p, line).timing, b) == In(p.timing, b) +
      match line
      case Done(id, ms) => if c(Before(p, id).name, ms) == b then ms else 0
      case _ => 0
  {
  }

  /** Each bucket holds exactly the durations of the DONE lines whose step name belongs to it. */
  lemma {:induction false} BucketsHoldTheirSteps(c: Classifier, lines: seq<Line>, b: Bucket)
    ensures In(Parse(c, lines).timing, b) == Spent(c, lines, b)
  {
    if lines != [] {
      var init, line := lines[..|lines| - 1], lines[|lines| - 1];
      BucketsHoldTheirSteps(c, init, b);
      FeedBucket(c, Parse(c, init), line, b);
      if line.Done? { ParseReadsSteps(c, init, line.id); }
    }
  }

  lemma ParseReadsAll(c: Classifier, lines: seq<Line>)
    ensures forall id :: id in Parse(c, lines).steps ==> StepReads(Parse(c, lines).steps[id], lines, id)
    ensures forall b: Bucket :: In(Parse(c, lines).timing, b) == Spent(c, lines, b)
  {
    forall id | id in Parse(c, lines).steps ensures StepReads(Parse(c, lines).steps[id], lines, id) {
      ParseReadsSteps(c, lines, id);
    }
    forall b: Bucket ensures In(Parse(c, lines).timing, b) == Spent(c, lines, b) { BucketsHoldTheirSteps(c, lines, b); }
  }

  // ----- The parser -----

  /** classifyTiming: the switch adds the duration to the bucket the table names. */
  method ClassifyTiming(timing: Timing, stepName: string, durationMs: nat) returns (r: Timing)
    ensures r == Charge(timing, BucketOf(stepName, durationMs), durationMs)
  {
    var lower := Lower(stepName);
    ElevenWords(lower, WORDS);
    r := timing;
    if Contains(lower, "load metadata") || Contains(lower, "from ") {
      r := r.(imagePulls := r.imagePulls + durationMs);
    } else if Contains(lower, "transferring") || Contains(lower, "load build context") ||
        Contains(lower, "load .dockerignore") {
      r := r.(localTransfers := r.localTransfers + durationMs);
    } else if Contains(lower, "exporting") || Contains(lower, "export to") {
      r := r.(resultExports := r.resultExports + durationMs);
    } else if Contains(lower, "resolve") || Contains(lower, "load build definition") {
      r := r.(fileOperations := r.fileOperations + durationMs);
    } else if Contains(lower, "run ") || Contains(lower, "copy ") {
      r := r.(executions := r.executions + durationMs);
    } else if durationMs == 0 {
      r := r.(idle := r.idle + durationMs);
    } else if Contains(lower, "internal") {
      r := r.(fileOperations := r.fileOperations + durationMs);
    } else {
      r := r.(executions := r.executions + durationMs);
    }
  }

  lemma WordStep(lower: string, w: seq<(string, Bucket)>, i: nat)
    requires i < |w|
    ensures FirstWord(lower, w[i..]) == if Contains(lower, w[i].0) then Some(w[i].1) else FirstWord(lower, w[i + 1..])
  {
    assert w[i..][1..] == w[i + 1..];
  }

  lemma ElevenWords(lower: string, w: seq<(string, Bucket)>)
    requires |w| == 11
    ensures FirstWord(lower, w) ==
      if Contains(lower, w[0].0) then Some(w[0].1)
      else if Contains(lower, w[1].0) then Some(w[1].1)
      else if Contains(lower, w[2].0) then Some(w[2].1)
      else if Contains(lower, w[3].0) then Some(w[3].1)
      else if Contains(lower, w[4].0) then Some(w[4].1)
      else if Contains(lower, w[5].0) then Some(w[5].1)
      else if Contains(lower, w[6].0) then Some(w[6].1)
      else if Contains(lower, w[7].0) then Some(w[7].1)
      else if Contains(lower, w[8].0) then Some(w[8].1)
      else if Contains(lower, w[9].0) then Some(w[9].1)
      else if Contains(lower, w[10].0) then Some(w[10].1)
      else None
  {
    WordStep(lower, w, 0);
    WordStep(lower, w, 1);
    WordStep(lower, w, 2);
    WordStep(lower, w, 3);
    WordStep(lower, w, 4);
    WordStep(lower, w, 5);
    WordStep(lower, w, 6);
    WordStep(lower, w, 7);
    WordStep(lower, w, 8);
    WordStep(lower, w, 9);
    WordStep(lower, w, 10);
    assert w[0..] == w && w[11..] == [];
  }

  method ParseBuildOutput(lines: seq<Line>) returns (result: BuildResult)
    ensures result.timing == Parse(BucketOf, lines).timing && TotalMs(result.timing) == DoneMs(lines)
    ensures result.totalSteps == |result.steps| == |FirstSeen(lines)|
    ensures forall i :: 0 <= i < |result.steps| ==>
      var id := FirstSeen(lines)[i];
      && id in Parse(BucketOf, lines).steps && result.steps[i] == Parse(BucketOf, lines).steps[id]
      && (result.steps[i].cached <==> id in CachedIds(lines)) && result.steps[i].durationMs == LastDone(lines, id)
    ensures result.cachedSteps == |CachedIds(lines)|
    ensures forall i :: 0 <= i < |result.steps| ==> StepReads(result.steps[i], lines, FirstSeen(lines)[i])
    ensures forall b: Bucket :: In(result.timing, b) == Spent(BucketOf, lines, b)
  {
    var p := Start;
    assert lines[..0] == [];
    for i := 0 to |lines|
      invariant p == Parse(BucketOf, lines[..i])
    {
      assert lines[..i + 1][..i] == lines[..i];
      p := Feed(BucketOf, p, lines[i]);
    }
    assert lines[..|lines|] == lines;
    ParseAgrees(BucketOf, lines);
    var steps, cached := CollectSteps(p.steps, p.order);
    CachedAmongAll(p, lines);
    ParseReadsAll(BucketOf, lines);
    result := BuildResult(steps, p.timing, cached, |steps|);
  }

  ghost function CachedAmong(steps: map<int, Step>, order: seq<int>): set<int>
    requires forall id :: id in order ==> id in steps
  {
    set id | id in order && steps[id].cached
  }

  lemma CachedAmongAll(p: Parser, lines: seq<Line>)
    requires Agrees(p, lines)
    ensures CachedAmong(p.steps, p.order) == CachedIds(lines)
  {
    forall id ensures id in CachedAmong(p.steps, p.order) <==> id in CachedIds(lines) {}
  }

  /** The steps in order, and how many are cached. */
  method CollectSteps(byID: map<int, Step>, order: seq<int>) returns (steps: seq<Step>, cached: nat)
    requires Distinct(order) && forall id :: id in order ==> id in byID
    ensures |steps| == |order| && forall i :: 0 <= i < |order| ==> order[i] in byID && steps[i] == byID[order[i]]
    ensures cached == |CachedAmong(byID, order)|
  {
    steps, cached := [], 0;
    for k := 0 to |order|
      invariant |steps| == k && forall i :: 0 <= i < k ==> order[i] in byID && steps[i] == byID[order[i]]
      invariant cached == |CachedAmong(byID, order[..k])|
    {
      CachedAmongStep(byID, order, k);
      var step := byID[order[k]];
      steps := steps + [step];
      if step.cached {
        cached := cached + 1;
      }
    }
    assert order[..|order|] == order;
  }

  lemma CachedAmongStep(steps: map<int, Step>, order: seq<int>, k: nat)
    requires k < |order| && Distinct(order) && forall id :: id in order ==> id in steps
    ensures |CachedAmong(steps, order[..k + 1])| == |CachedAmong(steps, order[..k])| +
      if steps[order[k]].cached then 1 else 0
  {
    assert order[..k + 1] == order[..k] + [order[k]];
    var a, b := CachedAmong(steps, order[..k]), CachedAmong(steps, order[..k + 1]);
    assert order[k] !in a;
    assert b == a + (if steps[order[k]].cached then {order[k]} else {});
  }
}

/**
  The daemon's rotating log file (backend/internal/config/log_file.go): one live file and one
  backup. Every file-system outcome is an input, so the claims hold under failures too.
 */
module RotatingLog {
  import opened Options

  const CAP := 5 * 1024 * 1024
  const TAIL_BYTES := 512 * 1024

  /** The open file of the writer: none, usable, or closed with an error but not dropped. */
  datatype Handle = Nil | Usable | Dead

  /**
    `live` and `backup` are the files on disk. `dropped` is what was removed from disk and
    `written` everything ever written, both in order; they are history only.
   */
  datatype Files = Files(live: Option<string>, backup: Option<string>, handle: Handle, dropped: string, written: string)

  const Empty := Files(None, None, Nil, "", "")

  /** Outcomes of the calls one operation makes; `count` is how many bytes a write stores. */
  datatype Io = Io(fstatOk: bool, closeOk: bool, statOk: bool, removeOk: bool, renameOk: bool, openOk: bool, count: nat)

  const AllOk := Io(true, true, true, true, true, true, 0)

  function Text(f: Option<string>): string { if f.Some? then f.value else "" }

  /** rotateIfNeeded: rename a live file at or above the cap to the backup. */
  function RotateIfNeeded(f: Files, io: Io): (r: (Files, bool)) {
    if !io.statOk then (f, false)
    else if f.live.None? || |f.live.value| < CAP then (f, true)
    else if io.renameOk then
      (f.(live := None, backup := f.live, dropped := f.dropped + Text(f.backup)), true)
    else if io.removeOk then
      (f.(backup := None, dropped := f.dropped + Text(f.backup)), false)
    else (f, false)
  }

  /** Open for append, creating the file. */
  function OpenLive(f: Files, io: Io): (Files, bool) {
    if io.openOk then (f.(live := Some(Text(f.live)), handle := Usable), true) else (f, false)
  }

  /** rotateLocked. */
  function Rotate(f: Files, io: Io): (Files, bool) {
    if !io.closeOk then (f.(handle := Dead), false)
    else
      var (g, ok) := RotateIfNeeded(f.(handle := Nil), io);
      if !ok then (g, false) else OpenLive(g, io)
  }

  /** f.Write: a dead file stores nothing. */
  function Store(f: Files, p: string, io: Io): Files {
    if f.handle != Usable then f
    else
      var part := if io.count < |p| then p[..io.count] else p;
      f.(live := Some(Text(f.live) + part), written := f.written + part)
  }

  function Write(f: Files, p: string, io: Io): Files {
    if f.handle == Nil then f
    else if f.handle == Usable && io.fstatOk && |Text(f.live)| + |p| > CAP then
      var (g, ok) := Rotate(f, io);
      if ok then Store(g, p, io) else g
    else Store(f, p, io)
  }

  function Reopen(f: Files, io: Io): Files {
    var (g, ok) := RotateIfNeeded(f.(handle := Nil), io);
    if !ok then g else OpenLive(g, io).0
  }

  class RotatingFile {
    var live: Option<string>
    var backup: Option<string>
    var handle: Handle
    ghost var dropped: string
    ghost var written: string

    ghost function Value(): Files
      reads this
    {
      Files(live, backup, handle, dropped, written)
    }

    method RotateIfNeededNow(io: Io) returns (ok: bool)
      modifies this
      ensures (Value(), ok) == RotateIfNeeded(old(Value()), io)
    {
      if !io.statOk {
        return false;
      }
      if live.None? || |live.value| < CAP {
        return true;
      }
      if io.renameOk {
        dropped := dropped + Text(backup);
        backup, live := live, None;
        return true;
      }
      if io.removeOk {
        dropped := dropped + Text(backup);
        backup := None;
      }
      return false;
    }

    method OpenNow(io: Io) returns (ok: bool)
      modifies this
      ensures (Value(), ok) == OpenLive(old(Value()), io)
    {
      if !io.openOk {
        return false;
      }
      if live.None? {
        live := Some("");
      }
      handle := Usable;
      return true;
    }

    method WriteNow(p: string, io: Io)
      modifies this
      ensures Value() == Write(old(Value()), p, io)
    {
      if handle == Nil {
        return;
      }
      if handle == Usable && io.fstatOk && |Text(live)| + |p| > CAP {
        if !io.closeOk {
          handle := Dead;
          return;
        }
        handle := Nil;
        var rotated := RotateIfNeededNow(io);
        if !rotated {
          return;
        }
        var reopened := OpenNow(io);
        if !reopened {
          return;
        }
      }
      if handle == Usable {
        var part := if io.count < |p| then p[..io.count] else p;
        live := Some(Text(live) + part);
        written := written + part;
      }
    }

    method ReopenNow(io: Io)
      modifies this
      ensures Value() == Reopen(old(Value()), io)
    {
      handle := Nil;
      var rotated := RotateIfNeededNow(io);
      if !rotated {
        return;
      }
      var _ := OpenNow(io);
    }
  }

  // ----- What stays on disk -----

  /** Backup followed by live file. */
  function Kept(f: Files): string { Text(f.backup) + Text(f.live) }

  /**
    Nothing is lost in the middle or out of order; a backup has reached the cap; and once something
    was dropped, a file of at least the cap remains.
   */
  ghost predicate Inv(f: Files) {
    && f.written == f.dropped + Kept(f)
    && (f.backup.Some? ==> |f.backup.value| >= CAP)
    && (f.dropped != "" ==> f.backup.Some? || (f.live.Some? && |f.live.value| >= CAP && f.handle != Usable))
    && (f.handle == Usable ==> f.live.Some?)
  }

  lemma RotateKeepsInv(f: Files, io: Io)
    requires Inv(f) && f.handle == Nil
    ensures Inv(RotateIfNeeded(f, io).0) && RotateIfNeeded(f, io).0.handle == Nil
    ensures RotateIfNeeded(f, io).1 ==>
      var g := RotateIfNeeded(f, io).0; (g.dropped != "" ==> g.backup.Some?) && (g.live.Some? ==> |g.live.value| < CAP)
  {
    var g := RotateIfNeeded(f, io).0;
    if f.live.Some? {
      assert f.dropped + (Text(f.backup) + f.live.value) == f.dropped + Text(f.backup) + (f.live.value + "");
      assert f.dropped + (Text(f.backup) + f.live.value) == f.dropped + Text(f.backup) + ("" + f.live.value);
    }
  }

  lemma StoreKeepsInv(f: Files, p: string, io: Io)
    requires Inv(f)
    ensures Inv(Store(f, p, io))
  {
    if f.handle == Usable {
      var part := if io.count < |p| then p[..io.count] else p;
      assert f.dropped + (Text(f.backup) + Text(f.live)) + part == f.dropped + (Text(f.backup) + (Text(f.live) + part));
    }
  }

  lemma WriteKeepsInv(f: Files, p: string, io: Io)
    requires Inv(f)
    ensures Inv(Write(f, p, io))
  {
    if f.handle == Usable && io.fstatOk && |Text(f.live)| + |p| > CAP {
      if io.closeOk {
        RotateKeepsInv(f.(handle := Nil), io);
        var (g, ok) := Rotate(f, io);
        if ok { StoreKeepsInv(g, p, io); }
      }
    } else {
      StoreKeepsInv(f, p, io);
    }
  }

  lemma ReopenKeepsInv(f: Files, io: Io)
    requires Inv(f)
    ensures Inv(Reopen(f, io))
  {
    RotateKeepsInv(f.(handle := Nil), io);
  }

  datatype Op = DoWrite(p: string, io: Io) | DoReopen(io: Io)

  function Step(f: Files, op: Op): Files {
    match op
    case DoWrite(p, io) => Write(f, p, io)
    case DoReopen(io) => Reopen(f, io)
  }

  /** A run from no files; the first operation opens the log. */
  function Run(ops: seq<Op>): Files {
    if ops == [] then Empty else Step(Run(ops[..|ops| - 1]), ops[|ops| - 1])
  }

  lemma {:induction false} RunKeepsInv(ops: seq<Op>)
    ensures Inv(Run(ops))
  {
    if ops != [] {
      RunKeepsInv(ops[..|ops| - 1]);
      var f, op := Run(ops[..|ops| - 1]), ops[|ops| - 1];
      match op {
        case DoWrite(p, io) => WriteKeepsInv(f, p, io);
        case DoReopen(io) => ReopenKeepsInv(f, io);
      }
    }
  }

  /**
    After any run of writes and reopens, with any failures: backup followed by live file is a
    suffix of everything written, and holds at least the last CAP bytes of it, or all of it.
   */
  lemma KeptIsLongSuffix(ops: seq<Op>)
    ensures var f := Run(ops);
            && |Kept(f)| <= |f.written| && Kept(f) == f.written[|f.written| - |Kept(f)|..]
            && (|Kept(f)| >= 5 * 1024 * 1024 || Kept(f) == f.written)
  {
    RunKeepsInv(ops);
    var f := Run(ops);
    assert f.written[|f.dropped|..] == Kept(f);
    assert f.dropped == "" ==> f.dropped + Kept(f) == Kept(f);
  }

  /** A write adds to what was written a prefix of its bytes: as many as the file took, or none if it was not open. */
  lemma WriteStoresPrefix(f: Files, p: string, io: Io)
    ensures var g, k := Write(f, p, io), if io.count < |p| then io.count else |p|;
      g.written == f.written + (if g.handle == Usable then p[..k] else "")
  {
  }

  /** The number of bytes stored by the last operation that stored any. */
  function LastStored(ops: seq<Op>): nat {
    if ops == [] then 0
    else
      var before, after := Run(ops[..|ops| - 1]), Run(ops);
      if |after.written| > |before.written| then |after.written| - |before.written| else LastStored(ops[..|ops| - 1])
  }

  /** The live file is below the cap plus what the last storing operation stored. */
  ghost predicate Bounded(ops: seq<Op>) { |Text(Run(ops).live)| < CAP + LastStored(ops) }

  /** The bytes one write stores. */
  function Stored(f: Files, p: string, io: Io): nat {
    if |Write(f, p, io).written| > |f.written| then |Write(f, p, io).written| - |f.written| else 0
  }

  /** A write that stores something keeps the bound exactly when the size can be read or the file is below the cap. */
  lemma StoringWriteBoundedIff(f: Files, p: string, io: Io)
    requires Inv(f) && Stored(f, p, io) > 0
    ensures |Text(Write(f, p, io).live)| < CAP + Stored(f, p, io) <==> io.fstatOk || |Text(f.live)| < CAP
  {
    if f.handle == Usable && |Text(f.live)| + |p| > CAP && io.closeOk && io.fstatOk {
      RotateKeepsInv(f.(handle := Nil), io);
    }
  }

  /** An operation that stores nothing never lengthens the live file. */
  lemma StoringNothingKeepsBound(f: Files, op: Op)
    requires Inv(f) && |Step(f, op).written| <= |f.written|
    ensures |Text(Step(f, op).live)| <= |Text(f.live)|
  {
  }

  /** The last operation stores something although it neither sees the size nor finds the file below the cap. */
  ghost predicate EndsBlindly(ops: seq<Op>) {
    ops != [] &&
    var before, op := Run(ops[..|ops| - 1]), ops[|ops| - 1];
    && |Run(ops).written| > |before.written|
    && op.DoWrite? && !op.io.fstatOk && |Text(before.live)| >= CAP
  }

  /** No operation of the run stores blindly. */
  ghost predicate NeverBlind(ops: seq<Op>) {
    ops != [] ==> NeverBlind(ops[..|ops| - 1]) && !EndsBlindly(ops)
  }

  /** The bound holds at the start and after every operation of the run. */
  ghost predicate AlwaysBounded(ops: seq<Op>) {
    Bounded(ops) && (ops != [] ==> AlwaysBounded(ops[..|ops| - 1]))
  }

  /** The bound holds throughout a run exactly when no operation of it stores blindly. */
  lemma {:induction false} LiveBoundedIff(ops: seq<Op>)
    ensures AlwaysBounded(ops) <==> NeverBlind(ops)
  {
    if ops != [] {
      LiveBoundedIff(ops[..|ops| - 1]);
      BoundedStep(ops);
    }
  }

  lemma BoundedStep(ops: seq<Op>)
    requires ops != []
    ensures Bounded(ops[..|ops| - 1]) ==> (Bounded(ops) <==> !EndsBlindly(ops))
  {
    var init, op := ops[..|ops| - 1], ops[|ops| - 1];
    var f := Run(init);
    RunKeepsInv(init);
    if |Run(ops).written| > |f.written| {
      assert op.DoWrite?;
      StoringWriteBoundedIff(f, op.p, op.io);
    } else {
      StoringNothingKeepsBound(f, op);
    }
  }

  ghost predicate SizesReadable(ops: seq<Op>) {
    forall k :: 0 <= k < |ops| && ops[k].DoWrite? ==> ops[k].io.fstatOk
  }

  /** In particular in every run in which the file's size can be read, whatever else fails. */
  lemma LiveBoundedInRuns(ops: seq<Op>)
    requires SizesReadable(ops)
    ensures |Text(Run(ops).live)| < 5 * 1024 * 1024 + LastStored(ops)
  {
    ReadableIsNeverBlind(ops);
    LiveBoundedIff(ops);
  }

  lemma {:induction false} ReadableIsNeverBlind(ops: seq<Op>)
    requires SizesReadable(ops)
    ensures NeverBlind(ops)
  {
    if ops != [] { ReadableIsNeverBlind(ops[..|ops| - 1]); }
  }

  /** A run that breaks it: past the cap, then one byte whose size check fails. */
  lemma BlindWriteBreaksTheBound(a: string, b: string, c: string)
    requires |a| == CAP - 1 && |b| == 2 && |c| == 1
    ensures var ops := [DoReopen(AllOk), DoWrite(a, Good(a)), DoWrite(b, Good(b)),
        DoWrite(c, Good(c).(fstatOk := false))];
      EndsBlindly(ops) && !Bounded(ops)
  {
    var init := [DoReopen(AllOk), DoWrite(a, Good(a)), DoWrite(b, Good(b))];
    var last := DoWrite(c, Good(c).(fstatOk := false));
    RunPassesTheCap(a, b);
    var ops := init + [last];
    assert ops == [DoReopen(AllOk), DoWrite(a, Good(a)), DoWrite(b, Good(b)), last];
    assert ops[..|ops| - 1] == init;
    assert Run(ops) == Write(Run(init), c, last.io);
  }

  /**
    After a non-empty write the live file is below the cap plus that very write exactly when it was
    before, or closing, inspecting and renaming it all succeed.
   */
  lemma BoundedByThisWriteIff(f: Files, p: string, io: Io)
    requires Inv(f) && f.handle == Usable && io.fstatOk && p != ""
    ensures |Text(Write(f, p, io).live)| < CAP + |p| <==>
      |Text(f.live)| < CAP + |p| || (io.closeOk && io.statOk && io.renameOk)
  {
    if |Text(f.live)| + |p| > CAP && io.closeOk {
      RotateKeepsInv(f.(handle := Nil), io);
    }
  }

  function Good(p: string): Io { AllOk.(count := |p|) }

  /** With every call succeeding, exactly when a write leaves the live file above the cap. */
  lemma LiveCanPassTheCap(f: Files, p: string)
    requires Inv(f) && f.handle == Usable
    ensures |Text(Write(f, p, Good(p)).live)| > CAP <==>
      if |Text(f.live)| < CAP then |Text(f.live)| + |p| > CAP else |p| > CAP
  {
    RotateKeepsInv(f.(handle := Nil), Good(p));
  }

  /** A run that passes it: one byte less than the cap, then a longer write. */
  lemma RunPassesTheCap(a: string, b: string)
    requires |a| == CAP - 1 && |b| >= 2
    ensures var f := Run([DoReopen(AllOk), DoWrite(a, Good(a)), DoWrite(b, Good(b))]);
      f.handle == Usable && f.live == Some(a + b) && |f.live.value| == CAP + |b| - 1
  {
    var o0, o1, o2 := DoReopen(AllOk), DoWrite(a, Good(a)), DoWrite(b, Good(b));
    assert [o0][..0] == [];
    assert [o0, o1][..1] == [o0];
    assert [o0, o1, o2][..2] == [o0, o1];
    assert Run([o0]).live == Some("") && Run([o0]).handle == Usable;
    assert "" + a == a;
    assert Run([o0, o1]).live == Some(a);
  }

  /** Then a one-byte write whose rename fails leaves the file at the cap plus more than that write. */
  lemma FailedRenameKeepsLongFile(a: string, b: string, c: string)
    requires |a| == CAP - 1 && |b| >= 3 && |c| == 1
    ensures var f := Run([DoReopen(AllOk), DoWrite(a, Good(a)), DoWrite(b, Good(b)),
        DoWrite(c, Good(c).(renameOk := false))]);
      |Text(f.live)| >= CAP + |c|
  {
    var ops := [DoReopen(AllOk), DoWrite(a, Good(a)), DoWrite(b, Good(b))];
    var io := Good(c).(renameOk := false);
    RunPassesTheCap(a, b);
    RunKeepsInv(ops);
    BoundedByThisWriteIff(Run(ops), c, io);
    assert (ops + [DoWrite(c, io)])[..|ops|] == ops;
    assert ops + [DoWrite(c, io)] == [DoReopen(AllOk), DoWrite(a, Good(a)), DoWrite(b, Good(b)), DoWrite(c, io)];
  }

  /** The bound is for non-empty writes: an empty one leaves a live file of exactly the cap in place. */
  lemma EmptyWriteAtTheCap(f: Files, io: Io)
    requires f.handle == Usable && f.live.Some? && |f.live.value| == CAP
    ensures Write(f, "", io) == f && |Text(Write(f, "", io).live)| == CAP
  {
    assert f.live.value + "" == f.live.value && f.written + "" == f.written;
  }

  // ----- Reading the tail -----

  /** The position after the first line break at or after `from`, if there is one. */
  function AfterBreak(text: string, from: nat): (r: Option<nat>)
    requires from <= |text|
    ensures r.Some? ==> from < r.value <= |text| && text[r.value - 1] == '\n'
    ensures r.Some? ==> forall i :: from <= i < r.value - 1 ==> text[i] != '\n'
    ensures r.None? ==> forall i :: from <= i < |text| ==> text[i] != '\n'
    decreases |text| - from
  {
    if from == |text| then None
    else if text[from] == '\n' then Some(from + 1)
    else AfterBreak(text, from + 1)
  }

  /**
    ReadLogTail: a suffix of the live file within the limit; when something is cut off it starts at
    the earliest line start strictly inside the window, if there is one. No file reads as empty.
   */
  method ReadLogTail(file: Option<string>, maxBytes: int) returns (tail: string, ghost start: nat)
    ensures var text, limit := Text(file), if maxBytes <= 0 then 512 * 1024 else maxBytes;
      && start <= |text| && tail == text[start..] && |tail| <= limit
      && (|text| <= limit ==> start == 0)
      && (|text| > limit ==>
            var w := |text| - limit;
            if exists i :: w <= i < |text| && text[i] == '\n'
            then start > w && text[start - 1] == '\n' && forall i :: w <= i < start - 1 ==> text[i] != '\n'
            else start == w)
  {
    var limit := maxBytes;
    if maxBytes <= 0 {
      limit := TAIL_BYTES;
    }
    if file.None? {
      return "", 0;
    }
    var text := file.value;
    var first := |text| - limit;
    if first < 0 {
      first := 0;
    }
    tail, start := text[first..], first;
    if first > 0 {
      var at := AfterBreak(text, first);
      if at.Some? {
        tail, start := text[at.value..], at.value;
      }
    }
  }
}

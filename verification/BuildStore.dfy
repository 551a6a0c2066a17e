/**
  The build record store: new builds, migrated builds, finished jobs and the two-phase history sync
  all change one newest-first list and persist it
  (backend/internal/daemon/builds.go, backend/internal/daemon/build_sync.go,
  backend/internal/buildhistory/history.go, backend/internal/buildstore/store.go).
 */
module BuildStore {
  import opened Options
  import opened Text

  const MAX_BUILDS := 200

  /** Everything about a build that neither names it nor links it to history. */
  type Body = string

  datatype Build = Build(id: string, historyRef: string, body: Body)

  /** A row of the build history list. */
  datatype Row = Row(id: string, ref: string)

  datatype Kind = Local | History | Migrated

  function Prefix(kind: Kind): string {
    match kind
    case Local => "build-"
    case History => "history-"
    case Migrated => "migrated-"
  }

  function IdText(kind: Kind, n: nat): string { Prefix(kind) + Decimal(n) }

  lemma IdTextInjective(k: Kind, m: nat, l: Kind, n: nat)
    requires IdText(k, m) == IdText(l, n)
    ensures k == l && m == n
  {
    assert IdText(k, m)[0] == IdText(l, n)[0];
    assert k == l;
    assert IdText(k, m)[|Prefix(k)|..] == Decimal(m);
    assert IdText(l, n)[|Prefix(k)|..] == Decimal(n);
    DecimalInjective(m, n);
  }

  // ----- History rows -----

  function HistoryID(row: Row): string {
    if row.id != "" then row.id
    else if row.ref == "" then ""
    else var parts := Split(row.ref, "/"); parts[|parts| - 1]
  }

  /** A row is named by its id, or by the last path segment of its ref. */
  lemma HistoryIDIsLastSegment(row: Row) returns (before: string)
    ensures row.id != "" ==> HistoryID(row) == row.id
    ensures row.id == "" && row.ref == "" ==> HistoryID(row) == ""
    ensures row.id == "" && row.ref != "" ==>
      !Contains(HistoryID(row), "/") && (row.ref == HistoryID(row) || row.ref == before + "/" + HistoryID(row))
  {
    before := "";
    if row.id == "" && row.ref != "" {
      var parts := Split(row.ref, "/");
      SplitPieces(row.ref, "/");
      JoinSplit(row.ref, "/");
      if |parts| > 1 {
        var init, last := parts[..|parts| - 1], parts[|parts| - 1];
        JoinAppend(init, [last], "/");
        assert init + [last] == parts;
        before := Join(init, "/");
      }
    }
  }

  /** The refs MergeRows imports: named, not known, each once, in row order. */
  function NewRefs(known: set<string>, rows: seq<Row>): seq<string> {
    if rows == [] then []
    else
      var refs, ref := NewRefs(known, rows[..|rows| - 1]), HistoryID(rows[|rows| - 1]);
      if ref == "" || ref in known || ref in refs then refs else refs + [ref]
  }

  predicate Listed(rows: seq<Row>, ref: string) { exists i :: 0 <= i < |rows| && HistoryID(rows[i]) == ref }

  lemma ListedLast(rows: seq<Row>, ref: string)
    requires rows != []
    ensures Listed(rows, ref) <==> Listed(rows[..|rows| - 1], ref) || HistoryID(rows[|rows| - 1]) == ref
  {
    var init := rows[..|rows| - 1];
    assert forall i :: 0 <= i < |init| ==> init[i] == rows[i];
    if i :| 0 <= i < |init| && HistoryID(init[i]) == ref { assert HistoryID(rows[i]) == ref; }
    if i :| 0 <= i < |rows| && HistoryID(rows[i]) == ref { assert i < |init| ==> HistoryID(init[i]) == ref; }
  }

  /** MergeRows yields exactly the named refs that were not known, without repetition. */
  lemma {:induction false} NewRefsAreTheUnknown(known: set<string>, rows: seq<Row>)
    ensures Distinct(NewRefs(known, rows))
    ensures forall ref :: ref in NewRefs(known, rows) <==> ref != "" && ref !in known && Listed(rows, ref)
  {
    if rows != [] {
      NewRefsAreTheUnknown(known, rows[..|rows| - 1]);
      forall ref { ListedLast(rows, ref); }
    }
  }

  method MergeRows(known: set<string>, rows: seq<Row>) returns (imported: seq<string>)
    ensures imported == NewRefs(known, rows)
  {
    var existing := known;
    imported := [];
    assert rows[..0] == [];
    for i := 0 to |rows|
      invariant imported == NewRefs(known, rows[..i])
      invariant existing == known + set ref | ref in imported
    {
      assert rows[..i + 1][..i] == rows[..i];
      var ref := HistoryID(rows[i]);
      if ref == "" {
        continue;
      }
      if ref in existing {
        continue;
      }
      imported := imported + [ref];
      existing := existing + {ref};
    }
    assert rows[..|rows|] == rows;
  }

  // ----- The store -----

  datatype File = File(builds: seq<Build>, seqNo: nat)

  /** What the first phase of a sync hands to the second. */
  datatype Snapshot = Snapshot(updates: map<string, Build>, imports: seq<Build>)

  /**
    The in-memory list, the id counter and the saved file. `issued` is the history of all ids given
    out; `sync` the snapshot of the one sync loop between its phases.
   */
  datatype Store = Store(builds: seq<Build>, seqNo: nat, disk: Option<File>, issued: seq<string>,
      sync: Option<Snapshot>)

  const Init := Store([], 0, None, [], None)

  function Trim(bs: seq<Build>): (r: seq<Build>)
    ensures |r| <= MAX_BUILDS && r <= bs
  {
    if |bs| > MAX_BUILDS then bs[..MAX_BUILDS] else bs
  }

  /** persistBuildsLocked: save the trimmed list, then trim in memory. */
  function Persist(s: Store, saveOk: bool): Store {
    s.(builds := Trim(s.builds), disk := if saveOk then Some(File(Trim(s.builds), s.seqNo)) else s.disk)
  }

  function NextID(s: Store, kind: Kind): string { IdText(kind, s.seqNo + 1) }

  /** A new record in front, under the next id. */
  function Add(s: Store, kind: Kind, ref: string, body: Body): Store {
    var id := NextID(s, kind);
    s.(seqNo := s.seqNo + 1, builds := [Build(id, ref, body)] + s.builds, issued := s.issued + [id])
  }

  /** The first record with the id gets a new body. */
  function SetBody(bs: seq<Build>, id: string, body: Body): (r: seq<Build>)
    ensures |r| == |bs|
    ensures forall i :: 0 <= i < |bs| ==> r[i].id == bs[i].id && r[i].historyRef == bs[i].historyRef
  {
    if bs == [] then []
    else if bs[0].id == id then [bs[0].(body := body)] + bs[1..]
    else [bs[0]] + SetBody(bs[1..], id, body)
  }

  predicate Has(bs: seq<Build>, id: string) { exists i :: 0 <= i < |bs| && bs[i].id == id }

  function Finish(s: Store, id: string, body: Body, saveOk: bool): Store {
    if Has(s.builds, id) then Persist(s.(builds := SetBody(s.builds, id, body)), saveOk) else s
  }

  function Refs(bs: seq<Build>): set<string> {
    set i | 0 <= i < |bs| && bs[i].historyRef != "" :: bs[i].historyRef
  }

  /** The refreshed records by id, kept only where the fresh body differs from the stored one. */
  function UpdatesOf(bs: seq<Build>, rows: seq<Row>, news: map<string, Body>): map<string, Build> {
    if bs == [] then map[]
    else
      var updates, b := UpdatesOf(bs[..|bs| - 1], rows, news), bs[|bs| - 1];
      if b.historyRef != "" && Listed(rows, b.historyRef) && b.id in news && news[b.id] != b.body
      then updates[b.id := b.(body := news[b.id])]
      else updates
  }

  /** Phase one: the list is read under the lock, the bodies come from outside. */
  function TakeSnapshot(
      bs: seq<Build>, rows: seq<Row>, news: map<string, Body>, importBodies: map<string, Body>): Snapshot
  {
    Snapshot(UpdatesOf(bs, rows, news), ImportsOf(NewRefs(Refs(bs), rows), importBodies))
  }

  function ImportsOf(refs: seq<string>, bodies: map<string, Body>): (bs: seq<Build>)
    ensures |bs| == |refs| && forall i :: 0 <= i < |refs| ==> bs[i].historyRef == refs[i]
  {
    seq(|refs|, i requires 0 <= i < |refs| => Build("", refs[i], if refs[i] in bodies then bodies[refs[i]] else ""))
  }

  function Updated(bs: seq<Build>, updates: map<string, Build>): (r: seq<Build>)
    ensures |r| == |bs|
  {
    seq(|bs|, i requires 0 <= i < |bs| => if bs[i].id in updates then updates[bs[i].id] else bs[i])
  }

  /** Ids for the imports, in order, from the counter on. */
  function Named(imports: seq<Build>, seqNo: nat): (bs: seq<Build>)
    ensures |bs| == |imports|
    ensures forall i :: 0 <= i < |bs| ==> bs[i] == imports[i].(id := IdText(History, seqNo + 1 + i))
  {
    seq(|imports|, i requires 0 <= i < |imports| => imports[i].(id := IdText(History, seqNo + 1 + i)))
  }

  function IdsOf(bs: seq<Build>): (ids: seq<string>)
    ensures |ids| == |bs| && forall i :: 0 <= i < |bs| ==> ids[i] == bs[i].id
  {
    seq(|bs|, i requires 0 <= i < |bs| => bs[i].id)
  }

  predicate Touches(bs: seq<Build>, updates: map<string, Build>) {
    exists i :: 0 <= i < |bs| && bs[i].id in updates
  }

  /** Phase two, under the write lock. */
  function CommitSync(s: Store, snap: Snapshot, saveOk: bool): Store {
    var added := Named(snap.imports, s.seqNo);
    var t := s.(builds := added + Updated(s.builds, snap.updates), seqNo := s.seqNo + |added|,
                issued := s.issued + IdsOf(added), sync := None);
    if Touches(s.builds, snap.updates) || |added| > 0 then Persist(t, saveOk) else t
  }

  /** What is on disk: the saved file, or nothing. */
  function Load(disk: Option<File>): File {
    match disk
    case None => File([], 0)
    case Some(file) => file
  }

  /** loadBuilds: a file that cannot be read or decoded leaves the list empty and the counter at zero. */
  function Restart(s: Store, loadOk: bool): Store {
    var file := if loadOk then Load(s.disk) else File([], 0);
    s.(builds := file.builds, seqNo := file.seqNo, sync := None)
  }

  // ----- Runs -----

  /**
    Amend stands for every operation that rewrites one record's body: a finished job, an edited
    path, an enrichment.
   */
  datatype Event =
    | NewBuild(body: Body, saveOk: bool)
    | AddMigrated(body: Body, saveOk: bool)
    | Amend(id: string, body: Body, saveOk: bool)
    | SyncBegin(rows: seq<Row>, news: map<string, Body>, importBodies: map<string, Body>)
    | SyncCommit(saveOk: bool)
    | Reload(loadOk: bool)

  /** There is one sync loop, so its phases alternate. */
  predicate Enabled(s: Store, e: Event) {
    (e.SyncBegin? ==> s.sync.None?) && (e.SyncCommit? ==> s.sync.Some?)
  }

  function Apply(s: Store, e: Event): Store
    requires Enabled(s, e)
  {
    match e
    case NewBuild(body, saveOk) => Persist(Add(s, Local, "", body), saveOk)
    case AddMigrated(body, saveOk) => Persist(Add(s, Migrated, "", body), saveOk)
    case Amend(id, body, saveOk) => Finish(s, id, body, saveOk)
    case SyncBegin(rows, news, importBodies) => s.(sync := Some(TakeSnapshot(s.builds, rows, news, importBodies)))
    case SyncCommit(saveOk) => CommitSync(s, s.sync.value, saveOk)
    case Reload(loadOk) => Restart(s, loadOk)
  }

  function Run(es: seq<Event>): Option<Store> {
    if es == [] then Some(Init)
    else
      var e := es[|es| - 1];
      match Run(es[..|es| - 1])
      case None => None
      case Some(s) => if Enabled(s, e) then Some(Apply(s, e)) else None
  }

  /** Every restart picks up the last number given out. */
  ghost predicate CleanRestarts(es: seq<Event>) {
    es != [] ==>
      var prefix, e := es[..|es| - 1], es[|es| - 1];
      CleanRestarts(prefix) && (e.Reload? && Run(prefix).Some? ==> NoIdLost(Run(prefix).value, e.loadOk))
  }

  /** The load succeeds and the file holds the last number, or no id was ever given out. */
  predicate NoIdLost(s: Store, loadOk: bool) {
    (loadOk && Load(s.disk).seqNo == s.seqNo) || s.seqNo == 0
  }

  // ----- The invariant -----

  predicate IsNumber(id: string, n: nat) {
    id == IdText(Local, n) || id == IdText(History, n) || id == IdText(Migrated, n)
  }

  /** The k-th id given out carries number k + 1. */
  ghost predicate Numbered(issued: seq<string>) {
    forall k: nat :: k < |issued| ==> IsNumber(issued[k], k + 1)
  }

  /** The id carries one of the numbers 1 to n. */
  ghost predicate NumberedUpTo(id: string, n: nat) {
    exists k: nat :: 1 <= k <= n && IsNumber(id, k)
  }

  /** The records of a list whose counter stands at n: distinct ids, numbered up to n and given out. */
  ghost predicate IdsOk(bs: seq<Build>, n: nat, issued: seq<string>) {
    && (forall i, j :: 0 <= i < j < |bs| ==> bs[i].id != bs[j].id)
    && (forall i :: 0 <= i < |bs| ==> NumberedUpTo(bs[i].id, n) && bs[i].id in issued)
  }

  ghost predicate RefsOk(bs: seq<Build>) {
    forall i, j :: 0 <= i < j < |bs| && bs[i].historyRef != "" ==> bs[i].historyRef != bs[j].historyRef
  }

  ghost predicate UpdatesOk(bs: seq<Build>, n: nat, updates: map<string, Build>) {
    && (forall id <- updates :: NumberedUpTo(id, n) && updates[id].id == id && updates[id].historyRef != "")
    && (forall i :: 0 <= i < |bs| && bs[i].id in updates ==> updates[bs[i].id].historyRef == bs[i].historyRef)
  }

  ghost predicate ImportsOk(bs: seq<Build>, imports: seq<Build>) {
    && RefsOk(imports)
    && (forall k :: 0 <= k < |imports| ==> imports[k].historyRef != "" && imports[k].historyRef !in Refs(bs))
  }

  ghost predicate SnapshotOk(bs: seq<Build>, n: nat, sync: Option<Snapshot>) {
    sync.Some? ==> UpdatesOk(bs, n, sync.value.updates) && ImportsOk(bs, sync.value.imports)
  }

  /** What holds of every list, in memory and on disk, whatever fails; the bound holds only between operations. */
  ghost predicate Sound(s: Store) {
    && IdsOk(s.builds, s.seqNo, s.issued) && RefsOk(s.builds)
    && SnapshotOk(s.builds, s.seqNo, s.sync)
    && IdsOk(Load(s.disk).builds, Load(s.disk).seqNo, s.issued) && RefsOk(Load(s.disk).builds)
    && |Load(s.disk).builds| <= MAX_BUILDS
  }

  ghost predicate Inv(s: Store) { Sound(s) && |s.builds| <= MAX_BUILDS }

  /** As long as no restart loses a number, the counter stands at the number of ids given out. */
  ghost predicate CounterOk(s: Store) {
    |s.issued| == s.seqNo && Numbered(s.issued) && Load(s.disk).seqNo <= s.seqNo
  }

  // ----- Every operation prepends fresh records, rewrites bodies, and cuts the tail -----

  lemma NumbersDiffer(issued: seq<string>, kind: Kind, n: nat)
    requires Numbered(issued) && n > |issued|
    ensures IdText(kind, n) !in issued
  {
    forall k: nat | k < |issued| ensures issued[k] != IdText(kind, n) { OneNumberEach(issued[k], k + 1, kind, n); }
  }

  lemma OneNumberEach(id: string, m: nat, kind: Kind, n: nat)
    requires IsNumber(id, m) && m != n
    ensures id != IdText(kind, n)
  {
    var l := if id == IdText(Local, m) then Local else if id == IdText(History, m) then History else Migrated;
    if IdText(l, m) == IdText(kind, n) { IdTextInjective(l, m, kind, n); }
  }

  lemma FreshNumber(kind: Kind, m: nat, n: nat)
    requires n < m
    ensures !NumberedUpTo(IdText(kind, m), n)
  {
    forall k: nat | 1 <= k <= n ensures !IsNumber(IdText(kind, m), k) {
      if IsNumber(IdText(kind, m), k) { OneNumberEach(IdText(kind, m), k, kind, m); }
    }
  }

  lemma IssuedDistinct(issued: seq<string>)
    requires Numbered(issued)
    ensures Distinct(issued)
  {
    forall j: nat | j < |issued| ensures issued[j] !in issued[..j] {
      assert forall k :: 0 <= k < j ==> issued[..j][k] == issued[k];
      assert Numbered(issued[..j]);
      NumbersDiffer(issued[..j], Local, j + 1);
      NumbersDiffer(issued[..j], History, j + 1);
      NumbersDiffer(issued[..j], Migrated, j + 1);
    }
    forall i, j | 0 <= i < j < |issued| ensures issued[i] != issued[j] {
      assert issued[..j][i] == issued[i];
    }
  }

  ghost predicate SameNames(bs: seq<Build>, cs: seq<Build>) {
    |bs| == |cs| && forall i :: 0 <= i < |bs| ==> bs[i].id == cs[i].id && bs[i].historyRef == cs[i].historyRef
  }

  lemma SameNamesKeep(s: Store, bs: seq<Build>)
    requires Sound(s) && SameNames(bs, s.builds)
    ensures Sound(s.(builds := bs))
  {
    assert Refs(bs) == Refs(s.builds);
  }

  lemma PersistKeeps(s: Store, saveOk: bool)
    requires Sound(s)
    ensures Inv(Persist(s, saveOk))
  {
    var bs := Trim(s.builds);
    assert forall i :: 0 <= i < |bs| ==> bs[i] == s.builds[i];
    assert Refs(bs) <= Refs(s.builds);
  }

  lemma PrependKeeps(s: Store, added: seq<Build>, kind: Kind)
    requires Sound(s)
    requires forall i :: 0 <= i < |added| ==> added[i].id == IdText(kind, s.seqNo + 1 + i)
    requires RefsOk(added)
    requires forall i :: 0 <= i < |added| ==> added[i].historyRef !in Refs(s.builds)
    requires s.sync.Some? ==> forall i :: 0 <= i < |added| ==> added[i].historyRef == ""
    ensures Sound(s.(builds := added + s.builds, seqNo := s.seqNo + |added|, issued := s.issued + IdsOf(added)))
  {
    var bs, issued := added + s.builds, s.issued + IdsOf(added);
    PrependKeepsIds(s.builds, s.seqNo, s.issued, added, kind);
    PrependKeepsRefs(s.builds, added);
    assert s.sync.Some? ==> Refs(bs) == Refs(s.builds) by {
      if s.sync.Some? { assert Refs(added) == {}; RefsAppend(added, s.builds); }
    }
  }

  lemma PrependKeepsIds(bs: seq<Build>, n: nat, issued: seq<string>, added: seq<Build>, kind: Kind)
    requires IdsOk(bs, n, issued)
    requires forall i :: 0 <= i < |added| ==> added[i].id == IdText(kind, n + 1 + i)
    ensures IdsOk(added + bs, n + |added|, issued + IdsOf(added))
    ensures forall i :: 0 <= i < |added| ==> !NumberedUpTo(added[i].id, n)
  {
    var all, more := added + bs, issued + IdsOf(added);
    AddedIds(n, added, kind);
    forall i | 0 <= i < |bs| ensures NumberedUpTo(bs[i].id, n + |added|) { UpToGrows(bs[i].id, n, n + |added|); }
    forall i | 0 <= i < |all| ensures all[i].id in more {
      if i < |added| { assert more[|issued| + i] == all[i].id; }
    }
  }

  lemma AddedIds(n: nat, added: seq<Build>, kind: Kind)
    requires forall i :: 0 <= i < |added| ==> added[i].id == IdText(kind, n + 1 + i)
    ensures forall i :: 0 <= i < |added| ==> !NumberedUpTo(added[i].id, n) && NumberedUpTo(added[i].id, n + |added|)
    ensures forall i, j :: 0 <= i < j < |added| ==> added[i].id != added[j].id
  {
    forall i | 0 <= i < |added| ensures !NumberedUpTo(added[i].id, n) && NumberedUpTo(added[i].id, n + |added|) {
      FreshNumber(kind, n + 1 + i, n);
      assert IsNumber(added[i].id, n + 1 + i);
    }
    forall i, j | 0 <= i < j < |added| ensures added[i].id != added[j].id {
      if added[i].id == added[j].id { IdTextInjective(kind, n + 1 + i, kind, n + 1 + j); }
    }
  }

  lemma UpToGrows(id: string, m: nat, n: nat)
    requires NumberedUpTo(id, m) && m <= n
    ensures NumberedUpTo(id, n)
  {
    var k: nat :| 1 <= k <= m && IsNumber(id, k);
    assert 1 <= k <= n && IsNumber(id, k);
  }

  lemma RefsAppend(bs: seq<Build>, cs: seq<Build>)
    ensures Refs(bs + cs) == Refs(bs) + Refs(cs)
  {
    var all := bs + cs;
    forall ref | ref in Refs(bs) ensures ref in Refs(all) {
      var i :| 0 <= i < |bs| && bs[i].historyRef != "" && bs[i].historyRef == ref;
      assert all[i] == bs[i];
    }
    forall ref | ref in Refs(cs) ensures ref in Refs(all) {
      var i :| 0 <= i < |cs| && cs[i].historyRef != "" && cs[i].historyRef == ref;
      assert all[|bs| + i] == cs[i];
    }
  }

  lemma PrependKeepsRefs(bs: seq<Build>, added: seq<Build>)
    requires RefsOk(bs) && RefsOk(added)
    requires forall i :: 0 <= i < |added| ==> added[i].historyRef !in Refs(bs)
    ensures RefsOk(added + bs)
  {
    forall i | 0 <= i < |bs| && bs[i].historyRef != "" ensures bs[i].historyRef in Refs(bs) {}
  }

  lemma {:induction false} UpdatesAmong(bs: seq<Build>, rows: seq<Row>, news: map<string, Body>)
    ensures forall id <- UpdatesOf(bs, rows, news) :: exists i :: 0 <= i < |bs| && bs[i].id == id
  {
    if bs != [] {
      var init := bs[..|bs| - 1];
      UpdatesAmong(init, rows, news);
      assert forall i :: 0 <= i < |init| ==> init[i] == bs[i];
    }
  }

  lemma {:induction false} UpdatesKeepNames(
      bs: seq<Build>, n: nat, issued: seq<string>, rows: seq<Row>, news: map<string, Body>)
    requires IdsOk(bs, n, issued)
    ensures UpdatesOk(bs, n, UpdatesOf(bs, rows, news))
  {
    if bs != [] {
      var init := bs[..|bs| - 1];
      assert forall i :: 0 <= i < |init| ==> init[i] == bs[i];
      UpdatesKeepNames(init, n, issued, rows, news);
      UpdatesAmong(init, rows, news);
    }
  }

  lemma SnapshotKeeps(s: Store, rows: seq<Row>, news: map<string, Body>, importBodies: map<string, Body>)
    requires Sound(s)
    ensures Sound(s.(sync := Some(TakeSnapshot(s.builds, rows, news, importBodies))))
  {
    UpdatesKeepNames(s.builds, s.seqNo, s.issued, rows, news);
    var refs := NewRefs(Refs(s.builds), rows);
    NewRefsAreTheUnknown(Refs(s.builds), rows);
    forall k | 0 <= k < |refs| ensures refs[k] != "" && refs[k] !in Refs(s.builds) { assert refs[k] in refs; }
  }

  lemma CommitKeeps(s: Store, saveOk: bool)
    requires Inv(s) && s.sync.Some?
    ensures Inv(CommitSync(s, s.sync.value, saveOk))
  {
    var snap := s.sync.value;
    var updated := s.(builds := Updated(s.builds, snap.updates));
    SameNamesKeep(s, updated.builds);
    var added := Named(snap.imports, s.seqNo);
    var t := updated.(sync := None);
    assert Refs(updated.builds) == Refs(s.builds);
    PrependKeeps(t, added, History);
    var u := t.(builds := added + t.builds, seqNo := t.seqNo + |added|, issued := t.issued + IdsOf(added));
    PersistKeeps(u, saveOk);
  }

  lemma AddKeeps(s: Store, kind: Kind, body: Body)
    requires Sound(s)
    ensures Sound(Add(s, kind, "", body))
  {
    var added := [Build(IdText(kind, s.seqNo + 1), "", body)];
    PrependKeeps(s, added, kind);
    assert IdsOf(added) == [added[0].id];
  }

  lemma RestartKeeps(s: Store, loadOk: bool)
    requires Inv(s)
    ensures Inv(Restart(s, loadOk))
  {
  }

  lemma ApplyKeeps(s: Store, e: Event)
    requires Inv(s) && Enabled(s, e)
    ensures Inv(Apply(s, e))
  {
    match e
    case NewBuild(body, saveOk) =>
      AddKeeps(s, Local, body);
      PersistKeeps(Add(s, Local, "", body), saveOk);
    case AddMigrated(body, saveOk) =>
      AddKeeps(s, Migrated, body);
      PersistKeeps(Add(s, Migrated, "", body), saveOk);
    case Amend(id, body, saveOk) =>
      SameNamesKeep(s, SetBody(s.builds, id, body));
      PersistKeeps(s.(builds := SetBody(s.builds, id, body)), saveOk);
    case SyncBegin(rows, news, importBodies) => SnapshotKeeps(s, rows, news, importBodies);
    case SyncCommit(saveOk) => CommitKeeps(s, saveOk);
    case Reload(loadOk) => RestartKeeps(s, loadOk);
  }

  lemma {:induction false} RunKeeps(es: seq<Event>)
    requires Run(es).Some?
    ensures Inv(Run(es).value)
  {
    if es != [] {
      RunKeeps(es[..|es| - 1]);
      ApplyKeeps(Run(es[..|es| - 1]).value, es[|es| - 1]);
    }
  }

  lemma NumberedAppend(issued: seq<string>, added: seq<Build>, kind: Kind)
    requires Numbered(issued) && forall i :: 0 <= i < |added| ==> added[i].id == IdText(kind, |issued| + 1 + i)
    ensures Numbered(issued + IdsOf(added))
  {
  }

  lemma CounterStep(s: Store, e: Event)
    requires CounterOk(s) && Enabled(s, e)
    requires e.Reload? ==> NoIdLost(s, e.loadOk)
    ensures CounterOk(Apply(s, e))
  {
    match e
    case SyncCommit(_) => NumberedAppend(s.issued, Named(s.sync.value.imports, s.seqNo), History);
    case NewBuild(body, _) => AddCounts(s, Local, body);
    case AddMigrated(body, _) => AddCounts(s, Migrated, body);
    case _ =>
  }

  lemma AddCounts(s: Store, kind: Kind, body: Body)
    requires CounterOk(s)
    ensures CounterOk(Add(s, kind, "", body))
  {
  }

  lemma {:induction false} CounterKeeps(es: seq<Event>)
    requires Run(es).Some? && CleanRestarts(es)
    ensures CounterOk(Run(es).value)
  {
    if es != [] {
      CounterKeeps(es[..|es| - 1]);
      CounterStep(Run(es[..|es| - 1]).value, es[|es| - 1]);
    }
  }

  // ----- Main results -----

  /**
    Over every interleaving, failed saves and failed loads included: records have distinct ids that
    were given out, linked records have distinct history refs, and at most 200 records remain, in
    memory and on disk.
   */
  lemma StoreIsConsistent(es: seq<Event>)
    requires Run(es).Some?
    ensures var s := Run(es).value;
      && Distinct(IdsOf(s.builds)) && (forall id <- IdsOf(s.builds) :: id in s.issued)
      && RefsOk(s.builds) && |s.builds| <= 200
      && Distinct(IdsOf(Load(s.disk).builds)) && RefsOk(Load(s.disk).builds) && |Load(s.disk).builds| <= 200
  {
    RunKeeps(es);
  }

  /** No id is ever given out twice, as long as every restart picks up the last number. */
  lemma IdsAreNeverReused(es: seq<Event>)
    requires Run(es).Some? && CleanRestarts(es)
    ensures Distinct(Run(es).value.issued)
  {
    CounterKeeps(es);
    IssuedDistinct(Run(es).value.issued);
  }

  predicate Saves(s: Store, e: Event)
    requires Enabled(s, e)
  {
    match e
    case NewBuild(_, saveOk) => saveOk
    case AddMigrated(_, saveOk) => saveOk
    case Amend(id, _, saveOk) => saveOk && Has(s.builds, id)
    case SyncBegin(_, _, _) => false
    case SyncCommit(saveOk) => saveOk && (Touches(s.builds, s.sync.value.updates) || s.sync.value.imports != [])
    case Reload(_) => false
  }

  /** Each successful save is the list kept in memory with its counter; nothing else touches the file. */
  lemma SaveIsTheListInMemory(s: Store, e: Event)
    requires Enabled(s, e)
    ensures Saves(s, e) ==> Apply(s, e).disk == Some(File(Apply(s, e).builds, Apply(s, e).seqNo))
    ensures !Saves(s, e) ==> Apply(s, e).disk == s.disk
  {
  }

  predicate SaveFails(e: Event) {
    match e
    case NewBuild(_, saveOk) => !saveOk
    case AddMigrated(_, saveOk) => !saveOk
    case Amend(_, _, saveOk) => !saveOk
    case SyncCommit(saveOk) => !saveOk
    case _ => false
  }

  lemma UntouchedStays(bs: seq<Build>, updates: map<string, Build>)
    requires !Touches(bs, updates)
    ensures Updated(bs, updates) == bs
  {
    forall i | 0 <= i < |bs| ensures Updated(bs, updates)[i] == bs[i] {
      assert bs[i].id !in updates;
    }
  }

  /** The last start-up could not read the file, and nothing was saved since. */
  ghost predicate UnreadSince(es: seq<Event>)
    requires Run(es).Some?
  {
    es != [] &&
    var prefix, e := es[..|es| - 1], es[|es| - 1];
    if e.Reload? then !e.loadOk else UnreadSince(prefix) && !Saves(Run(prefix).value, e)
  }

  /**
    While no save fails, memory and file agree after every step, except that memory is empty from a
    start-up that could not read the file up to the next save.
   */
  lemma {:induction false} FileMirrorsMemory(es: seq<Event>)
    requires Run(es).Some? && forall k :: 0 <= k < |es| ==> !SaveFails(es[k])
    ensures var s := Run(es).value;
      File(s.builds, s.seqNo) == if UnreadSince(es) then File([], 0) else Load(s.disk)
    ensures (forall k :: 0 <= k < |es| && es[k].Reload? ==> es[k].loadOk) ==> CleanRestarts(es) && !UnreadSince(es)
  {
    if es != [] {
      var prefix := es[..|es| - 1];
      FileMirrorsMemory(prefix);
      var s, e := Run(prefix).value, es[|es| - 1];
      SaveIsTheListInMemory(s, e);
      if !e.Reload? && !Saves(s, e) { UnsavedStays(s, e); }
    }
  }

  /** A step that saves nothing and whose save did not fail changes neither list nor counter. */
  lemma UnsavedStays(s: Store, e: Event)
    requires Enabled(s, e) && !SaveFails(e) && !e.Reload? && !Saves(s, e)
    ensures Apply(s, e).builds == s.builds && Apply(s, e).seqNo == s.seqNo
  {
    if e.SyncCommit? {
      UntouchedStays(s.builds, s.sync.value.updates);
      assert Named(s.sync.value.imports, s.seqNo) == [];
      assert [] + s.builds == s.builds;
    }
  }

  /** After a restart every kind of next id is fresh exactly when the restart picked up the last number. */
  lemma RestartIsSafeIff(s: Store, loadOk: bool)
    requires CounterOk(s)
    ensures NoIdLost(s, loadOk) <==> forall kind: Kind :: NextID(Restart(s, loadOk), kind) !in s.issued
  {
    var n := Restart(s, loadOk).seqNo;
    if n == s.seqNo {
      forall kind: Kind ensures NextID(Restart(s, loadOk), kind) !in s.issued { NumbersDiffer(s.issued, kind, n + 1); }
    } else {
      assert IsNumber(s.issued[n], n + 1);
      var kind := if s.issued[n] == IdText(Local, n + 1) then Local
        else if s.issued[n] == IdText(History, n + 1) then History else Migrated;
      assert NextID(Restart(s, loadOk), kind) == s.issued[n];
    }
  }

  lemma RunOne(es: seq<Event>, e: Event)
    requires Run(es).Some? && Enabled(Run(es).value, e)
    ensures Run(es + [e]) == Some(Apply(Run(es).value, e))
  {
    assert (es + [e])[..|es|] == es;
  }

  /** Two builds around a restart that lost the first one's number: the same id twice. */
  lemma LostNumberReusesAnId(body: Body, saveOk: bool, loadOk: bool)
    requires !(saveOk && loadOk)
    ensures var es := [NewBuild(body, saveOk), Reload(loadOk), NewBuild(body, true)];
      Run(es).Some? && Run(es).value.issued == [IdText(Local, 1), IdText(Local, 1)] && !Distinct(Run(es).value.issued)
      && Run(es).value.disk == Some(File([Build(IdText(Local, 1), "", body)], 1))
  {
    var none: seq<Event> := [];
    var e0, e1, e2 := NewBuild(body, saveOk), Reload(loadOk), NewBuild(body, true);
    RunThree(none, Init, e0, e1, e2);
    assert none + [e0, e1, e2] == [e0, e1, e2];
    LostNumberStates(body, saveOk, loadOk);
    var issued := Run([e0, e1, e2]).value.issued;
    assert issued[0] == issued[1];
  }

  lemma LostNumberStates(body: Body, saveOk: bool, loadOk: bool)
    requires !(saveOk && loadOk)
    ensures var s := Apply(Apply(Apply(Init, NewBuild(body, saveOk)), Reload(loadOk)), NewBuild(body, true));
      && s.issued == [IdText(Local, 1), IdText(Local, 1)]
      && s.disk == Some(File([Build(IdText(Local, 1), "", body)], 1))
  {
    var s1 := Apply(Apply(Init, NewBuild(body, saveOk)), Reload(loadOk));
    assert s1.builds == [] && s1.seqNo == 0 && s1.issued == [IdText(Local, 1)];
    assert Add(s1, Local, "", body).builds == [Build(IdText(Local, 1), "", body)];
  }

  /** A failed save followed by a restart gives the same id out twice. */
  lemma LostSaveReusesAnId(body: Body)
    ensures var es := [NewBuild(body, false), Reload(true), NewBuild(body, true)];
      Run(es).Some? && !Distinct(Run(es).value.issued)
  {
    LostNumberReusesAnId(body, false, true);
  }

  /** So does a restart that cannot read a good file, and the next save then overwrites the history. */
  lemma FailedLoadReusesAnId(body: Body)
    ensures var es := [NewBuild(body, true), Reload(false), NewBuild(body, true)];
      Run(es).Some? && !Distinct(Run(es).value.issued) && |Load(Run(es).value.disk).builds| == 1
  {
    LostNumberReusesAnId(body, true, false);
  }

  /** How the three kinds of records are named, and where they go. */
  lemma RecordsAsWritten(s: Store, body: Body, saveOk: bool)
    ensures var t := Apply(s, NewBuild(body, saveOk));
      t.builds != [] && t.builds[0] == Build("build-" + Decimal(s.seqNo + 1), "", body)
    ensures var t := Apply(s, AddMigrated(body, saveOk));
      t.builds != [] && t.builds[0] == Build("migrated-" + Decimal(s.seqNo + 1), "", body)
    ensures forall imports: seq<Build>, i :: 0 <= i < |imports| ==>
      Named(imports, s.seqNo)[i] == imports[i].(id := "history-" + Decimal(s.seqNo + 1 + i))
  {
  }

  // ----- What a sync does to what was stored between its phases -----

  /**
    Exactly which records a commit leaves as they are: those the snapshot holds no update for, and
    those whose update is what is stored already. The records move down by the imports and are cut
    only by the 200-record bound.
   */
  lemma CommitKeepsIff(es: seq<Event>, s: Store, saveOk: bool, i: nat)
    requires Run(es) == Some(s) && s.sync.Some?
    requires i < |s.builds| && i + |s.sync.value.imports| < MAX_BUILDS
    ensures var t := CommitSync(s, s.sync.value, saveOk);
      var b, at, updates := s.builds[i], i + |s.sync.value.imports|, s.sync.value.updates;
      && at < |t.builds| && t.builds[at].id == b.id && t.builds[at].historyRef == b.historyRef
      && (t.builds[at] == b <==> b.id !in updates || updates[b.id].body == b.body)
  {
    RunKeeps(es);
    CommitMoves(s, saveOk, i);
  }

  lemma CommitMoves(s: Store, saveOk: bool, i: nat)
    requires s.sync.Some? && i < |s.builds| && i + |s.sync.value.imports| < MAX_BUILDS
    ensures var t := CommitSync(s, s.sync.value, saveOk);
      var at := i + |s.sync.value.imports|;
      at < |t.builds| && t.builds[at] == Updated(s.builds, s.sync.value.updates)[i]
  {
    var bs := Updated(s.builds, s.sync.value.updates);
    assert (Named(s.sync.value.imports, s.seqNo) + bs)[i + |s.sync.value.imports|] == bs[i];
  }

  /** A record without a history link is always left as it is: what a job stored between the phases stays. */
  lemma CommitKeepsUnlinked(es: seq<Event>, s: Store, saveOk: bool, i: nat)
    requires Run(es) == Some(s) && s.sync.Some?
    requires i < |s.builds| && s.builds[i].historyRef == "" && i + |s.sync.value.imports| < MAX_BUILDS
    ensures var t := CommitSync(s, s.sync.value, saveOk);
      i + |s.sync.value.imports| < |t.builds| && t.builds[i + |s.sync.value.imports|] == s.builds[i]
  {
    RunKeeps(es);
    CommitKeepsIff(es, s, saveOk, i);
  }

  /** The first phase holds an update for exactly the linked, listed records with news, namely that news. */
  lemma {:induction false} SnapshotHoldsTheNews(bs: seq<Build>, rows: seq<Row>, news: map<string, Body>, i: nat)
    requires i < |bs| && forall j, k :: 0 <= j < k < |bs| ==> bs[j].id != bs[k].id
    ensures var updates := UpdatesOf(bs, rows, news);
      && (bs[i].id in updates <==>
            bs[i].historyRef != "" && Listed(rows, bs[i].historyRef) && bs[i].id in news &&
                news[bs[i].id] != bs[i].body)
      && (bs[i].id in updates ==> updates[bs[i].id] == bs[i].(body := news[bs[i].id]))
  {
    var n := |bs| - 1;
    if i < n {
      SnapshotHoldsTheNews(bs[..n], rows, news, i);
    } else {
      UpdatesAmong(bs[..n], rows, news);
    }
  }

  /** The sync of one linked record, with an edit between its phases. */
  function EditDuringSync(b: Build, stale: Body, edit: Body): seq<Event> {
    [SyncBegin([Row(b.historyRef, "")], map[b.id := stale], map[]), Amend(b.id, edit, true), SyncCommit(true)]
  }

  /**
    Every linked record can lose an edit: one stored between the phases is overwritten by the older
    state the snapshot holds.
   */
  lemma LinkedEditIsLost(es: seq<Event>, s: Store, i: nat, stale: Body, edit: Body)
    requires Run(es) == Some(s) && s.sync.None?
    requires i < |s.builds| && s.builds[i].historyRef != "" && stale != s.builds[i].body
    ensures var out := Run(es + EditDuringSync(s.builds[i], stale, edit));
      out.Some? && i < |out.value.builds| && out.value.builds[i] == s.builds[i].(body := stale)
  {
    RunKeeps(es);
    var b := s.builds[i];
    var begin := SyncBegin([Row(b.historyRef, "")], map[b.id := stale], map[]);
    EditIsOverwritten(s, begin, i, stale, edit);
    RunThree(es, s, begin, Amend(b.id, edit, true), SyncCommit(true));
  }

  lemma RunThree(es: seq<Event>, s: Store, e0: Event, e1: Event, e2: Event)
    requires Run(es) == Some(s) && Enabled(s, e0) && Enabled(Apply(s, e0), e1) && Enabled(Apply(Apply(s, e0), e1), e2)
    ensures Run(es + [e0, e1, e2]) == Some(Apply(Apply(Apply(s, e0), e1), e2))
  {
    RunOne(es, e0);
    RunOne(es + [e0], e1);
    RunOne(es + [e0] + [e1], e2);
    assert es + [e0, e1, e2] == es + [e0] + [e1] + [e2];
  }

  lemma EditIsOverwritten(s: Store, begin: Event, i: nat, stale: Body, edit: Body)
    requires Inv(s) && s.sync.None? && i < |s.builds| && s.builds[i].historyRef != "" && stale != s.builds[i].body
    requires begin == SyncBegin([Row(s.builds[i].historyRef, "")], map[s.builds[i].id := stale], map[])
    ensures var s1 := Apply(Apply(s, begin), Amend(s.builds[i].id, edit, true));
      s1.sync.Some? && var bs := Apply(s1, SyncCommit(true)).builds;
      i < |bs| && bs[i] == s.builds[i].(body := stale)
  {
    var s0 := Apply(s, begin);
    assert s0.builds == s.builds;
    SyncOfOne(s, i, stale);
    AmendedAt(s0, i, edit);
    var s1 := Apply(s0, Amend(s.builds[i].id, edit, true));
    assert s1.builds[i].id == s.builds[i].id && s1.sync == s0.sync;
    CommitOverwrites(s1, i);
  }

  lemma CommitOverwrites(s: Store, i: nat)
    requires s.sync.Some? && s.sync.value.imports == [] && i < |s.builds| && i < MAX_BUILDS
    requires s.builds[i].id in s.sync.value.updates
    ensures var bs := Apply(s, SyncCommit(true)).builds; i < |bs| && bs[i] == s.sync.value.updates[s.builds[i].id]
  {
    CommitMoves(s, true, i);
  }

  lemma SyncOfOne(s: Store, i: nat, stale: Body)
    requires Inv(s) && i < |s.builds| && s.builds[i].historyRef != "" && stale != s.builds[i].body
    ensures var b := s.builds[i];
      var snap := TakeSnapshot(s.builds, [Row(b.historyRef, "")], map[b.id := stale], map[]);
      snap.imports == [] && b.id in snap.updates && snap.updates[b.id] == b.(body := stale)
  {
    var b := s.builds[i];
    var rows := [Row(b.historyRef, "")];
    assert HistoryID(rows[0]) == b.historyRef;
    SnapshotHoldsTheNews(s.builds, rows, map[b.id := stale], i);
    assert b.historyRef in Refs(s.builds);
    assert rows[..0] == [];
    assert NewRefs(Refs(s.builds), rows) == [];
  }

  lemma AmendedAt(s: Store, i: nat, edit: Body)
    requires IdsOk(s.builds, s.seqNo, s.issued) && i < |s.builds| <= MAX_BUILDS
    ensures Finish(s, s.builds[i].id, edit, true).builds == s.builds[i := s.builds[i].(body := edit)]
    ensures Finish(s, s.builds[i].id, edit, true).sync == s.sync
  {
    SetBodyAtFirst(s.builds, s.builds[i].id, edit, i);
  }

  /** A linked record comes about: one sync of one listed row. */
  lemma LinkedRecordIsReached(ref: string, body: Body) returns (es: seq<Event>)
    requires ref != ""
    ensures Run(es).Some? && Run(es).value.sync.None?
    ensures Run(es).value.builds == [Build(IdText(History, 1), ref, body)]
  {
    var none: seq<Event> := [];
    var rows := [Row(ref, "")];
    var e0, e1 := SyncBegin(rows, map[], map[ref := body]), SyncCommit(true);
    assert rows[..0] == [] && HistoryID(rows[0]) == ref;
    assert NewRefs({}, rows) == [ref];
    assert Refs([]) == {};
    RunOne(none, e0);
    RunOne(none + [e0], e1);
    es := none + [e0] + [e1];
    var s := Run(none + [e0]).value;
    assert s.sync.value.imports == [Build("", ref, body)];
    assert Named(s.sync.value.imports, 0) == [Build(IdText(History, 1), ref, body)];
  }

  // ----- When repeated syncs settle -----

  /** A record stays in the list exactly when the imports in front of it leave it within the first 200. */
  lemma CommitDropsIff(es: seq<Event>, s: Store, saveOk: bool, i: nat)
    requires Run(es) == Some(s) && s.sync.Some? && i < |s.builds|
    ensures Has(CommitSync(s, s.sync.value, saveOk).builds, s.builds[i].id) <==> i + |s.sync.value.imports| < MAX_BUILDS
  {
    RunKeeps(es);
    var at := i + |s.sync.value.imports|;
    var bs := CommitSync(s, s.sync.value, saveOk).builds;
    CommitIds(s, saveOk, i);
    if at < MAX_BUILDS { assert bs[at].id == s.builds[i].id; }
  }

  /** The committed list before it is cut. */
  function Uncut(s: Store, snap: Snapshot): seq<Build> {
    Named(snap.imports, s.seqNo) + Updated(s.builds, snap.updates)
  }

  lemma CommitCuts(s: Store, saveOk: bool)
    requires Inv(s) && s.sync.Some?
    ensures CommitSync(s, s.sync.value, saveOk).builds == Trim(Uncut(s, s.sync.value))
    ensures var all := Uncut(s, s.sync.value); forall i, j :: 0 <= i < j < |all| ==> all[i].id != all[j].id
  {
    var snap := s.sync.value;
    var kept := Updated(s.builds, snap.updates);
    SameNamesKeep(s, kept);
    PrependKeepsIds(kept, s.seqNo, s.issued, Named(snap.imports, s.seqNo), History);
  }

  lemma CommitIds(s: Store, saveOk: bool, i: nat)
    requires Inv(s) && s.sync.Some? && i < |s.builds|
    ensures var bs, at := CommitSync(s, s.sync.value, saveOk).builds, i + |s.sync.value.imports|;
      && (at < MAX_BUILDS ==> at < |bs| && bs[at].id == s.builds[i].id)
      && forall k :: 0 <= k < |bs| && bs[k].id == s.builds[i].id ==> k == at < MAX_BUILDS
  {
    CommitCuts(s, saveOk);
    var all, at := Uncut(s, s.sync.value), i + |s.sync.value.imports|;
    assert all[at] == Updated(s.builds, s.sync.value.updates)[i];
    assert all[at].id == s.builds[i].id;
    var bs := Trim(all);
    assert forall k :: 0 <= k < |bs| ==> bs[k] == all[k];
  }

  /**
    The refs of the new rows, then those of the stored records: the refs of the list after a sync,
    before it is cut.
   */
  function RefLine(bs: seq<Build>, rows: seq<Row>): (line: seq<string>)
    ensures var news := NewRefs(Refs(bs), rows);
      && |line| == |news| + |bs|
      && (forall i :: 0 <= i < |news| ==> line[i] == news[i])
      && (forall i :: |news| <= i < |line| ==> line[i] == bs[i - |news|].historyRef)
  {
    NewRefs(Refs(bs), rows) + seq(|bs|, i requires 0 <= i < |bs| => bs[i].historyRef)
  }

  /** The store after one whole sync. */
  function Synced(s: Store, rows: seq<Row>, news: map<string, Body>, bodies: map<string, Body>, saveOk: bool): Store {
    var snap := TakeSnapshot(s.builds, rows, news, bodies);
    CommitSync(s.(sync := Some(snap)), snap, saveOk)
  }

  /** A listed ref that the 200-record bound cuts off. */
  ghost predicate CutOff(bs: seq<Build>, rows: seq<Row>, i: nat) {
    var line := RefLine(bs, rows);
    MAX_BUILDS <= i < |line| && line[i] != "" && Listed(rows, line[i])
  }

  /** A second sync over the same rows imports nothing exactly when the first one cut off no listed ref. */
  lemma SyncSettlesIff(s: Store, rows: seq<Row>, news: map<string, Body>, bodies: map<string, Body>, saveOk: bool)
    requires Inv(s)
    ensures NewRefs(Refs(Synced(s, rows, news, bodies, saveOk).builds), rows) == [] <==>
      forall i: nat :: !CutOff(s.builds, rows, i)
  {
    var bs, t := s.builds, Synced(s, rows, news, bodies, saveOk).builds;
    var again := NewRefs(Refs(t), rows);
    SyncedRefs(s, rows, news, bodies, saveOk);
    NewRefsAreTheUnknown(Refs(t), rows);
    forall i: nat ensures CutOff(bs, rows, i) <==> i < |RefLine(bs, rows)| && RefLine(bs, rows)[i] in again {
      if i < |RefLine(bs, rows)| && RefLine(bs, rows)[i] != "" { KeptRef(bs, rows, t, i); }
    }
    if again != [] {
      assert again[0] in again;
      var i := ListedIsInLine(bs, rows, again[0]);
      assert CutOff(bs, rows, i);
    }
  }

  /** A ref of the line is still known exactly when it was not cut off. */
  lemma KeptRef(bs: seq<Build>, rows: seq<Row>, t: seq<Build>, i: nat)
    requires RefsOk(bs) && i < |RefLine(bs, rows)| && RefLine(bs, rows)[i] != ""
    requires |t| <= |RefLine(bs, rows)| && forall k :: 0 <= k < |t| ==> t[k].historyRef == RefLine(bs, rows)[k]
    ensures RefLine(bs, rows)[i] in Refs(t) <==> i < |t|
  {
    var line := RefLine(bs, rows);
    LineIsDistinct(bs, rows);
    if i < |t| { assert t[i].historyRef in Refs(t); }
    if line[i] in Refs(t) {
      var j :| 0 <= j < |t| && t[j].historyRef != "" && t[j].historyRef == line[i];
      assert line[j] == line[i];
      assert j == i;
    }
  }

  lemma SyncedRefs(s: Store, rows: seq<Row>, news: map<string, Body>, bodies: map<string, Body>, saveOk: bool)
    requires Inv(s)
    ensures var t, line := Synced(s, rows, news, bodies, saveOk).builds, RefLine(s.builds, rows);
      && |t| == (if |line| > MAX_BUILDS then MAX_BUILDS else |line|)
      && forall i :: 0 <= i < |t| ==> t[i].historyRef == line[i]
  {
    var snap := TakeSnapshot(s.builds, rows, news, bodies);
    SnapshotKeeps(s, rows, news, bodies);
    CommitCuts(s.(sync := Some(snap)), saveOk);
    UncutRefs(s, snap);
  }

  lemma UncutRefs(s: Store, snap: Snapshot)
    requires UpdatesOk(s.builds, s.seqNo, snap.updates)
    ensures var all, n := Uncut(s, snap), |snap.imports|;
      && |all| == n + |s.builds|
      && (forall i :: 0 <= i < n ==> all[i].historyRef == snap.imports[i].historyRef)
      && (forall i :: n <= i < |all| ==> all[i].historyRef == s.builds[i - n].historyRef)
  {
    var kept := Updated(s.builds, snap.updates);
    forall k | 0 <= k < |kept| ensures kept[k].historyRef == s.builds[k].historyRef {}
  }

  lemma LineIsDistinct(bs: seq<Build>, rows: seq<Row>)
    requires RefsOk(bs)
    ensures var line := RefLine(bs, rows); forall i, j :: 0 <= i < j < |line| && line[i] != "" ==> line[i] != line[j]
  {
    var news, line := NewRefs(Refs(bs), rows), RefLine(bs, rows);
    NewRefsAreTheUnknown(Refs(bs), rows);
    forall i, j | 0 <= i < j < |line| && line[i] != "" ensures line[i] != line[j] {
      if i < |news| <= j {
        assert news[i] in news;
        assert bs[j - |news|].historyRef != "" ==> bs[j - |news|].historyRef in Refs(bs);
      }
    }
  }

  lemma ListedIsInLine(bs: seq<Build>, rows: seq<Row>, ref: string) returns (i: nat)
    requires ref != "" && Listed(rows, ref)
    ensures i < |RefLine(bs, rows)| && RefLine(bs, rows)[i] == ref
  {
    var news, line := NewRefs(Refs(bs), rows), RefLine(bs, rows);
    NewRefsAreTheUnknown(Refs(bs), rows);
    if ref in Refs(bs) {
      var k :| 0 <= k < |bs| && bs[k].historyRef != "" && bs[k].historyRef == ref;
      i := |news| + k;
      assert line[i] == bs[k].historyRef;
    } else {
      i :| 0 <= i < |news| && news[i] == ref;
    }
  }

  function NamedRefs(rows: seq<Row>): set<string> {
    set i | 0 <= i < |rows| && HistoryID(rows[i]) != "" :: HistoryID(rows[i])
  }

  lemma {:induction false} RefsAtMost(bs: seq<Build>)
    ensures |Refs(bs)| <= |bs|
  {
    if bs != [] {
      var init, last := bs[..|bs| - 1], bs[|bs| - 1];
      RefsAtMost(init);
      RefsAppend(init, [last]);
      assert bs == init + [last];
      assert Refs([last]) <= {last.historyRef};
      SizeAtMost(Refs([last]), {last.historyRef});
    }
  }

  lemma SizeAtMost(a: set<string>, b: set<string>)
    requires a <= b
    ensures |a| <= |b|
  {
    assert b == a + (b - a);
  }

  /**
    With more than 200 refs listed no sync is ever the last to import: in every reachable store some
    listed ref is missing, so each sync imports again and cuts off as many records.
   */
  lemma TooManyRefsNeverSettle(es: seq<Event>, rows: seq<Row>)
    requires Run(es).Some? && |NamedRefs(rows)| > MAX_BUILDS
    ensures NewRefs(Refs(Run(es).value.builds), rows) != []
  {
    RunKeeps(es);
    var bs := Run(es).value.builds;
    RefsAtMost(bs);
    NewRefsAreTheUnknown(Refs(bs), rows);
    assert !(NamedRefs(rows) <= Refs(bs)) by {
      if NamedRefs(rows) <= Refs(bs) { SizeAtMost(NamedRefs(rows), Refs(bs)); }
    }
    var ref :| ref in NamedRefs(rows) && ref !in Refs(bs);
    assert Listed(rows, ref);
    assert ref in NewRefs(Refs(bs), rows);
  }

  function RowsOf(refs: seq<string>): (rows: seq<Row>)
    ensures |rows| == |refs| && forall i :: 0 <= i < |refs| ==> rows[i] == Row(refs[i], "")
  {
    seq(|refs|, i requires 0 <= i < |refs| => Row(refs[i], ""))
  }

  lemma RowsNameAll(refs: seq<string>)
    requires forall i :: 0 <= i < |refs| ==> refs[i] != ""
    ensures NamedRefs(RowsOf(refs)) == set ref | ref in refs
  {
    var rows := RowsOf(refs);
    forall i | 0 <= i < |rows| ensures HistoryID(rows[i]) == refs[i] && refs[i] in NamedRefs(rows) {
      assert rows[i].id != "";
    }
  }

  lemma {:induction false} DistinctSize(refs: seq<string>)
    requires Distinct(refs)
    ensures |set ref | ref in refs| == |refs|
  {
    if refs != [] {
      var init, last := refs[..|refs| - 1], refs[|refs| - 1];
      DistinctSize(init);
      assert refs == init + [last];
      assert (set ref | ref in refs) == (set ref | ref in init) + {last};
    }
  }

  /** Such a listing: as many refs as one likes. */
  lemma ManyRows(n: nat) returns (rows: seq<Row>)
    ensures |NamedRefs(rows)| == n
  {
    var refs := seq(n, i requires 0 <= i < n => IdText(History, i + 1));
    forall i, j | 0 <= i < j < n ensures refs[i] != refs[j] {
      if refs[i] == refs[j] { IdTextInjective(History, i + 1, History, j + 1); }
    }
    RowsNameAll(refs);
    DistinctSize(refs);
    rows := RowsOf(refs);
  }

  // ----- The store as it is updated in place -----

  class Core {
    var builds: seq<Build>
    var buildSeq: nat
    var saved: Option<File>
    ghost var issued: seq<string>
    ghost var sync: Option<Snapshot>

    ghost function Value(): Store
      reads this
    {
      Store(builds, buildSeq, saved, issued, sync)
    }

    method PersistLocked(saveOk: bool)
      modifies this
      ensures Value() == Persist(old(Value()), saveOk)
    {
      if saveOk {
        saved := Some(File(if |builds| > MAX_BUILDS then builds[..MAX_BUILDS] else builds, buildSeq));
      }
      if |builds| > MAX_BUILDS {
        builds := builds[..MAX_BUILDS];
      }
    }

    /** loadBuilds at start-up. */
    method LoadBuilds(loadOk: bool)
      modifies this
      ensures Value() == Apply(old(Value()), Reload(loadOk))
    {
      builds, buildSeq, sync := [], 0, None;
      if !loadOk {
        return;
      }
      if saved.Some? {
        builds, buildSeq := saved.value.builds, saved.value.seqNo;
      }
    }

    method StartBuild(body: Body, saveOk: bool) returns (build: Build)
      modifies this
      ensures Value() == Apply(old(Value()), NewBuild(body, saveOk))
      ensures builds != [] && build == builds[0]
    {
      buildSeq := buildSeq + 1;
      build := Build(IdText(Local, buildSeq), "", body);
      builds := [build] + builds;
      issued := issued + [build.id];
      PersistLocked(saveOk);
    }

    method AddMigratedBuild(body: Body, saveOk: bool)
      modifies this
      ensures Value() == Apply(old(Value()), AddMigrated(body, saveOk))
    {
      buildSeq := buildSeq + 1;
      var build := Build(IdText(Migrated, buildSeq), "", body);
      builds := [build] + builds;
      issued := issued + [build.id];
      PersistLocked(saveOk);
    }

    /** The commit at the end of a build job. */
    method FinishJob(buildID: string, body: Body, saveOk: bool)
      modifies this
      ensures Value() == Apply(old(Value()), Amend(buildID, body, saveOk))
    {
      for index := 0 to |builds|
        invariant Value() == old(Value())
        invariant forall i :: 0 <= i < index ==> builds[i].id != buildID
      {
        if builds[index].id != buildID {
          continue;
        }
        SetBodyAtFirst(builds, buildID, body, index);
        builds := builds[index := builds[index].(body := body)];
        PersistLocked(saveOk);
        return;
      }
    }

    method SyncSnapshot(rows: seq<Row>, news: map<string, Body>, importBodies: map<string, Body>)
        returns (snap: Snapshot)
      requires sync.None?
      modifies this`sync
      ensures Value() == Apply(old(Value()), SyncBegin(rows, news, importBodies))
      ensures sync == Some(snap)
    {
      snap := CollectSnapshot(builds, rows, news, importBodies);
      sync := Some(snap);
    }

    method SyncBuildHistory(snap: Snapshot, saveOk: bool)
      requires sync == Some(snap)
      modifies this
      ensures Value() == Apply(old(Value()), SyncCommit(saveOk))
    {
      var updated, changed := ApplyUpdates(builds, snap.updates);
      builds := updated;
      if |snap.imports| > 0 {
        var added := NameImports(snap.imports, buildSeq);
        buildSeq := buildSeq + |added|;
        builds := added + builds;
        issued := issued + IdsOf(added);
        changed := true;
      } else {
        assert Named(snap.imports, buildSeq) == [];
        assert [] + builds == builds;
        assert issued + IdsOf([]) == issued;
      }
      sync := None;
      if changed {
        PersistLocked(saveOk);
      }
    }
  }

  lemma {:induction false} SetBodyAtFirst(bs: seq<Build>, id: string, body: Body, at: nat)
    requires at < |bs| && bs[at].id == id
    requires forall i :: 0 <= i < at ==> bs[i].id != id
    ensures SetBody(bs, id, body) == bs[at := bs[at].(body := body)]
  {
    if at > 0 { SetBodyAtFirst(bs[1..], id, body, at - 1); }
  }

  method CollectSnapshot(bs: seq<Build>, rows: seq<Row>, news: map<string, Body>, importBodies: map<string, Body>)
      returns (snap: Snapshot)
    ensures snap == TakeSnapshot(bs, rows, news, importBodies)
  {
    var known: set<string> := {};
    var updates: map<string, Build> := map[];
    assert bs[..0] == [];
    for i := 0 to |bs|
      invariant known == Refs(bs[..i])
      invariant updates == UpdatesOf(bs[..i], rows, news)
    {
      assert bs[..i + 1][..i] == bs[..i];
      assert bs[..i + 1] == bs[..i] + [bs[i]];
      RefsAppend(bs[..i], [bs[i]]);
      if bs[i].historyRef != "" {
        assert Refs([bs[i]]) == {bs[i].historyRef} by { assert [bs[i]][0].historyRef in Refs([bs[i]]); }
        known := known + {bs[i].historyRef};
        var listed := InRows(rows, bs[i].historyRef);
        if listed && bs[i].id in news && news[bs[i].id] != bs[i].body {
          updates := updates[bs[i].id := bs[i].(body := news[bs[i].id])];
        }
      }
    }
    assert bs[..|bs|] == bs;
    var refs := MergeRows(known, rows);
    snap := Snapshot(updates, ImportsOf(refs, importBodies));
  }

  method InRows(rows: seq<Row>, ref: string) returns (listed: bool)
    ensures listed == Listed(rows, ref)
  {
    for i := 0 to |rows|
      invariant forall k :: 0 <= k < i ==> HistoryID(rows[k]) != ref
    {
      if HistoryID(rows[i]) == ref {
        return true;
      }
    }
    return false;
  }

  method ApplyUpdates(bs: seq<Build>, updates: map<string, Build>) returns (r: seq<Build>, changed: bool)
    ensures r == Updated(bs, updates) && changed == Touches(bs, updates)
  {
    r, changed := bs, false;
    for index := 0 to |bs|
      invariant |r| == |bs|
      invariant forall i :: 0 <= i < index ==> r[i] == Updated(bs, updates)[i]
      invariant forall i :: index <= i < |bs| ==> r[i] == bs[i]
      invariant changed == exists i :: 0 <= i < index && bs[i].id in updates
    {
      if bs[index].id in updates {
        r := r[index := updates[bs[index].id]];
        changed := true;
      }
    }
  }

  method NameImports(imports: seq<Build>, seqNo: nat) returns (added: seq<Build>)
    ensures added == Named(imports, seqNo)
  {
    added := imports;
    var next := seqNo;
    for index := 0 to |imports|
      invariant |added| == |imports| && next == seqNo + index
      invariant forall i :: 0 <= i < index ==> added[i] == imports[i].(id := IdText(History, seqNo + 1 + i))
      invariant forall i :: index <= i < |imports| ==> added[i] == imports[i]
    {
      next := next + 1;
      added := added[index := added[index].(id := IdText(History, next))];
    }
  }
}

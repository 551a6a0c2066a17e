/**
  The shared container list: a two-second cache, one fetch in flight, and invalidation after
  mutations (backend/internal/runtime/guest_darwin.go, KeepLastList of
  backend/internal/runtime/errors.go). One event is one critical section or one outside step of
  one caller; every interleaving is an event list.
 */
module ListCache {
  import opened Options

  const TTL := 2_000

  type Containers = seq<int>

  /** A stored list, when it was stored, and the fetch it came from. */
  datatype Entry = Entry(items: Containers, at: nat, src: nat)

  datatype Result = Listed(items: Containers, src: nat) | Error | Cancelled

  datatype Pc =
    | Begin
    | Waiting(fetch: nat)
    | Fetching(fetch: nat)
    | Fetched(fetch: nat, ok: bool, items: Containers)
    | Returned(result: Result)

  /**
    `cache`, `inflight`, `lastErr` and `last` are the guest's fields; a fetch is named by its wait
    channel. `carrier` is the call that began the fetch in flight, `closed` holds the closed channels
    and `results` the lists of successful fetches.
   */
  datatype State = State(
    now: nat, cache: Option<Entry>, inflight: Option<nat>, carrier: nat, lastErr: bool, last: Entry,
    next: nat, closed: set<nat>, results: map<nat, Containers>, calls: map<nat, Pc>)

  const Init := State(0, None, None, 0, false, Entry([], 0, 0), 0, {}, map[], map[])

  datatype Event =
    | Tick(d: nat)
    | Call(id: nat)
    | Look(id: nat)
    | ReadShared(id: nat)
    | Cancel(id: nat)
    | FetchEnd(id: nat, ok: bool, items: Containers)
    | Commit(id: nat)
    | Invalidate

  predicate Enabled(s: State, e: Event) {
    match e
    case Tick(_) => true
    case Invalidate => true
    case Call(id) => id !in s.calls
    case Look(id) => id in s.calls && s.calls[id] == Begin
    case ReadShared(id) => id in s.calls && s.calls[id].Waiting? && s.calls[id].fetch in s.closed
    case Cancel(id) => id in s.calls && s.calls[id].Waiting?
    case FetchEnd(id, _, _) => id in s.calls && s.calls[id].Fetching?
    case Commit(id) => id in s.calls && s.calls[id].Fetched?
  }

  predicate Fresh(s: State) {
    s.cache.Some? && s.now - s.cache.value.at < TTL
  }

  /** An empty list is stored as nil. */
  function Store(items: Containers, now: nat, src: nat): Option<Entry> {
    if items == [] then None else Some(Entry(items, now, src))
  }

  /** The end of a fetch: store, share, close the channel and return. */
  function Committed(s: State, id: nat, f: nat, ok: bool, items: Containers): State {
    var s1 := s.(closed := s.closed + {f}, inflight := None);
    if ok then
      var shared := Entry(items, s.now, f);
      s1.(cache := Store(items, s.now, f), lastErr := false, last := shared,
          calls := s.calls[id := Returned(Listed(items, f))])
    else if s.cache.None? then
      s1.(lastErr := true, last := Entry(items, s.now, f), calls := s.calls[id := Returned(Error)])
    else
      s1.(lastErr := false, last := s.cache.value,
          calls := s.calls[id := Returned(Listed(s.cache.value.items, s.cache.value.src))])
  }

  function Apply(s: State, e: Event): State
    requires Enabled(s, e)
  {
    match e
    case Tick(d) => s.(now := s.now + d)
    case Invalidate => s.(cache := None)
    case Call(id) => s.(calls := s.calls[id := Begin])
    case Look(id) =>
      if Fresh(s) then s.(calls := s.calls[id := Returned(Listed(s.cache.value.items, s.cache.value.src))])
      else if s.inflight.Some? then s.(calls := s.calls[id := Waiting(s.inflight.value)])
      else s.(inflight := Some(s.next), carrier := id, next := s.next + 1, calls := s.calls[id := Fetching(s.next)])
    case ReadShared(id) =>
      s.(calls := s.calls[id := Returned(if s.lastErr then Error else Listed(s.last.items, s.last.src))])
    case Cancel(id) => s.(calls := s.calls[id := Returned(Cancelled)])
    case FetchEnd(id, ok, items) =>
      s.(results := if ok then s.results[s.calls[id].fetch := items] else s.results,
         calls := s.calls[id := Fetched(s.calls[id].fetch, ok, items)])
    case Commit(id) => Committed(s, id, s.calls[id].fetch, s.calls[id].ok, s.calls[id].items)
  }

  function RunFrom(s: State, es: seq<Event>): Option<State> {
    if es == [] then Some(s)
    else
      match RunFrom(s, es[..|es| - 1])
      case None => None
      case Some(t) => if Enabled(t, es[|es| - 1]) then Some(Apply(t, es[|es| - 1])) else None
  }

  // ----- One fetch at a time, and nothing invented -----

  /** The call is the one carrying fetch `f`. */
  predicate Carries(pc: Pc, f: nat) {
    (pc.Fetching? || pc.Fetched?) && pc.fetch == f
  }

  predicate InFlight(pc: Pc) { pc.Fetching? || pc.Fetched? }

  /** The call carrying the fetch in flight is the one that began it. */
  ghost predicate CarrierInv(s: State) {
    && (forall id :: id in s.calls && InFlight(s.calls[id]) ==>
        s.inflight == Some(s.calls[id].fetch) && s.carrier == id)
    && (s.inflight.Some? ==> s.carrier in s.calls && Carries(s.calls[s.carrier], s.inflight.value))
  }

  ghost predicate NumberInv(s: State) {
    && (s.inflight.Some? ==> s.inflight.value < s.next && s.inflight.value !in s.closed)
    && (forall f :: f in s.closed || f in s.results ==> f < s.next)
    && (s.inflight.Some? && s.carrier in s.calls && s.calls[s.carrier].Fetching? ==> s.inflight.value !in s.results)
  }

  ghost predicate WaitInv(s: State) {
    forall id :: id in s.calls && s.calls[id].Waiting? ==>
      s.calls[id].fetch in s.closed || s.inflight == Some(s.calls[id].fetch)
  }

  ghost predicate FlightInv(s: State) {
    CarrierInv(s) && NumberInv(s) && WaitInv(s)
  }

  ghost predicate FromFetch(s: State, items: Containers, src: nat) {
    src in s.results && s.results[src] == items
  }

  ghost predicate SourceInv(s: State) {
    && (s.cache.Some? ==> FromFetch(s, s.cache.value.items, s.cache.value.src))
    && (s.closed != {} && !s.lastErr ==> FromFetch(s, s.last.items, s.last.src))
    && (forall id :: id in s.calls && s.calls[id].Fetched? && s.calls[id].ok ==>
        FromFetch(s, s.calls[id].items, s.calls[id].fetch))
    && (forall id :: id in s.calls && s.calls[id].Returned? && s.calls[id].result.Listed? ==>
          FromFetch(s, s.calls[id].result.items, s.calls[id].result.src))
  }

  lemma StepKeepsCarrier(s: State, e: Event)
    requires CarrierInv(s) && Enabled(s, e)
    ensures CarrierInv(Apply(s, e))
  {
  }

  lemma StepKeepsNumbers(s: State, e: Event)
    requires CarrierInv(s) && NumberInv(s) && Enabled(s, e)
    ensures NumberInv(Apply(s, e))
  {
  }

  lemma StepKeepsFlight(s: State, e: Event)
    requires FlightInv(s) && Enabled(s, e)
    ensures FlightInv(Apply(s, e))
  {
    StepKeepsCarrier(s, e);
    StepKeepsNumbers(s, e);
  }

  /** Results of fetches are never overwritten. */
  lemma ResultsOnlyGrow(s: State, e: Event)
    requires CarrierInv(s) && NumberInv(s) && Enabled(s, e)
    ensures forall f :: f in s.results ==> f in Apply(s, e).results && Apply(s, e).results[f] == s.results[f]
  {
  }

  lemma StepKeepsSource(s: State, e: Event)
    requires FlightInv(s) && SourceInv(s) && Enabled(s, e)
    ensures SourceInv(Apply(s, e))
  {
    ResultsOnlyGrow(s, e);
    var s' := Apply(s, e);
    if e.Commit? {
      assert s'.results == s.results;
    } else {
      assert s'.last == s.last && s'.lastErr == s.lastErr && s'.closed == s.closed;
      assert s'.cache == s.cache || e.Invalidate?;
    }
  }

  lemma {:induction false} RunKeepsInv(s: State, es: seq<Event>)
    requires FlightInv(s) && SourceInv(s) && RunFrom(s, es).Some?
    ensures FlightInv(RunFrom(s, es).value) && SourceInv(RunFrom(s, es).value)
  {
    if es != [] {
      RunKeepsInv(s, es[..|es| - 1]);
      StepKeepsFlight(RunFrom(s, es[..|es| - 1]).value, es[|es| - 1]);
      StepKeepsSource(RunFrom(s, es[..|es| - 1]).value, es[|es| - 1]);
    }
  }

  /** At most one fetch is in flight in every interleaving. */
  lemma SingleFlight(es: seq<Event>, a: nat, b: nat)
    requires RunFrom(Init, es).Some?
    ensures var s := RunFrom(Init, es).value;
            a in s.calls && b in s.calls && InFlight(s.calls[a]) && InFlight(s.calls[b]) ==> a == b
  {
    RunKeepsInv(Init, es);
  }

  /** Every list returned without error is the list of some successful fetch. */
  lemma ReturnedListsWereFetched(es: seq<Event>, id: nat)
    requires RunFrom(Init, es).Some?
    ensures var s := RunFrom(Init, es).value;
            id in s.calls && s.calls[id].Returned? && s.calls[id].result.Listed? ==>
              FromFetch(s, s.calls[id].result.items, s.calls[id].result.src)
  {
    RunKeepsInv(Init, es);
  }

  /** Nobody waits forever: a waiter's channel is closed or belongs to a fetch some caller carries. */
  lemma WaitersAreServed(es: seq<Event>, id: nat)
    requires RunFrom(Init, es).Some?
    ensures var s := RunFrom(Init, es).value;
            id in s.calls && s.calls[id].Waiting? ==>
              s.calls[id].fetch in s.closed || exists c :: c in s.calls && Carries(s.calls[c], s.calls[id].fetch)
  {
    RunKeepsInv(Init, es);
  }

  // ----- Invalidation -----

  /** No fetch is running, or finished well but not committed. */
  predicate Quiet(s: State) {
    forall id :: id in s.calls ==> !s.calls[id].Fetching? && !(s.calls[id].Fetched? && s.calls[id].ok)
  }

  /** Seen from an invalidation with `k` fetches begun before it, for calls outside `prior`. */
  ghost predicate FreshInv(s: State, k: nat, prior: set<nat>) {
    && k <= s.next
    && (s.cache.Some? ==> s.cache.value.src >= k)
    && (forall id :: id in s.calls && CarriesPrior(s.calls[id], k) ==>
        s.calls[id].Fetched? && !s.calls[id].ok && s.cache.None?)
    && (forall id :: id in s.calls && id !in prior && s.calls[id].Waiting? && s.calls[id].fetch in s.closed ==>
          s.lastErr || s.last.src >= k)
    && (forall id :: id in s.calls && id !in prior && s.calls[id].Returned? && s.calls[id].result.Listed? ==>
          s.calls[id].result.src >= k)
  }

  /** Carries a fetch begun before the invalidation. */
  predicate CarriesPrior(pc: Pc, k: nat) {
    (pc.Fetching? || pc.Fetched?) && pc.fetch < k
  }

  lemma StepKeepsFresh(s: State, e: Event, k: nat, prior: set<nat>)
    requires FlightInv(s) && FreshInv(s, k, prior) && Enabled(s, e)
    requires prior <= s.calls.Keys
    ensures FreshInv(Apply(s, e), k, prior) && prior <= Apply(s, e).calls.Keys
  {
    var s' := Apply(s, e);
    StepKeepsFlight(s, e);
    if e.Commit? {
      CommitKeepsFresh(s, e.id, k, prior);
    } else {
      assert s'.last == s.last && s'.lastErr == s.lastErr && s'.closed == s.closed;
    }
  }

  lemma CommitKeepsFresh(s: State, id: nat, k: nat, prior: set<nat>)
    requires FlightInv(s) && FreshInv(s, k, prior) && Enabled(s, Commit(id))
    ensures FreshInv(Apply(s, Commit(id)), k, prior)
  {
    var s' := Apply(s, Commit(id));
    var f := s.calls[id].fetch;
    assert !s'.lastErr ==> s'.last.src >= k;
    assert forall c :: c in s'.calls ==> !InFlight(s'.calls[c]);
  }

  lemma {:induction false} RunKeepsFresh(s: State, es: seq<Event>, k: nat, prior: set<nat>)
    requires FlightInv(s) && SourceInv(s) && FreshInv(s, k, prior) && prior <= s.calls.Keys && RunFrom(s, es).Some?
    ensures FreshInv(RunFrom(s, es).value, k, prior) && prior <= RunFrom(s, es).value.calls.Keys
  {
    if es != [] {
      RunKeepsFresh(s, es[..|es| - 1], k, prior);
      RunKeepsInv(s, es[..|es| - 1]);
      StepKeepsFresh(RunFrom(s, es[..|es| - 1]).value, es[|es| - 1], k, prior);
    }
  }

  /** A call that begins after the invalidation of `s` returns a list fetched before it. */
  ghost predicate StaleAfter(s: State, es: seq<Event>, id: nat) {
    && RunFrom(s, [Invalidate] + es).Some? && id !in s.calls
    && var t := RunFrom(s, [Invalidate] + es).value;
       id in t.calls && t.calls[id].Returned? && t.calls[id].result.Listed? && t.calls[id].result.src < s.next
  }

  lemma QuietMeansFresh(s: State, es: seq<Event>, id: nat)
    requires FlightInv(s) && SourceInv(s) && Quiet(s)
    ensures !StaleAfter(s, es, id)
  {
    if RunFrom(s, [Invalidate] + es).Some? {
      RunSplit(s, [Invalidate], es);
      assert [Invalidate][..0] == [];
      var s1 := Apply(s, Invalidate);
      assert RunFrom(s, [Invalidate]) == Some(s1);
      StepKeepsFlight(s, Invalidate);
      StepKeepsSource(s, Invalidate);
      RunKeepsFresh(s1, es, s.next, s.calls.Keys);
    }
  }

  lemma {:induction false} RunSplit(s: State, a: seq<Event>, b: seq<Event>)
    ensures RunFrom(s, a + b) == match RunFrom(s, a) { case None => None case Some(t) => RunFrom(t, b) }
    decreases |b|
  {
    if b == [] {
      assert a + b == a;
    } else {
      assert (a + b)[..|a + b| - 1] == a + b[..|b| - 1];
      RunSplit(s, a, b[..|b| - 1]);
    }
  }

  /** After the invalidation of a state whose fetch is still running or came back well: join it and return its list. */
  function StaleScript(s: State, owner: nat, id: nat): seq<Event>
    requires owner in s.calls
  {
    [Call(id), Look(id)] + Comeback(s.calls[owner], owner) + [Commit(owner), ReadShared(id)]
  }

  function Comeback(pc: Pc, owner: nat): seq<Event> {
    if pc.Fetching? then [FetchEnd(owner, true, [])] else []
  }

  lemma RunOne(s: State, es: seq<Event>, e: Event)
    requires RunFrom(s, es).Some? && Enabled(RunFrom(s, es).value, e)
    ensures RunFrom(s, es + [e]) == Some(Apply(RunFrom(s, es).value, e))
  {
    assert (es + [e])[..|es + [e]| - 1] == es;
  }

  /** A call that begins just after the invalidation joins the fetch in flight. */
  lemma LateCallJoins(s: State, owner: nat, id: nat) returns (t: State)
    requires FlightInv(s) && owner in s.calls && id !in s.calls && InFlight(s.calls[owner])
    ensures RunFrom(s, [Invalidate, Call(id), Look(id)]) == Some(t)
    ensures t.calls == s.calls[id := Waiting(s.calls[owner].fetch)]
  {
    var f := s.calls[owner].fetch;
    var s1 := Apply(s, Invalidate);
    RunFirst(s, Invalidate);
    var s2 := Apply(s1, Call(id));
    RunOne(s, [Invalidate], Call(id));
    assert [Invalidate] + [Call(id)] == [Invalidate, Call(id)];
    assert s2.cache == None && s2.inflight == Some(f);
    t := Apply(s2, Look(id));
    RunOne(s, [Invalidate, Call(id)], Look(id));
    assert [Invalidate, Call(id)] + [Look(id)] == [Invalidate, Call(id), Look(id)];
  }

  lemma RunFirst(s: State, e: Event)
    requires Enabled(s, e)
    ensures RunFrom(s, [e]) == Some(Apply(s, e))
  {
    assert [e][..0] == [];
  }

  /** It then returns the list of that fetch. */
  lemma JoinedGetsTheFetch(t: State, owner: nat, id: nat)
    requires id in t.calls && owner in t.calls && owner != id
    requires t.calls[owner].Fetched? && t.calls[owner].ok && t.calls[id] == Waiting(t.calls[owner].fetch)
    ensures var out := RunFrom(t, [Commit(owner), ReadShared(id)]);
      out.Some? && id in out.value.calls &&
          out.value.calls[id] == Returned(Listed(t.calls[owner].items, t.calls[owner].fetch))
  {
    RunFirst(t, Commit(owner));
    RunOne(t, [Commit(owner)], ReadShared(id));
    assert [Commit(owner)] + [ReadShared(id)] == [Commit(owner), ReadShared(id)];
  }

  /** The fetch comes back, if it is still running. */
  lemma FetchComesBack(t: State, owner: nat) returns (u: State)
    requires owner in t.calls && (t.calls[owner].Fetching? || (t.calls[owner].Fetched? && t.calls[owner].ok))
    ensures RunFrom(t, Comeback(t.calls[owner], owner)) == Some(u)
    ensures owner in u.calls && u.calls[owner].Fetched? && u.calls[owner].ok &&
        u.calls[owner].fetch == t.calls[owner].fetch
    ensures u.calls == t.calls[owner := u.calls[owner]]
  {
    if t.calls[owner].Fetching? {
      RunFirst(t, FetchEnd(owner, true, []));
    }
    u := RunFrom(t, Comeback(t.calls[owner], owner)).value;
    assert t.calls == t.calls[owner := t.calls[owner]];
  }

  lemma OverlapCanBeStale(s: State, owner: nat, id: nat)
    requires FlightInv(s) && owner in s.calls && id !in s.calls
    requires s.calls[owner].Fetching? || (s.calls[owner].Fetched? && s.calls[owner].ok)
    ensures StaleAfter(s, StaleScript(s, owner, id), id)
  {
    var join := [Invalidate, Call(id), Look(id)];
    var back, finish := Comeback(s.calls[owner], owner), [Commit(owner), ReadShared(id)];
    var t := LateCallJoins(s, owner, id);
    var u := FetchComesBack(t, owner);
    JoinedGetsTheFetch(u, owner, id);
    RunSplit(s, join, back);
    RunSplit(s, join + back, finish);
    assert [Invalidate] + StaleScript(s, owner, id) == join + back + finish;
  }

  /**
    Exactly when an invalidation guarantees freshness: in a reachable state, every call that begins
    later returns only lists whose fetch began later if and only if no fetch is then running, or
    done well and not yet committed.
   */
  lemma InvalidationIsFreshIffQuiet(before: seq<Event>)
    requires RunFrom(Init, before).Some?
    ensures var s := RunFrom(Init, before).value;
            (forall es, id :: !StaleAfter(s, es, id)) <==> Quiet(s)
  {
    var s := RunFrom(Init, before).value;
    RunKeepsInv(Init, before);
    if Quiet(s) {
      forall es, id: nat ensures !StaleAfter(s, es, id) { QuietMeansFresh(s, es, id); }
    } else {
      var owner :| owner in s.calls && (s.calls[owner].Fetching? || (s.calls[owner].Fetched? && s.calls[owner].ok));
      var id := FreshId(s.calls.Keys);
      OverlapCanBeStale(s, owner, id);
    }
  }

  lemma {:induction false} FreshId(used: set<nat>) returns (id: nat)
    ensures id !in used && forall u :: u in used ==> u < id
  {
    if used == {} {
      id := 0;
    } else {
      var u :| u in used;
      var rest := FreshId(used - {u});
      assert used == (used - {u}) + {u};
      id := if rest > u then rest else u + 1;
    }
  }

  // ----- What the history alone says about the cache -----

  /** The time that has passed. */
  function Elapsed(es: seq<Event>): nat {
    if es == [] then 0
    else Elapsed(es[..|es| - 1]) + match es[|es| - 1] { case Tick(d) => d case _ => 0 }
  }

  /** How the fetch of a call ended, if it did. */
  function Outcome(es: seq<Event>, id: nat): Option<(bool, Containers)> {
    if es == [] then None
    else
      match es[|es| - 1]
      case FetchEnd(i, ok, items) => if i == id then Some((ok, items)) else Outcome(es[..|es| - 1], id)
      case _ => Outcome(es[..|es| - 1], id)
  }

  /** The last non-empty list a fetch brought since the last invalidation or empty list, and when. */
  function Kept(es: seq<Event>): Option<(Containers, nat)> {
    if es == [] then None
    else
      var init := es[..|es| - 1];
      match es[|es| - 1]
      case Invalidate => None
      case Commit(id) =>
        (match Outcome(init, id)
         case Some((true, items)) => if items == [] then None else Some((items, Elapsed(init)))
         case _ => Kept(init))
      case _ => Kept(init)
  }

  lemma {:induction false} TimeIsElapsed(es: seq<Event>)
    requires RunFrom(Init, es).Some?
    ensures RunFrom(Init, es).value.now == Elapsed(es)
  {
    if es != [] { TimeIsElapsed(es[..|es| - 1]); }
  }

  lemma {:induction false} FetchedIsOutcome(es: seq<Event>, id: nat)
    requires RunFrom(Init, es).Some? && id in RunFrom(Init, es).value.calls
    requires RunFrom(Init, es).value.calls[id].Fetched?
    ensures var c := RunFrom(Init, es).value.calls[id]; Outcome(es, id) == Some((c.ok, c.items))
  {
    var init, e := es[..|es| - 1], es[|es| - 1];
    if !(e.FetchEnd? && e.id == id) { FetchedIsOutcome(init, id); }
  }

  ghost predicate CacheIs(s: State, kept: Option<(Containers, nat)>) {
    match kept
    case None => s.cache.None?
    case Some((items, at)) => s.cache.Some? && s.cache.value.items == items && s.cache.value.at == at
  }

  lemma {:induction false} CacheIsKept(es: seq<Event>)
    requires RunFrom(Init, es).Some?
    ensures CacheIs(RunFrom(Init, es).value, Kept(es))
  {
    if es != [] {
      var init, e := es[..|es| - 1], es[|es| - 1];
      CacheIsKept(init);
      TimeIsElapsed(init);
      if e.Commit? { FetchedIsOutcome(init, e.id); }
    }
  }

  /** A list brought less than two seconds ago and not invalidated since. */
  predicate Recent(es: seq<Event>) {
    match Kept(es)
    case None => false
    case Some((_, at)) => Elapsed(es) - at < 2000
  }

  /**
    A call is answered from the cache exactly when a non-empty list was stored less than 2000 ms ago
    and not invalidated since, and then with that list; otherwise it joins the fetch in flight, or
    begins one when there is none.
   */
  lemma AnsweredFromCacheIff(es: seq<Event>, id: nat)
    requires RunFrom(Init, es).Some? && Enabled(RunFrom(Init, es).value, Look(id))
    ensures var s, t := RunFrom(Init, es).value, Apply(RunFrom(Init, es).value, Look(id));
      && id in t.calls && (t.calls[id].Returned? <==> Recent(es))
      && (Recent(es) ==> t.calls[id].result.Listed? && t.calls[id].result.items == Kept(es).value.0)
      && (!Recent(es) && (exists c :: c in s.calls && InFlight(s.calls[c])) ==>
          t.calls[id].Waiting? && t.next == s.next)
      && (!Recent(es) && !(exists c :: c in s.calls && InFlight(s.calls[c])) ==> t.calls[id] == Fetching(s.next))
  {
    CacheIsKept(es);
    TimeIsElapsed(es);
    RunKeepsInv(Init, es);
    var s := RunFrom(Init, es).value;
    assert s.inflight.Some? ==> s.carrier in s.calls && InFlight(s.calls[s.carrier]);
  }

  /** The call that fetched returns its own list, or after a failure the list kept, or the error when there is none. */
  lemma FetcherGets(es: seq<Event>, id: nat)
    requires RunFrom(Init, es).Some? && Enabled(RunFrom(Init, es).value, Commit(id))
    ensures var t := Apply(RunFrom(Init, es).value, Commit(id));
      && Outcome(es, id).Some? && id in t.calls && t.calls[id].Returned?
      && (Outcome(es, id).value.0 ==> t.calls[id].result.Listed? && t.calls[id].result.items == Outcome(es, id).value.1)
      && (!Outcome(es, id).value.0 && Kept(es).Some? ==>
            t.calls[id].result.Listed? && t.calls[id].result.items == Kept(es).value.0)
      && (!Outcome(es, id).value.0 && Kept(es).None? ==> t.calls[id].result == Error)
  {
    CacheIsKept(es);
    FetchedIsOutcome(es, id);
  }

  /** The call that committed last. */
  function LastCommitter(es: seq<Event>): Option<nat> {
    if es == [] then None
    else match es[|es| - 1] { case Commit(id) => Some(id) case _ => LastCommitter(es[..|es| - 1]) }
  }

  ghost predicate SharedIs(s: State, id: nat) {
    && id in s.calls && s.calls[id].Returned?
    && s.calls[id].result == if s.lastErr then Error else Listed(s.last.items, s.last.src)
  }

  lemma {:induction false} SharedIsLastCommitted(es: seq<Event>)
    requires RunFrom(Init, es).Some?
    ensures match LastCommitter(es)
      case None => RunFrom(Init, es).value.closed == {}
      case Some(c) => SharedIs(RunFrom(Init, es).value, c)
  {
    if es != [] { SharedIsLastCommitted(es[..|es| - 1]); }
  }

  /** A waiting call that is woken returns what the last committing call returned. */
  lemma WaiterGets(es: seq<Event>, id: nat)
    requires RunFrom(Init, es).Some? && Enabled(RunFrom(Init, es).value, ReadShared(id))
    ensures var s, t := RunFrom(Init, es).value, Apply(RunFrom(Init, es).value, ReadShared(id));
      && LastCommitter(es).Some? && LastCommitter(es).value in s.calls
      && t.calls[id] == s.calls[LastCommitter(es).value] && t.calls[id].Returned?
  {
    SharedIsLastCommitted(es);
  }

  /** A call whose context ends while it waits says so, and leaves the fetch and everyone else alone. */
  lemma CancelledGets(es: seq<Event>, id: nat)
    requires RunFrom(Init, es).Some? && Enabled(RunFrom(Init, es).value, Cancel(id))
    ensures var s, t := RunFrom(Init, es).value, Apply(RunFrom(Init, es).value, Cancel(id));
      t.calls == s.calls[id := Returned(Cancelled)] && t.inflight == s.inflight && t.cache == s.cache
  {
  }
}

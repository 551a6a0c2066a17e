/**
  Rolling container statistics keyed by container id, where ids may be abbreviated
  (backend/internal/daemon/stats_history.go). Times are nanoseconds, samples carry milliseconds.
 */
module StatsHistory {
  import opened Text

  type Time = int

  datatype Sample = Sample(t: int, stats: string)

  /** One append to a key: its sample and the cutoff it applied to the samples before it. */
  datatype Appended = Appended(sample: Sample, cutoff: int)

  function UnixMilli(at: Time): int { at / 1_000_000 }

  /** Whole milliseconds, rounded down. */
  lemma UnixMilliRoundsDown(at: Time)
    ensures UnixMilli(at) * 1_000_000 <= at < (UnixMilli(at) + 1) * 1_000_000
  {
  }

  /** Ids match exactly when one is a prefix of the other. */
  lemma MatchIsPrefix(a: string, b: string)
    ensures Match(a, b) <==> (|a| <= |b| && b[..|a|] == a) || (|b| <= |a| && a[..|b|] == b)
  {
  }

  predicate Match(a: string, b: string) { a == b || b <= a || a <= b }

  predicate MatchesAny(key: string, keep: set<string>) { exists c :: c in keep && Match(key, c) }

  // ----- Keys -----

  /** No key is a prefix of another. */
  ghost predicate Antichain(keys: set<string>) {
    forall a, b :: a in keys && b in keys && a <= b ==> a == b
  }

  /** What resolving `id` may answer: the exact key, else any matching key. */
  ghost predicate Resolves(keys: set<string>, id: string, key: string) {
    key in keys && Match(key, id) && (id in keys ==> key == id)
  }

  lemma PrefixesOfOne(a: string, b: string, s: string)
    requires a <= s && b <= s
    ensures a <= b || b <= a
  {
    if |a| <= |b| {
      assert a == s[..|a|] && b[..|a|] == s[..|a|];
    } else {
      assert b == s[..|b|] && a[..|b|] == s[..|b|];
    }
  }

  /** A key that is a prefix of the queried id is its only match. */
  lemma PrefixKeyIsTheOnlyMatch(keys: set<string>, id: string, key: string, other: string)
    requires Antichain(keys) && key in keys && other in keys
    requires key <= id && Match(other, id)
    ensures other == key
  {
    if id <= other {
      PrefixTransitive(key, id, other);
    } else {
      PrefixesOfOne(key, other, id);
    }
  }

  lemma PrefixTransitive(a: string, b: string, c: string)
    requires a <= b && b <= c
    ensures a <= c
  {
    assert c[..|a|] == b[..|a|];
  }

  /** So resolution can be ambiguous only when the id is a proper prefix of several keys. */
  lemma AmbiguousOnlyBelow(keys: set<string>, id: string, a: string, b: string)
    requires Antichain(keys) && Resolves(keys, id, a) && Resolves(keys, id, b) && a != b
    ensures id < a && id < b
  {
    if a <= id { PrefixKeyIsTheOnlyMatch(keys, id, a, b); }
    if b <= id { PrefixKeyIsTheOnlyMatch(keys, id, b, a); }
  }

  /** A new key that matches no key keeps the antichain. */
  lemma NewKeyKeepsAntichain(keys: set<string>, id: string)
    requires Antichain(keys) && forall k :: k in keys ==> !Match(k, id)
    ensures Antichain(keys + {id})
  {
  }

  // ----- Retention -----

  /** Samples not older than the cutoff, in order. */
  function Recent(samples: seq<Sample>, cutoff: int): seq<Sample> {
    if samples == [] then []
    else
      var last := samples[|samples| - 1];
      Recent(samples[..|samples| - 1], cutoff) + (if last.t >= cutoff then [last] else [])
  }

  /** What is stored after a log of appends to one key. */
  function Retained(log: seq<Appended>): seq<Sample> {
    if log == [] then []
    else
      var last := log[|log| - 1];
      Recent(Retained(log[..|log| - 1]), last.cutoff) + [last.sample]
  }

  /** Entry `i` is not older than any cutoff applied after it. */
  ghost predicate Survives(log: seq<Appended>, i: nat) {
    i < |log| && forall j :: i < j < |log| ==> log[i].sample.t >= log[j].cutoff
  }

  /** Entry `i` lies in the window of the last append. */
  predicate InWindow(log: seq<Appended>, i: nat) {
    i < |log| && (i < |log| - 1 ==> log[i].sample.t >= log[|log| - 1].cutoff)
  }

  /** The samples of the entries before `n` that survive the whole log, in order. */
  ghost function Surviving(log: seq<Appended>, n: nat): seq<Sample>
    requires n <= |log|
  {
    if n == 0 then [] else Surviving(log, n - 1) + (if Survives(log, n - 1) then [log[n - 1].sample] else [])
  }

  /** The samples of the entries before `n` in the window of the last append, in order. */
  function Window(log: seq<Appended>, n: nat): seq<Sample>
    requires n <= |log|
  {
    if n == 0 then [] else Window(log, n - 1) + (if InWindow(log, n - 1) then [log[n - 1].sample] else [])
  }

  lemma {:induction false} RecentAppend(xs: seq<Sample>, x: Sample, cutoff: int)
    ensures Recent(xs + [x], cutoff) == Recent(xs, cutoff) + (if x.t >= cutoff then [x] else [])
  {
    assert (xs + [x])[..|xs + [x]| - 1] == xs;
  }

  lemma SurvivesStep(init: seq<Appended>, last: Appended, i: nat)
    requires i < |init|
    ensures Survives(init + [last], i) <==> Survives(init, i) && init[i].sample.t >= last.cutoff
  {
    var log := init + [last];
    assert log[i] == init[i];
    if Survives(log, i) {
      assert log[|init|] == last;
      forall j | i < j < |init| ensures init[i].sample.t >= init[j].cutoff { assert log[j] == init[j]; }
    }
    if Survives(init, i) && init[i].sample.t >= last.cutoff {
      forall j | i < j < |log| ensures log[i].sample.t >= log[j].cutoff { assert j < |init| ==> log[j] == init[j]; }
    }
  }

  lemma {:induction false} SurvivingStep(init: seq<Appended>, last: Appended, n: nat)
    requires n <= |init|
    ensures Surviving(init + [last], n) == Recent(Surviving(init, n), last.cutoff)
  {
    if n > 0 {
      SurvivingStep(init, last, n - 1);
      var log := init + [last];
      SurvivesStep(init, last, n - 1);
      if Survives(init, n - 1) {
        RecentAppend(Surviving(init, n - 1), init[n - 1].sample, last.cutoff);
      } else {
        assert Surviving(init, n - 1) + [] == Surviving(init, n - 1);
      }
    }
  }

  /** For every log, in any order of times: exactly the entries no later cutoff removed are stored. */
  lemma {:induction false} RetainedAreTheSurvivors(log: seq<Appended>)
    ensures Retained(log) == Surviving(log, |log|)
  {
    if log != [] {
      var init, last := log[..|log| - 1], log[|log| - 1];
      assert log == init + [last];
      RetainedAreTheSurvivors(init);
      SurvivingStep(init, last, |init|);
      assert Survives(log, |init|);
    }
  }

  lemma {:induction false} SurvivorsInWindow(log: seq<Appended>, n: nat)
    requires n <= |log|
    ensures |Surviving(log, n)| <= |Window(log, n)|
    ensures Surviving(log, n) == Window(log, n) <==> forall i :: 0 <= i < n && InWindow(log, i) ==> Survives(log, i)
  {
    if n > 0 {
      SurvivorsInWindow(log, n - 1);
      assert Survives(log, n - 1) ==> InWindow(log, n - 1);
      if Survives(log, n - 1) || !InWindow(log, n - 1) {
        var tail := if InWindow(log, n - 1) then [log[n - 1].sample] else [];
        AppendSame(Surviving(log, n - 1), Window(log, n - 1), tail);
      }
    }
  }

  lemma AppendSame(a: seq<Sample>, b: seq<Sample>, tail: seq<Sample>)
    requires |a| <= |b|
    ensures a + tail == b + tail <==> a == b
  {
    if a + tail == b + tail {
      assert |a| == |b|;
      assert a == (a + tail)[..|a|] && b == (b + tail)[..|b|];
    }
  }

  /**
    The stored samples are the append log filtered to the window of the latest append exactly when
    every entry in that window survived the cutoffs in between.
   */
  lemma RetainedIsWindowIff(log: seq<Appended>)
    ensures Retained(log) == Window(log, |log|) <==> forall i :: 0 <= i < |log| && InWindow(log, i) ==> Survives(log, i)
  {
    RetainedAreTheSurvivors(log);
    SurvivorsInWindow(log, |log|);
  }

  /** The log's entries were appended at `times`, which never decrease. */
  ghost predicate AppendedInOrder(log: seq<Appended>, times: seq<Time>, retain: Time) {
    && |times| == |log|
    && (forall i :: 0 <= i < |log| ==> log[i].cutoff == UnixMilli(times[i] - retain))
    && (forall i, j :: 0 <= i < j < |times| ==> times[i] <= times[j])
  }

  /** With non-decreasing append times the stored samples are that window. */
  lemma RetainedIsWindow(log: seq<Appended>, times: seq<Time>, retain: Time)
    requires AppendedInOrder(log, times, retain)
    ensures Retained(log) == Window(log, |log|)
  {
    RetainedIsWindowIff(log);
    forall i | 0 <= i < |log| && InWindow(log, i) ensures Survives(log, i) {
      forall j | i < j < |log| ensures log[i].sample.t >= log[j].cutoff {
        assert log[j].cutoff <= log[|log| - 1].cutoff;
      }
    }
  }

  /** A clock that steps back can lose a sample the last window would keep. */
  lemma OutOfOrderCanLoseSamples()
    ensures var log := [Appended(Sample(100, ""), -900), Appended(Sample(2000, ""), 1000),
        Appended(Sample(50, ""), -950)];
            InWindow(log, 0) && !Survives(log, 0) && Retained(log) != Window(log, |log|)
  {
    var log := [Appended(Sample(100, ""), -900), Appended(Sample(2000, ""), 1000), Appended(Sample(50, ""), -950)];
    assert InWindow(log, 0) && log[0].sample.t < log[1].cutoff;
    RetainedIsWindowIff(log);
  }

  // ----- The store -----

  /** Keys form a prefix antichain and each key stores what its append log retains. */
  ghost predicate Consistent(byID: map<string, seq<Sample>>, log: map<string, seq<Appended>>) {
    && Antichain(byID.Keys) && "" !in byID.Keys
    && log.Keys == byID.Keys
    && forall k :: k in byID ==> log[k] != [] && byID[k] == Retained(log[k])
  }

  lemma DroppingKeepsConsistent(byID: map<string, seq<Sample>>, log: map<string, seq<Appended>>, gone: set<string>)
    requires Consistent(byID, log)
    ensures Consistent(byID - gone, log - gone)
  {
    assert (byID - gone).Keys == byID.Keys - gone;
    assert (log - gone).Keys == log.Keys - gone;
  }

  lemma AppendingKeepsConsistent(byID: map<string, seq<Sample>>, log: map<string, seq<Appended>>, id: string,
      k: string, entry: Appended)
    requires Consistent(byID, log) && id != "" && k != ""
    requires LandsOn(byID.Keys, id, k)
    ensures var l := Extended(log, k, entry); Consistent(byID[k := Retained(l)], log[k := l])
  {
    if k !in byID { NewKeyKeepsAntichain(byID.Keys, id); }
    var l := Extended(log, k, entry);
    assert byID[k := Retained(l)].Keys == byID.Keys + {k};
    assert log[k := l].Keys == log.Keys + {k};
    assert k in byID ==> byID.Keys + {k} == byID.Keys;
  }

  /** The key an append to `id` lands on. */
  ghost predicate LandsOn(keys: set<string>, id: string, key: string) {
    if forall k :: k in keys ==> !Match(k, id) then key == id else Resolves(keys, id, key)
  }

  ghost function Extended(log: map<string, seq<Appended>>, key: string, entry: Appended): seq<Appended> {
    (if key in log then log[key] else []) + [entry]
  }

  lemma ExtendedRetains(byID: map<string, seq<Sample>>, log: map<string, seq<Appended>>, k: string, entry: Appended)
    requires Consistent(byID, log)
    ensures Retained(Extended(log, k, entry)) ==
        Recent(if k in byID then byID[k] else [], entry.cutoff) + [entry.sample]
  {
    var before := if k in log then log[k] else [];
    assert (before + [entry])[..|before + [entry]| - 1] == before;
  }

  function Matching(keys: set<string>, id: string): set<string> { set k | k in keys && Match(k, id) }

  function Unmatched(keys: set<string>, keep: set<string>): set<string> { set k | k in keys && !MatchesAny(k, keep) }

  method RecentSamples(previous: seq<Sample>, cutoff: int) returns (next: seq<Sample>)
    ensures next == Recent(previous, cutoff)
  {
    next := [];
    assert previous[..0] == [];
    for i := 0 to |previous|
      invariant next == Recent(previous[..i], cutoff)
    {
      assert previous[..i + 1] == previous[..i] + [previous[i]];
      RecentAppend(previous[..i], previous[i], cutoff);
      if previous[i].t >= cutoff {
        next := next + [previous[i]];
      }
    }
    assert previous[..|previous|] == previous;
  }

  method DropMatching(byID: map<string, seq<Sample>>, id: string) returns (left: map<string, seq<Sample>>)
    ensures left == byID - Matching(byID.Keys, id)
  {
    left := byID;
    var rest := byID.Keys;
    while rest != {}
      invariant rest <= byID.Keys
      invariant left == byID - Matching(byID.Keys - rest, id)
      decreases |rest|
    {
      var k :| k in rest;
      if Match(k, id) {
        left := left - {k};
      }
      rest := rest - {k};
    }
    assert byID.Keys - rest == byID.Keys;
  }

  method DropUnmatched(byID: map<string, seq<Sample>>, keep: set<string>) returns (left: map<string, seq<Sample>>)
    ensures left == byID - Unmatched(byID.Keys, keep)
  {
    left := byID;
    var rest := byID.Keys;
    while rest != {}
      invariant rest <= byID.Keys
      invariant left == byID - Unmatched(byID.Keys - rest, keep)
      decreases |rest|
    {
      var k :| k in rest;
      if !MatchesAny(k, keep) {
        left := left - {k};
      }
      rest := rest - {k};
    }
    assert byID.Keys - rest == byID.Keys;
  }

  class History {
    var byID: map<string, seq<Sample>>
    const retain: Time

    /** Every append to each key since the key appeared. */
    ghost var log: map<string, seq<Appended>>

    ghost predicate Valid()
      reads this
    {
      Consistent(byID, log)
    }

    constructor (retain: Time)
      ensures Valid() && byID == map[] && this.retain == retain
    {
      byID, log := map[], map[];
      this.retain := retain;
    }

    /** Iteration over the map may meet matching keys in any order. */
    method ResolveKey(id: string) returns (key: string)
      requires Valid() && id != ""
      ensures key == "" <==> forall k :: k in byID.Keys ==> !Match(k, id)
      ensures key != "" ==> Resolves(byID.Keys, id, key)
    {
      if id in byID {
        return id;
      }
      var rest := byID.Keys;
      while rest != {}
        invariant rest <= byID.Keys
        invariant forall k :: k in byID && k !in rest ==> !Match(k, id)
        decreases |rest|
      {
        var k :| k in rest;
        if Match(k, id) {
          return k;
        }
        rest := rest - {k};
      }
      return "";
    }

    method Append(rawId: string, stats: string, at: Time) returns (ghost key: string)
      requires Valid()
      modifies this
      ensures Valid()
      ensures TrimSpace(rawId) == "" ==> byID == old(byID) && log == old(log)
      ensures TrimSpace(rawId) != "" ==>
        var entry := Appended(Sample(UnixMilli(at), stats), UnixMilli(at - retain));
        && LandsOn(old(byID).Keys, TrimSpace(rawId), key)
        && log == old(log)[key := Extended(old(log), key, entry)]
        && byID == old(byID)[key := Retained(log[key])]
    {
      var id := TrimSpace(rawId);
      key := "";
      if id == "" {
        return;
      }
      var sample := Sample(UnixMilli(at), stats);
      var k := ResolveKey(id);
      if k == "" {
        k := id;
      }
      var cutoff := UnixMilli(at - retain);
      var previous := if k in byID then byID[k] else [];
      var next := RecentSamples(previous, cutoff);
      next := next + [sample];
      ghost var entry := Appended(sample, cutoff);
      ExtendedRetains(byID, log, k, entry);
      AppendingKeepsConsistent(byID, log, id, k, entry);
      byID, log, key := byID[k := next], log[k := Extended(log, k, entry)], k;
    }

    method Samples(rawId: string) returns (out: seq<Sample>)
      requires Valid()
      ensures var id := TrimSpace(rawId);
              if id == "" || forall k :: k in byID ==> !Match(k, id) then out == []
              else exists key :: Resolves(byID.Keys, id, key) && out == byID[key] && out == Retained(log[key])
    {
      var id := TrimSpace(rawId);
      if id == "" {
        return [];
      }
      var key := ResolveKey(id);
      if key == "" {
        return [];
      }
      assert Resolves(byID.Keys, id, key);
      return byID[key];
    }

    /** Removes every key that matches the id and no other. */
    method Forget(rawId: string)
      requires Valid()
      modifies this
      ensures Valid()
      ensures byID ==
        (if TrimSpace(rawId) == "" then old(byID) else old(byID) - Matching(old(byID).Keys, TrimSpace(rawId)))
    {
      var id := TrimSpace(rawId);
      if id == "" {
        return;
      }
      DroppingKeepsConsistent(byID, log, Matching(byID.Keys, id));
      log := log - Matching(byID.Keys, id);
      byID := DropMatching(byID, id);
    }

    /** Removes every key that matches nothing in `keep` and no other. */
    method RetainOnly(keep: set<string>)
      requires Valid()
      modifies this
      ensures Valid()
      ensures byID == old(byID) - Unmatched(old(byID).Keys, keep)
    {
      DroppingKeepsConsistent(byID, log, Unmatched(byID.Keys, keep));
      log := log - Unmatched(byID.Keys, keep);
      byID := DropUnmatched(byID, keep);
    }
  }

  /** After Forget no stored key matches the id, and no other key is lost. */
  lemma ForgottenIdMatchesNothing(byID: map<string, seq<Sample>>, id: string)
    ensures var left := byID - Matching(byID.Keys, id);
            forall k :: (k in left ==> !Match(k, id)) &&
                (k in byID && !Match(k, id) ==> k in left && left[k] == byID[k])
  {
  }
}

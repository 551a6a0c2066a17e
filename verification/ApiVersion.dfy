/**
  Docker API versions: dotted integers compared component by component, the shorter one padded
  with zeros (backend/internal/runtime/docker_http_proxy.go).
 */
module ApiVersion {
  import opened Text

  /** Component `i` of a dotted version; a missing component is 0. */
  function Component(v: string, i: nat): int {
    var parts := Split(v, ".");
    if i < |parts| then Atoi(parts[i]) else 0
  }

  /** Number of components the comparison looks at. */
  function Width(a: string, b: string): nat {
    var m, n := |Split(a, ".")|, |Split(b, ".")|;
    if n > m then n else m
  }

  /** The comparison from component `i` on: decided by the first difference. */
  predicate NewerFrom(a: string, b: string, i: nat)
    decreases Width(a, b) - i
  {
    i < Width(a, b) &&
    if Component(a, i) != Component(b, i) then Component(a, i) > Component(b, i) else NewerFrom(a, b, i + 1)
  }

  predicate Newer(a: string, b: string) {
    NewerFrom(a, b, 0)
  }

  /** Reference order: the infinite zero-padded sequences differ first at some `i`, where `a` is larger. */
  ghost predicate LexGreaterAt(a: string, b: string, i: nat) {
    Component(a, i) > Component(b, i) && forall j: nat :: j < i ==> Component(a, j) == Component(b, j)
  }

  ghost predicate LexGreater(a: string, b: string) {
    exists i: nat :: LexGreaterAt(a, b, i)
  }

  /** Same version: no component differs. */
  ghost predicate SameVersion(a: string, b: string) {
    forall j: nat :: Component(a, j) == Component(b, j)
  }

  lemma {:induction false} NewerFromMeaning(a: string, b: string, i: nat)
    requires forall j: nat :: j < i ==> Component(a, j) == Component(b, j)
    ensures NewerFrom(a, b, i) <==> LexGreater(a, b)
    decreases Width(a, b) - i
  {
    if i < Width(a, b) {
      if Component(a, i) == Component(b, i) {
        NewerFromMeaning(a, b, i + 1);
      } else if Component(a, i) > Component(b, i) {
        assert LexGreaterAt(a, b, i);
      }
    } else {
      assert forall j: nat :: Component(a, j) == Component(b, j);
    }
  }

  /** The loop of dockerAPIVersionNewer computes the zero-padded lexicographic order. */
  lemma NewerIsLexicographic(a: string, b: string)
    ensures Newer(a, b) <==> LexGreater(a, b)
  {
    NewerFromMeaning(a, b, 0);
  }

  lemma FirstDifferenceDecides(a: string, b: string, i: nat)
    requires forall j: nat :: j < i ==> Component(a, j) == Component(b, j)
    requires Component(a, i) != Component(b, i)
    ensures LexGreater(a, b) <==> Component(a, i) > Component(b, i)
  {
    if Component(a, i) > Component(b, i) { assert LexGreaterAt(a, b, i); }
    forall k: nat ensures LexGreaterAt(a, b, k) ==> k == i {
      if k < i { assert Component(a, k) == Component(b, k); }
    }
  }

  method DockerAPIVersionNewer(a: string, b: string) returns (newer: bool)
    ensures newer <==> LexGreater(a, b)
  {
    var aParts, bParts := Split(a, "."), Split(b, ".");
    var n := |aParts|;
    if |bParts| > n {
      n := |bParts|;
    }
    for i := 0 to n
      invariant forall j: nat :: j < i ==> Component(a, j) == Component(b, j)
    {
      var av, bv := 0, 0;
      if i < |aParts| {
        av := Atoi(aParts[i]);
      }
      if i < |bParts| {
        bv := Atoi(bParts[i]);
      }
      if av != bv {
        FirstDifferenceDecides(a, b, i);
        return av > bv;
      }
    }
    assert SameVersion(a, b);
    return false;
  }

  // ----- A strict weak order on all texts -----

  lemma NewerIrreflexive(a: string)
    ensures !Newer(a, a)
  {
    NewerIsLexicographic(a, a);
  }

  lemma NewerTransitive(a: string, b: string, c: string)
    requires Newer(a, b) && Newer(b, c)
    ensures Newer(a, c)
  {
    NewerIsLexicographic(a, b);
    NewerIsLexicographic(b, c);
    NewerIsLexicographic(a, c);
    var i: nat :| LexGreaterAt(a, b, i);
    var k: nat :| LexGreaterAt(b, c, k);
    assert LexGreaterAt(a, c, if i < k then i else k);
  }

  lemma {:induction false} FirstDifference(a: string, b: string, i: nat) returns (k: nat)
    requires Component(a, i) != Component(b, i)
    ensures k <= i && Component(a, k) != Component(b, k)
    ensures forall j: nat :: j < k ==> Component(a, j) == Component(b, j)
  {
    k := 0;
    while Component(a, k) == Component(b, k)
      invariant k <= i
      invariant forall j: nat :: j < k ==> Component(a, j) == Component(b, j)
      decreases i - k
    {
      k := k + 1;
    }
  }

  /** Neither version is newer exactly when all their components agree; so ties are an equivalence. */
  lemma TieIsSameVersion(a: string, b: string)
    ensures !Newer(a, b) && !Newer(b, a) <==> SameVersion(a, b)
  {
    NewerIsLexicographic(a, b);
    NewerIsLexicographic(b, a);
    if !SameVersion(a, b) {
      var i: nat :| Component(a, i) != Component(b, i);
      var k := FirstDifference(a, b, i);
      assert LexGreaterAt(a, b, k) || LexGreaterAt(b, a, k);
    }
  }

  /** Being newer does not distinguish between tied versions. */
  lemma TiesAreInterchangeable(a: string, b: string, c: string)
    requires !Newer(a, b) && !Newer(b, a)
    ensures Newer(a, c) <==> Newer(b, c)
    ensures Newer(c, a) <==> Newer(c, b)
  {
    TieIsSameVersion(a, b);
    TieIsSameVersion(b, c);
    TieIsSameVersion(a, c);
    if Newer(b, c) && !Newer(a, c) && Newer(c, a) { NewerTransitive(b, c, a); }
    if Newer(a, c) && !Newer(b, c) && Newer(c, b) { NewerTransitive(a, c, b); }
    if Newer(c, b) && !Newer(c, a) && Newer(a, c) { NewerTransitive(a, c, b); }
    if Newer(c, a) && !Newer(c, b) && Newer(b, c) { NewerTransitive(b, c, a); }
  }

  // ----- Versions as they are written -----

  function Numerals(ns: seq<nat>): (ps: seq<string>)
    ensures |ps| == |ns| && forall i :: 0 <= i < |ns| ==> ps[i] == Decimal(ns[i])
  {
    seq(|ns|, i requires 0 <= i < |ns| => Decimal(ns[i]))
  }

  /** The text of a dotted version. */
  function Dotted(ns: seq<nat>): string { Join(Numerals(ns), ".") }

  /** A missing component is 0. */
  function At(ns: seq<nat>, i: nat): nat { if i < |ns| then ns[i] else 0 }

  lemma DotFreeIsPiece(p: string)
    requires forall i :: 0 <= i < |p| ==> p[i] != '.'
    ensures Piece(p, ".") && !Contains(p, ".")
  {
    forall j: nat | j < |p| ensures !OccursAt(p + ".", ".", j) && !OccursAt(p, ".", j) {
      assert (p + ".")[j..j + 1] == [p[j]] && p[j..j + 1] == [p[j]];
    }
    IndexOfUnique(p + ".", ".", |p|);
  }

  /** Component i of the text is the number written there. */
  lemma ComponentOfDotted(ns: seq<nat>, i: nat)
    requires ns != [] && forall k :: 0 <= k < |ns| ==> ns[k] < TWO_63
    ensures Component(Dotted(ns), i) == At(ns, i)
  {
    var ps := Numerals(ns);
    forall k | 0 <= k < |ps| ensures Piece(ps[k], ".") && !Contains(ps[k], ".") { DotFreeIsPiece(ps[k]); }
    SplitJoin(ps, ".");
    if i < |ns| { ParseInt64Decimal(ns[i]); }
  }

  /** `a` is the later release: larger at the first place where the numbers differ. */
  ghost predicate Later(a: seq<nat>, b: seq<nat>) {
    exists i: nat :: At(a, i) > At(b, i) && forall j: nat :: j < i ==> At(a, j) == At(b, j)
  }

  /** The comparison of two written versions, of any lengths, is the comparison of their numbers. */
  lemma NewerComparesTheNumbers(a: seq<nat>, b: seq<nat>)
    requires a != [] && forall k :: 0 <= k < |a| ==> a[k] < TWO_63
    requires b != [] && forall k :: 0 <= k < |b| ==> b[k] < TWO_63
    ensures Newer(Dotted(a), Dotted(b)) <==> Later(a, b)
  {
    var x, y := Dotted(a), Dotted(b);
    NewerIsLexicographic(x, y);
    forall i: nat ensures Component(x, i) == At(a, i) && Component(y, i) == At(b, i) {
      ComponentOfDotted(a, i);
      ComponentOfDotted(b, i);
    }
    if i: nat :| LexGreaterAt(x, y, i) {
      assert At(a, i) > At(b, i) && forall j: nat :: j < i ==> At(a, j) == At(b, j);
    }
    if i: nat :| At(a, i) > At(b, i) && forall j: nat :: j < i ==> At(a, j) == At(b, j) {
      assert LexGreaterAt(x, y, i);
    }
  }

  /** In particular for two components, which are written with a dot between them. */
  lemma NewerOfTwo(a: nat, b: nat, c: nat, d: nat)
    requires a < TWO_63 && b < TWO_63 && c < TWO_63 && d < TWO_63
    ensures Newer(Dotted([a, b]), Dotted([c, d])) <==> a > c || (a == c && b > d)
    ensures Dotted([a, b]) == Decimal(a) + "." + Decimal(b)
  {
    NewerComparesTheNumbers([a, b], [c, d]);
    LaterOfTwo(a, b, c, d);
    TwoNumerals(a, b);
  }

  lemma LaterOfTwo(a: nat, b: nat, c: nat, d: nat)
    ensures Later([a, b], [c, d]) <==> a > c || (a == c && b > d)
  {
    var x, y := [a, b], [c, d];
    assert At(x, 0) == a && At(x, 1) == b && At(y, 0) == c && At(y, 1) == d;
    assert forall i: nat :: i >= 2 ==> At(x, i) == 0 && At(y, i) == 0;
    if a > c { assert At(x, 0) > At(y, 0); }
    if a == c && b > d { assert At(x, 1) > At(y, 1) && forall j: nat :: j < 1 ==> At(x, j) == At(y, j); }
  }

  lemma TwoNumerals(a: nat, b: nat)
    ensures Dotted([a, b]) == Decimal(a) + "." + Decimal(b)
  {
    var ps := Numerals([a, b]);
    assert ps[0] == Decimal(a) && ps[1] == Decimal(b);
    assert ps[1..] == [Decimal(b)];
    assert Join(ps[1..], ".") == Decimal(b);
  }

  /** The smaller of two versions; the client's own text when they tie. */
  function Smaller(client: string, max: string): (v: string)
    ensures !Newer(v, max) && (v == client || v == max)
  {
    NewerIrreflexive(max);
    if Newer(client, max) then max else client
  }
}

/**
  The HTTP request head as the Docker API proxy edits it: the API-version clamp on the request
  line, the forced `Connection: close`, and the framing it reads from the result
  (backend/internal/runtime/docker_http_proxy.go).
 */
module HttpHead {
  import opened Text
  import opened ApiVersion

  const CRLF := "\r\n"
  const HEAD_END := "\r\n\r\n"
  const CLOSE_LINE := "Connection: close"
  const CONNECTION := "connection:"
  const CONTENT_LENGTH := "content-length:"
  const CHUNKED := "transfer-encoding: chunked"
  const UPGRADE := "upgrade:"

  // ----- Lines and whole heads -----

  function Lines(text: string): (ls: seq<string>)
    ensures |ls| >= 1
  {
    Split(text, CRLF)
  }

  /** The lines the rewriters work on: the head without its terminator. */
  function HeadLines(head: string): (ls: seq<string>)
    ensures |ls| >= 1
  {
    Lines(TrimSuffix(head, HEAD_END))
  }

  function Render(lines: seq<string>): (head: string)
    ensures |head| >= 4
  {
    Join(lines, CRLF) + HEAD_END
  }

  predicate IsLine(l: string) {
    !Contains(l, CRLF)
  }

  ghost predicate AreLines(ls: seq<string>) {
    forall i :: 0 <= i < |ls| ==> IsLine(ls[i])
  }

  lemma LineIsPiece(l: string)
    requires IsLine(l)
    ensures Piece(l, CRLF)
  {
    forall j: nat | j < |l| ensures !OccursAt(l + CRLF, CRLF, j) {
      if j + 2 <= |l| {
        assert (l + CRLF)[j..j + 2] == l[j..j + 2];
        assert !OccursAt(l, CRLF, j);
      } else {
        assert (l + CRLF)[j..j + 2][1] == '\r';
      }
    }
    IndexOfUnique(l + CRLF, CRLF, |l|);
  }

  lemma LinesAreLines(text: string)
    ensures AreLines(Lines(text))
  {
    SplitPieces(text, CRLF);
  }

  lemma LinesOfJoin(ls: seq<string>)
    requires |ls| >= 1 && AreLines(ls)
    ensures Lines(Join(ls, CRLF)) == ls
  {
    forall i | 0 <= i < |ls| - 1 ensures Piece(ls[i], CRLF) { LineIsPiece(ls[i]); }
    SplitJoin(ls, CRLF);
  }

  /** Rendering lines and reading them back gives the same lines. */
  lemma RenderRoundTrip(ls: seq<string>)
    requires |ls| >= 1 && AreLines(ls)
    ensures HeadLines(Render(ls)) == ls
  {
    var h := Render(ls);
    assert h[|h| - 4..] == HEAD_END;
    assert TrimSuffix(h, HEAD_END) == Join(ls, CRLF);
    LinesOfJoin(ls);
  }

  /** A terminated head is the rendering of its lines. */
  lemma HeadRoundTrip(head: string)
    requires |head| >= 4 && head[|head| - 4..] == HEAD_END
    ensures Render(HeadLines(head)) == head
  {
    JoinSplit(TrimSuffix(head, HEAD_END), CRLF);
  }

  /** Splitting a rendered head without trimming it adds two empty lines. */
  lemma LinesOfRender(ls: seq<string>)
    requires |ls| >= 1 && AreLines(ls)
    ensures Lines(Render(ls)) == ls + ["", ""]
  {
    JoinAppend(ls, ["", ""], CRLF);
    assert ["", ""][1..] == [""];
    assert Join(["", ""], CRLF) == "" + CRLF + "";
    assert Join(ls, CRLF) + CRLF + ("" + CRLF + "") == Render(ls);
    assert !Contains("", CRLF);
    LinesOfJoin(ls + ["", ""]);
  }

  /** The lines of any head are its head lines, with two empty lines more when it is terminated. */
  lemma LinesOfHead(head: string) returns (extra: seq<string>)
    ensures extra == [] || extra == ["", ""]
    ensures Lines(head) == HeadLines(head) + extra
  {
    if |head| >= 4 && head[|head| - 4..] == HEAD_END {
      HeadRoundTrip(head);
      LinesAreLines(TrimSuffix(head, HEAD_END));
      LinesOfRender(HeadLines(head));
      extra := ["", ""];
    } else {
      extra := [];
    }
  }

  // ----- API-version clamp -----

  predicate IsVersionChar(c: char) { IsDigit(c) || c == '.' }

  ghost predicate IsVersion(v: string) {
    v != "" && forall i :: 0 <= i < |v| ==> IsVersionChar(v[i])
  }

  /** End of the run of version characters that starts at `from`. */
  function RunEnd(path: string, from: nat): (e: nat)
    requires from <= |path|
    ensures from <= e <= |path|
    ensures forall i :: from <= i < e ==> IsVersionChar(path[i])
    ensures e < |path| ==> !IsVersionChar(path[e])
    decreases |path| - from
  {
    if from < |path| && IsVersionChar(path[from]) then RunEnd(path, from + 1) else from
  }

  predicate TargetNeedsClamp(path: string, max: string) {
    var idx := IndexOf(path, "/v");
    idx >= 0 &&
    var e := RunEnd(path, idx + 2);
    e > idx + 2 && Newer(path[idx + 2..e], max)
  }

  function ClampTarget(path: string, max: string): string {
    if !TargetNeedsClamp(path, max) then path
    else
      var idx := IndexOf(path, "/v");
      path[..idx + 2] + max + path[RunEnd(path, idx + 2)..]
  }

  predicate LineNeedsClamp(line: string, max: string) {
    var parts := SplitN(line, " ", 3);
    |parts| >= 2 && TargetNeedsClamp(parts[1], max)
  }

  function ClampLine(line: string, max: string): string {
    var parts := SplitN(line, " ", 3);
    if |parts| < 2 then line else Join(parts[1 := ClampTarget(parts[1], max)], " ")
  }

  function Clamp(head: string, max: string): string {
    if head == "" || max == "" then head
    else
      var ls := HeadLines(head);
      if LineNeedsClamp(ls[0], max) then Render(ls[0 := ClampLine(ls[0], max)]) else head
  }

  method ClampDockerAPIVersion(head: string, maxVersion: string) returns (out: string)
    ensures out == Clamp(head, maxVersion)
  {
    if |head| == 0 || maxVersion == "" {
      return head;
    }
    var lines := Split(TrimSuffix(head, HEAD_END), CRLF);
    var parts := SplitN(lines[0], " ", 3);
    if |parts| < 2 {
      return head;
    }
    var path := parts[1];
    var idx := IndexOf(path, "/v");
    if idx < 0 {
      return head;
    }
    var verStart := idx + 2;
    var verEnd := verStart;
    while verEnd < |path| && IsVersionChar(path[verEnd])
      invariant verStart <= verEnd <= |path|
      invariant RunEnd(path, verEnd) == RunEnd(path, verStart)
    {
      verEnd := verEnd + 1;
    }
    if verEnd <= verStart {
      return head;
    }
    var clientVersion := path[verStart..verEnd];
    NewerIsLexicographic(clientVersion, maxVersion);
    var newer := DockerAPIVersionNewer(clientVersion, maxVersion);
    if !newer {
      return head;
    }
    parts := parts[1 := path[..verStart] + maxVersion + path[verEnd..]];
    lines := lines[0 := Join(parts, " ")];
    return Join(lines, CRLF) + HEAD_END;
  }

  /** RunEnd is determined by what it promises. */
  lemma {:induction false} RunEndUnique(path: string, from: nat, e: nat)
    requires from <= e <= |path|
    requires forall i :: from <= i < e ==> IsVersionChar(path[i])
    requires e < |path| ==> !IsVersionChar(path[e])
    ensures RunEnd(path, from) == e
    decreases e - from
  {
    if from < e {
      RunEndUnique(path, from + 1, e);
    }
  }

  /** A version after the first `mark`, read back from the text. */
  lemma VersionAfterMark(pre: string, mark: string, v: string, post: string)
    requires IndexOf(pre + mark, mark) == |pre|
    requires IsVersion(v) && (post == "" || !IsVersionChar(post[0]))
    ensures var path, s := pre + mark + v + post, |pre| + |mark|;
      && IndexOf(path, mark) == |pre| && RunEnd(path, s) == s + |v|
      && path[..s] == pre + mark && path[s..s + |v|] == v && path[s + |v|..] == post
  {
    var path, s := pre + mark + v + post, |pre| + |mark|;
    IndexOfAppend(pre, mark, v + post);
    assert path == pre + mark + (v + post);
    assert path[s..s + |v|] == v;
    assert path[s + |v|..] == post;
    forall i | s <= i < s + |v| ensures IsVersionChar(path[i]) { assert path[i] == v[i - s]; }
    RunEndUnique(path, s, s + |v|);
  }

  /**
    For every target, whatever stands before its first `/v` and after the version run is kept and
    the version becomes the smaller of the client's and the maximum.
   */
  lemma ClampTargetTakesSmaller(pre: string, v: string, post: string, max: string)
    requires IndexOf(pre + "/v", "/v") == |pre|
    requires IsVersion(v) && (post == "" || !IsVersionChar(post[0]))
    ensures ClampTarget(pre + "/v" + v + post, max) == pre + "/v" + Smaller(v, max) + post
  {
    VersionAfterMark(pre, "/v", v, post);
  }

  /** Docker's own form: the target starts with `/v<version>`. */
  lemma ClampedVersionIsSmaller(v: string, post: string, max: string)
    requires IsVersion(v) && (post == "" || !IsVersionChar(post[0]))
    ensures ClampTarget("/v" + v + post, max) == "/v" + Smaller(v, max) + post
  {
    var pre: string := [];
    FoundAtItself(pre, "/v");
    ClampTargetTakesSmaller(pre, v, post, max);
    NothingBefore(pre, "/v", v, post);
    NothingBefore(pre, "/v", Smaller(v, max), post);
  }

  /** For versions as they are written: the smaller of the two by their numbers. */
  lemma WrittenVersionIsClamped(a: seq<nat>, b: seq<nat>, post: string)
    requires a != [] && forall k :: 0 <= k < |a| ==> a[k] < TWO_63
    requires b != [] && forall k :: 0 <= k < |b| ==> b[k] < TWO_63
    requires post == "" || !IsVersionChar(post[0])
    ensures ClampTarget("/v" + Dotted(a) + post, Dotted(b)) ==
        "/v" + (if Later(a, b) then Dotted(b) else Dotted(a)) + post
  {
    DottedIsVersion(a);
    ClampedVersionIsSmaller(Dotted(a), post, Dotted(b));
    NewerComparesTheNumbers(a, b);
  }

  lemma DottedIsVersion(ns: seq<nat>)
    requires ns != []
    ensures IsVersion(Dotted(ns))
  {
    JoinedIsVersion(Numerals(ns));
  }

  lemma {:induction false} JoinedIsVersion(ps: seq<string>)
    requires ps != [] && forall i :: 0 <= i < |ps| ==> IsVersion(ps[i])
    ensures IsVersion(Join(ps, "."))
  {
    if |ps| > 1 { JoinedIsVersion(ps[1..]); }
  }

  lemma FoundAtItself(pre: string, pat: string)
    requires pre == []
    ensures IndexOf(pre + pat, pat) == |pre|
  {
    assert pre + pat == pat;
    assert OccursAt(pat, pat, 0);
    IndexOfUnique(pat, pat, 0);
  }

  lemma NothingBefore(pre: string, a: string, b: string, c: string)
    requires pre == []
    ensures pre + a + b + c == a + b + c
  {
    assert pre + a == a;
  }

  /** A target the clamp changes, cut at its first version run. */
  lemma ClampTargetShape(path: string, max: string) returns (pre: string, v: string, post: string)
    requires TargetNeedsClamp(path, max)
    ensures path == pre + "/v" + v + post && IndexOf(pre + "/v", "/v") == |pre|
    ensures IsVersion(v) && Newer(v, max) && (post == "" || !IsVersionChar(post[0]))
    ensures ClampTarget(path, max) == pre + "/v" + max + post
  {
    var tail;
    pre, tail := CutAtFirst(path, "/v");
    v, post := CutRun(path, |pre| + 2);
    assert path[|pre| + 2..] == tail;
    assert path == pre + "/v" + (v + post);
    assert path[..|pre| + 2] == pre + "/v";
  }

  /** The text from `from` on: its leading version run and what follows. */
  lemma CutRun(path: string, from: nat) returns (v: string, post: string)
    requires from <= |path|
    ensures v == path[from..RunEnd(path, from)] && post == path[RunEnd(path, from)..]
    ensures path[from..] == v + post
    ensures v != "" ==> IsVersion(v)
    ensures post == "" || !IsVersionChar(post[0])
  {
    var e := RunEnd(path, from);
    v, post := path[from..e], path[e..];
    forall i | 0 <= i < |v| ensures IsVersionChar(v[i]) { assert v[i] == path[from + i]; }
  }

  lemma ClampTargetIdempotent(path: string, max: string)
    requires IsVersion(max)
    ensures !TargetNeedsClamp(ClampTarget(path, max), max)
  {
    if TargetNeedsClamp(path, max) {
      var pre, v, post := ClampTargetShape(path, max);
      VersionAfterMark(pre, "/v", max, post);
      NewerIrreflexive(max);
    }
  }

  /** Replacing a version run inside a text never creates a new occurrence of a separator made of other bytes. */
  lemma RunReplacementKeepsFree(pre: string, v: string, post: string, max: string, sep: string)
    requires IsVersion(v) && IsVersion(max) && sep != ""
    requires forall i :: 0 <= i < |sep| ==> !IsVersionChar(sep[i])
    requires !Contains(pre + v + post, sep)
    ensures !Contains(pre + max + post, sep)
  {
    var old', new' := pre + v + post, pre + max + post;
    forall j: nat ensures !OccursAt(new', sep, j) {
      assert !OccursAt(old', sep, j);
      if j + |sep| <= |pre| {
        assert new'[j..j + |sep|] == old'[j..j + |sep|];
      } else if j >= |pre| + |max| && j + |sep| <= |new'| {
        var k := j - |max| + |v|;
        assert !OccursAt(old', sep, k);
        assert new'[j..j + |sep|] == old'[k..k + |sep|];
      } else if j + |sep| <= |new'| {
        // the occurrence would cover a byte of `max`
        var at := if j < |pre| then |pre| else j;
        assert IsVersionChar(max[at - |pre|]);
        assert new'[at] == max[at - |pre|];
        assert new'[j..j + |sep|][at - j] == new'[at];
      }
    }
  }

  /** The request line outside the target's version run, seen through the clamp. */
  lemma ClampLineShape(line: string, max: string) returns (pre: string, v: string, post: string)
    requires LineNeedsClamp(line, max)
    ensures line == pre + v + post && IsVersion(v) && Newer(v, max)
    ensures |pre| >= 2 && pre[|pre| - 2..] == "/v" && ' ' in pre
    ensures ClampLine(line, max) == pre + max + post
  {
    var parts := SplitN(line, " ", 3);
    JoinSplitN(line, " ", 3);
    var p, ver, q := ClampTargetShape(parts[1], max);
    var tail := if |parts| == 3 then " " + parts[2] else "";
    JoinOfTwoOrThree(parts, " ");
    JoinOfTwoOrThree(parts[1 := ClampTarget(parts[1], max)], " ");
    pre := LineUpToVersion(parts[0], p);
    v, post := ver, q + tail;
    Regroup(parts[0] + " ", p + "/v", ver, q, tail);
    Regroup(parts[0] + " ", p + "/v", max, q, tail);
  }

  lemma LineUpToVersion(verb: string, p: string) returns (pre: string)
    ensures pre == verb + " " + (p + "/v") && |pre| >= 2 && pre[|pre| - 2..] == "/v" && ' ' in pre
  {
    pre := verb + " " + (p + "/v");
    assert pre[|verb|] == ' ';
  }

  lemma Regroup(a: string, b: string, c: string, d: string, e: string)
    ensures a + (b + c + d) + e == a + b + c + (d + e)
  {
  }

  lemma JoinOfTwoOrThree(parts: seq<string>, sep: string)
    requires 2 <= |parts| <= 3
    ensures Join(parts, sep) == parts[0] + sep + parts[1] + (if |parts| == 3 then sep + parts[2] else "")
  {
    assert |parts| == 3 ==> parts[1..][1..] == [parts[2]];
  }

  lemma SplitNCons(first: string, rest: string, sep: string, n: nat)
    requires sep != "" && n >= 2 && Piece(first, sep)
    ensures SplitN(first + sep + rest, sep, n) == [first] + SplitN(rest, sep, n - 1)
  {
    var s := first + sep + rest;
    IndexOfAppend(first, sep, rest);
    assert s[..|first|] == first;
    assert s[|first| + |sep|..] == rest;
  }

  lemma SplitNOfTwo(a: string, b: string, sep: string)
    requires sep != "" && Piece(a, sep) && !Contains(b, sep)
    ensures SplitN(Join([a, b], sep), sep, 3) == [a, b]
  {
    JoinOfTwoOrThree([a, b], sep);
    assert a + sep + b + "" == a + sep + b;
    SplitNCons(a, b, sep, 3);
  }

  lemma SplitNOfThree(a: string, b: string, c: string, sep: string)
    requires sep != "" && Piece(a, sep) && Piece(b, sep)
    ensures SplitN(Join([a, b, c], sep), sep, 3) == [a, b, c]
  {
    JoinOfTwoOrThree([a, b, c], sep);
    assert a + sep + b + (sep + c) == a + sep + (b + sep + c);
    SplitNCons(b, c, sep, 2);
    SplitNCons(a, b + sep + c, sep, 3);
  }

  lemma SpaceFreeIsPiece(l: string)
    requires !Contains(l, " ")
    ensures Piece(l, " ")
  {
    forall j: nat | j < |l| ensures !OccursAt(l + " ", " ", j) {
      assert (l + " ")[j..j + 1] == l[j..j + 1];
      assert !OccursAt(l, " ", j);
    }
    IndexOfUnique(l + " ", " ", |l|);
  }

  ghost predicate AreFree(ps: seq<string>, sep: string) {
    forall k :: 0 <= k < |ps| ==> !Contains(ps[k], sep)
  }

  /** All pieces but the last are free of the separator, and the last one too when there was room for more. */
  lemma {:induction false} SplitNPieces(s: string, sep: string, n: nat)
    requires sep != "" && n >= 1
    ensures var ps := SplitN(s, sep, n);
            AreFree(ps[..|ps| - 1], sep) && (|ps| < n ==> !Contains(ps[|ps| - 1], sep))
    decreases n
  {
    if n > 1 && Contains(s, sep) {
      var first, rest := SplitNStep(s, sep, n);
      SplitNPieces(rest, sep, n - 1);
      FreeCons(first, SplitN(rest, sep, n - 1), sep);
    }
  }

  lemma SplitNStep(s: string, sep: string, n: nat) returns (first: string, rest: string)
    requires sep != "" && n > 1 && Contains(s, sep)
    ensures SplitN(s, sep, n) == [first] + SplitN(rest, sep, n - 1) && !Contains(first, sep)
  {
    var i := IndexOf(s, sep);
    first, rest := s[..i], s[i + |sep|..];
    BeforeFirst(s, sep);
  }

  lemma FreeCons(first: string, tail: seq<string>, sep: string)
    requires !Contains(first, sep) && |tail| >= 1 && AreFree(tail[..|tail| - 1], sep)
    ensures var ps := [first] + tail; AreFree(ps[..|ps| - 1], sep) && ps[|ps| - 1] == tail[|tail| - 1]
  {
    var ps := [first] + tail;
    assert ps[..|ps| - 1] == [first] + tail[..|tail| - 1];
  }

  lemma ClampTargetKeepsFree(target: string, max: string, sep: string)
    requires IsVersion(max) && sep != "" && forall i :: 0 <= i < |sep| ==> !IsVersionChar(sep[i])
    requires !Contains(target, sep)
    ensures !Contains(ClampTarget(target, max), sep)
  {
    if TargetNeedsClamp(target, max) {
      var pre, v, post := ClampTargetShape(target, max);
      RunReplacementKeepsFree(pre + "/v", v, post, max, sep);
    }
  }

  /** Two or three space-free pieces, the third one free to hold spaces, are split as they were joined. */
  lemma SplitNAgain(parts: seq<string>)
    requires 2 <= |parts| <= 3 && !Contains(parts[0], " ") && !Contains(parts[1], " ")
    ensures SplitN(Join(parts, " "), " ", 3) == parts
  {
    SpaceFreeIsPiece(parts[0]);
    SpaceFreeIsPiece(parts[1]);
    if |parts| == 2 {
      assert parts == [parts[0], parts[1]];
      SplitNOfTwo(parts[0], parts[1], " ");
    } else {
      assert parts == [parts[0], parts[1], parts[2]];
      SplitNOfThree(parts[0], parts[1], parts[2], " ");
    }
  }

  lemma LinePiecesFree(line: string)
    ensures var parts := SplitN(line, " ", 3);
      |parts| >= 2 ==> !Contains(parts[0], " ") && !Contains(parts[1], " ")
  {
    var parts := SplitN(line, " ", 3);
    SplitNPieces(line, " ", 3);
    if |parts| >= 2 {
      assert parts[..|parts| - 1][0] == parts[0];
      assert |parts| == 3 ==> parts[..2][1] == parts[1];
    }
  }

  /** Clamping a request line twice is clamping it once. */
  lemma ClampLineIdempotent(line: string, max: string)
    requires IsVersion(max)
    ensures !LineNeedsClamp(ClampLine(line, max), max)
  {
    var parts := SplitN(line, " ", 3);
    LinePiecesFree(line);
    if |parts| >= 2 {
      ClampTargetIdempotent(parts[1], max);
      ClampTargetKeepsFree(parts[1], max, " ");
      SplitNAgain(parts[1 := ClampTarget(parts[1], max)]);
    }
  }

  /** Of a request line only the target, its second word, is touched. */
  lemma OnlyTheTargetIsClamped(verb: string, target: string, protocol: string, max: string)
    requires !Contains(verb, " ") && !Contains(target, " ")
    ensures ClampLine(Join([verb, target, protocol], " "), max) == Join([verb, ClampTarget(target, max), protocol], " ")
    ensures Join([verb, target, protocol], " ") == verb + " " + target + " " + protocol
  {
    var parts := [verb, target, protocol];
    SplitNAgain(parts);
    assert parts[1 := ClampTarget(target, max)] == [verb, ClampTarget(target, max), protocol];
    JoinOfTwoOrThree(parts, " ");
    assert verb + " " + target + (" " + protocol) == verb + " " + target + " " + protocol;
  }

  lemma ClampLineUnchanged(line: string, max: string)
    requires !LineNeedsClamp(line, max)
    ensures ClampLine(line, max) == line
  {
    var parts := SplitN(line, " ", 3);
    JoinSplitN(line, " ", 3);
    assert |parts| >= 2 ==> parts[1 := parts[1]] == parts;
  }

  lemma ClampLineIsLine(line: string, max: string)
    requires IsVersion(max) && IsLine(line)
    ensures IsLine(ClampLine(line, max))
  {
    if LineNeedsClamp(line, max) {
      var pre, v, post := ClampLineShape(line, max);
      RunReplacementKeepsFree(pre, v, post, max, CRLF);
    } else {
      ClampLineUnchanged(line, max);
    }
  }

  // ----- Forced Connection: close -----

  predicate IsConnection(line: string) { CONNECTION <= Lower(line) }

  function DropConnection(ls: seq<string>): (kept: seq<string>)
    ensures |kept| <= |ls|
    ensures forall i :: 0 <= i < |kept| ==> kept[i] in ls && !IsConnection(kept[i])
  {
    if ls == [] then []
    else KeptLine(ls[0]) + DropConnection(ls[1..])
  }

  function KeptLine(line: string): seq<string> { if IsConnection(line) then [] else [line] }

  /** Dropping keeps the order of what it keeps and drops nothing else. */
  lemma {:induction false} DropConnectionAppend(xs: seq<string>, ys: seq<string>)
    ensures DropConnection(xs + ys) == DropConnection(xs) + DropConnection(ys)
  {
    if xs == [] {
      assert xs + ys == ys;
    } else {
      var head := KeptLine(xs[0]);
      assert (xs + ys)[1..] == xs[1..] + ys;
      DropConnectionAppend(xs[1..], ys);
      assert head + (DropConnection(xs[1..]) + DropConnection(ys)) ==
          head + DropConnection(xs[1..]) + DropConnection(ys);
    }
  }

  lemma DropConnectionLast(ls: seq<string>, line: string)
    ensures DropConnection(ls + [line]) == DropConnection(ls) + KeptLine(line)
  {
    DropConnectionAppend(ls, [line]);
    assert [line][1..] == [];
    assert KeptLine(line) + [] == KeptLine(line);
  }

  lemma {:induction false} DropConnectionKeeps(ls: seq<string>)
    requires forall i :: 0 <= i < |ls| ==> !IsConnection(ls[i])
    ensures DropConnection(ls) == ls
  {
    if ls != [] {
      DropConnectionKeeps(ls[1..]);
    }
  }

  /** Lines closed once: Connection lines dropped, one put last. */
  function CloseLines(first: string, rest: seq<string>): (ls: seq<string>)
    ensures |ls| >= 2
  {
    [first] + DropConnection(rest) + [CLOSE_LINE]
  }

  function ForceClose(head: string): string {
    if head == "" then head
    else
      var ls := HeadLines(head);
      Render(CloseLines(ls[0], ls[1..]))
  }

  method ForceHTTPConnectionClose(head: string) returns (result: string)
    ensures result == ForceClose(head)
  {
    if |head| == 0 {
      return head;
    }
    var lines := Split(TrimSuffix(head, HEAD_END), CRLF);
    var out := KeepHeaders(lines);
    out := out + [CLOSE_LINE];
    return Join(out, CRLF) + HEAD_END;
  }

  method KeepHeaders(lines: seq<string>) returns (out: seq<string>)
    requires |lines| >= 1
    ensures out == [lines[0]] + DropConnection(lines[1..])
  {
    out := [];
    for i := 0 to |lines|
      invariant i == 0 ==> out == []
      invariant i > 0 ==> out == [lines[0]] + DropConnection(lines[1..i])
    {
      if i == 0 {
        out := out + [lines[i]];
        assert lines[1..1] == [];
      } else {
        assert lines[1..i + 1] == lines[1..i] + [lines[i]];
        DropConnectionLast(lines[1..i], lines[i]);
        if !IsConnection(lines[i]) {
          out := out + [lines[i]];
        }
      }
    }
    assert lines[1..|lines|] == lines[1..];
  }

  /** What one plain request's head becomes before it is written to the engine. */
  function Rewritten(head: string, max: string): string {
    ForceClose(Clamp(head, max))
  }

  /** The lines of a rewritten head. */
  function RewrittenLines(head: string, max: string): (ls: seq<string>)
    ensures |ls| >= 2
  {
    var ls := HeadLines(head);
    CloseLines(ClampLine(ls[0], max), ls[1..])
  }

  lemma CloseLineFacts()
    ensures IsConnection(CLOSE_LINE) && IsLine(CLOSE_LINE)
  {
    assert Lower(CLOSE_LINE)[..11] == CONNECTION;
    forall j: nat ensures !OccursAt(CLOSE_LINE, CRLF, j) {
      if j + 2 <= |CLOSE_LINE| { assert CLOSE_LINE[j..j + 2][0] == CLOSE_LINE[j]; }
    }
  }

  lemma ClampHeadLines(head: string, max: string)
    requires head != "" && IsVersion(max)
    ensures Clamp(head, max) != ""
    ensures HeadLines(Clamp(head, max)) == HeadLines(head)[0 := ClampLine(HeadLines(head)[0], max)]
    ensures AreLines(HeadLines(Clamp(head, max)))
  {
    var ls := HeadLines(head);
    LinesAreLines(TrimSuffix(head, HEAD_END));
    ClampLineIsLine(ls[0], max);
    if LineNeedsClamp(ls[0], max) {
      RenderRoundTrip(ls[0 := ClampLine(ls[0], max)]);
    } else {
      ClampLineUnchanged(ls[0], max);
    }
  }

  lemma ForceCloseHeadLines(head: string)
    requires head != ""
    ensures ForceClose(head) != ""
    ensures var ls := HeadLines(head);
            HeadLines(ForceClose(head)) == CloseLines(ls[0], ls[1..])
    ensures AreLines(HeadLines(ForceClose(head)))
  {
    var ls := HeadLines(head);
    LinesAreLines(TrimSuffix(head, HEAD_END));
    CloseLineFacts();
    RenderRoundTrip(CloseLines(ls[0], ls[1..]));
  }

  lemma CloseLinesFacts(first: string, rest: seq<string>)
    ensures var out := CloseLines(first, rest);
            && out[0] == first && out[|out| - 1] == CLOSE_LINE
            && DropConnection(out[1..]) == DropConnection(rest)
            && (forall i :: 1 <= i < |out| ==> (IsConnection(out[i]) <==> i == |out| - 1))
  {
    var kept := DropConnection(rest);
    var out := CloseLines(first, rest);
    assert out[1..] == kept + [CLOSE_LINE];
    CloseLineFacts();
    DropConnectionAppend(kept, [CLOSE_LINE]);
    DropConnectionKeeps(kept);
    assert [CLOSE_LINE][1..] == [];
    forall i | 1 <= i < |out| ensures IsConnection(out[i]) <==> i == |out| - 1 {
      assert i < |out| - 1 ==> out[i] == kept[i - 1];
    }
  }

  /**
    Only the version run of the request line and the Connection lines change: every other header
    line is kept, in order, and exactly one Connection line remains, the last.
   */
  lemma RewriteOnlyVersionAndConnection(head: string, max: string)
    requires head != "" && IsVersion(max)
    ensures Rewritten(head, max) == Render(RewrittenLines(head, max))
    ensures HeadLines(Rewritten(head, max)) == RewrittenLines(head, max)
    ensures AreLines(RewrittenLines(head, max))
    ensures var out, ls := RewrittenLines(head, max), HeadLines(head);
            && out[0] == ClampLine(ls[0], max)
            && DropConnection(out[1..]) == DropConnection(ls[1..])
            && (forall i :: 1 <= i < |out| ==> (IsConnection(out[i]) <==> i == |out| - 1))
            && out[|out| - 1] == CLOSE_LINE
  {
    var ls := HeadLines(head);
    ClampHeadLines(head, max);
    ForceCloseHeadLines(Clamp(head, max));
    CloseLinesFacts(ClampLine(ls[0], max), ls[1..]);
    assert ls[0 := ClampLine(ls[0], max)][1..] == ls[1..];
  }

  /** The two rewrites commute. */
  lemma RewritesCommute(head: string, max: string)
    requires IsVersion(max)
    ensures ForceClose(Clamp(head, max)) == Clamp(ForceClose(head), max)
  {
    if head != "" {
      var ls := HeadLines(head);
      RewriteOnlyVersionAndConnection(head, max);
      ForceCloseHeadLines(head);
      CloseLinesReplaceFirst(ls[0], ClampLine(ls[0], max), ls[1..]);
      if !LineNeedsClamp(ls[0], max) { ClampLineUnchanged(ls[0], max); }
    }
  }

  lemma CloseLinesReplaceFirst(first: string, other: string, rest: seq<string>)
    ensures CloseLines(first, rest)[0 := other] == CloseLines(other, rest)
  {
  }

  lemma ClampIdempotent(head: string, max: string)
    requires IsVersion(max)
    ensures Clamp(Clamp(head, max), max) == Clamp(head, max)
  {
    if head != "" {
      ClampHeadLines(head, max);
      ClampLineIdempotent(HeadLines(head)[0], max);
    }
  }

  lemma ForceCloseIdempotent(head: string)
    ensures ForceClose(ForceClose(head)) == ForceClose(head)
  {
    if head != "" {
      var ls := HeadLines(head);
      ForceCloseHeadLines(head);
      CloseLinesFacts(ls[0], ls[1..]);
    }
  }
}

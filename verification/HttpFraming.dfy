/**
  What the proxy reads from a request head: the Content-Length framing and the upgrade flag
  (backend/internal/runtime/docker_http_proxy.go), and that the two head rewrites change neither.
 */
module HttpFraming {
  import opened Text
  import opened HttpHead

  /** httpRequestContentLength's pair: `ok` is false for chunked or invalid lengths. */
  datatype Framing = Framing(length: int, ok: bool)

  predicate IsUpgrade(head: string) {
    Contains(Lower(head), CRLF + UPGRADE)
  }

  predicate IsLength(line: string) { CONTENT_LENGTH <= Lower(line) }

  /** Reading of one Content-Length line. */
  function LengthOfLine(line: string): Framing
    requires IsLength(line)
  {
    match ParseInt64(TrimSpace(line[|CONTENT_LENGTH|..]))
    case Num(n) => if n < 0 then Framing(0, false) else Framing(n, true)
    case _ => Framing(0, false)
  }

  /** The first Content-Length line decides; without one the length is 0. */
  function LengthOfLines(ls: seq<string>): Framing {
    if ls == [] then Framing(0, true)
    else if IsLength(ls[0]) then LengthOfLine(ls[0])
    else LengthOfLines(ls[1..])
  }

  function ContentLength(head: string): Framing {
    if Contains(Lower(head), CRLF + CHUNKED) then Framing(0, false) else LengthOfLines(Lines(head))
  }

  method HttpRequestContentLength(head: string) returns (length: int, ok: bool)
    ensures Framing(length, ok) == ContentLength(head)
  {
    var lower := Lower(head);
    if Contains(lower, CRLF + CHUNKED) {
      return 0, false;
    }
    var lines := Split(head, CRLF);
    for i := 0 to |lines|
      invariant LengthOfLines(lines[i..]) == LengthOfLines(lines)
    {
      var line := lines[i];
      assert lines[i..][1..] == lines[i + 1..];
      if !(CONTENT_LENGTH <= Lower(line)) {
        continue;
      }
      var value := TrimSpace(line[|CONTENT_LENGTH|..]);
      var parsed := ParseInt64(value);
      if !parsed.Num? || parsed.n < 0 {
        return 0, false;
      }
      return parsed.n, true;
    }
    return 0, true;
  }

  // ----- Searching the whole head is searching its header lines -----

  /** Some line starts with `name` in some letter case. */
  ghost predicate Starts(ls: seq<string>, name: string) {
    exists l :: l in ls && name <= Lower(l)
  }

  /** A header line, that is any line after the first, starts with `name`. */
  ghost predicate HasHeader(ls: seq<string>, name: string) {
    |ls| >= 1 && Starts(ls[1..], name)
  }

  ghost predicate NoBreaks(pat: string) {
    forall i :: 0 <= i < |pat| ==> pat[i] != '\r' && pat[i] != '\n'
  }

  lemma FirstLineIsPrefix(text: string, pat: string)
    requires NoBreaks(pat)
    ensures pat <= text <==> pat <= Lines(text)[0]
  {
    var i := IndexOf(text, CRLF);
    if i >= 0 {
      assert text[i..i + 2] == CRLF;
      assert text[i] == '\r' by { assert text[i] == text[i..i + 2][0]; }
      assert pat <= text && i < |text| ==> pat == text[..|pat|];
    }
  }

  ghost predicate LaterLine(ls: seq<string>, pat: string) {
    exists i :: 1 <= i < |ls| && pat <= ls[i]
  }

  lemma LaterLineCons(first: string, ls: seq<string>, pat: string)
    requires |ls| >= 1
    ensures LaterLine([first] + ls, pat) <==> pat <= ls[0] || LaterLine(ls, pat)
  {
    var all := [first] + ls;
    assert pat <= ls[0] ==> pat <= all[1];
    if i :| 1 <= i < |ls| && pat <= ls[i] { assert pat <= all[i + 1]; }
    if i :| 1 <= i < |all| && pat <= all[i] { assert pat <= ls[i - 1]; }
  }

  lemma {:induction false} SearchIsLineSearch(text: string, pat: string)
    requires NoBreaks(pat)
    ensures Contains(text, CRLF + pat) <==> LaterLine(Lines(text), pat)
    decreases |text|
  {
    var i := IndexOf(text, CRLF);
    if i < 0 {
      forall j: nat ensures !OccursAt(text, CRLF + pat, j) { OccursSplit(text, CRLF, pat, j); }
    } else {
      var t := text[i + 2..];
      SearchIsLineSearch(t, pat);
      FirstLineIsPrefix(t, pat);
      BreaksDoNotOverlap();
      SearchStep(text, CRLF, pat);
      LaterLineCons(text[..i], Lines(t), pat);
    }
  }

  /** Two places in a text where `sep` stands do not overlap. */
  ghost predicate NoOverlap(sep: string) {
    forall text: string, i: nat, j: nat :: i < j && OccursAt(text, sep, i) && OccursAt(text, sep, j) ==> i + |sep| <= j
  }

  lemma BreaksDoNotOverlap()
    ensures NoOverlap(CRLF)
  {
    forall text: string, i: nat, j: nat | i < j && OccursAt(text, CRLF, i) && OccursAt(text, CRLF, j)
        ensures i + 2 <= j {
      assert text[i..i + 2][1] == '\n' && text[j..j + 2][0] == '\r';
      assert text[i + 1] == '\n' && text[j] == '\r';
    }
  }

  /** The pattern occurs at the first separator or after it. */
  lemma SearchStep(text: string, sep: string, pat: string)
    requires Contains(text, sep) && NoOverlap(sep)
    ensures var t := text[IndexOf(text, sep) + |sep|..];
            Contains(text, sep + pat) <==> pat <= t || Contains(t, sep + pat)
  {
    if Contains(text, sep + pat) { SearchDown(text, sep, pat); }
    SearchUp(text, sep, pat);
  }

  lemma PrefixOccurs(t: string, pat: string)
    ensures pat <= t <==> OccursAt(t, pat, 0)
  {
    assert |pat| <= |t| ==> t[..|pat|] == t[0..0 + |pat|];
  }

  lemma SearchDown(text: string, sep: string, pat: string)
    requires Contains(text, sep) && NoOverlap(sep) && Contains(text, sep + pat)
    ensures var t := text[IndexOf(text, sep) + |sep|..]; pat <= t || Contains(t, sep + pat)
  {
    var i, j := IndexOf(text, sep), IndexOf(text, sep + pat);
    var from := i + |sep|;
    OccursSplit(text, sep, pat, j);
    PrefixOccurs(text[from..], pat);
    if j == i {
      OccursInSuffix(text, pat, from, 0);
    } else {
      assert j >= from;
      OccursInSuffix(text, sep + pat, from, j - from);
    }
  }

  lemma SearchUp(text: string, sep: string, pat: string)
    requires Contains(text, sep)
    ensures var t := text[IndexOf(text, sep) + |sep|..]; pat <= t || Contains(t, sep + pat) ==>
        Contains(text, sep + pat)
  {
    var i := IndexOf(text, sep);
    var from := i + |sep|;
    var t := text[from..];
    if pat <= t {
      PrefixOccurs(t, pat);
      OccursInSuffix(text, pat, from, 0);
      OccursSplit(text, sep, pat, i);
    } else if Contains(t, sep + pat) {
      OccursInSuffix(text, sep + pat, from, IndexOf(t, sep + pat));
    }
  }

  lemma LowerOccurs(text: string, j: nat)
    ensures OccursAt(Lower(text), CRLF, j) <==> OccursAt(text, CRLF, j)
  {
    if j + 2 <= |text| {
      assert text[j..j + 2] == [text[j], text[j + 1]];
      assert Lower(text)[j..j + 2] == [LowerChar(text[j]), LowerChar(text[j + 1])];
    }
  }

  lemma LowerIndex(text: string)
    ensures IndexOf(Lower(text), CRLF) == IndexOf(text, CRLF)
  {
    forall j: nat ensures OccursAt(Lower(text), CRLF, j) <==> OccursAt(text, CRLF, j) { LowerOccurs(text, j); }
    if Contains(text, CRLF) { IndexOfUnique(Lower(text), CRLF, IndexOf(text, CRLF)); }
  }

  ghost predicate AreLowered(low: seq<string>, ls: seq<string>) {
    |low| == |ls| && forall i :: 0 <= i < |ls| ==> low[i] == Lower(ls[i])
  }

  lemma AreLoweredCons(line: string, low: seq<string>, ls: seq<string>)
    requires AreLowered(low, ls)
    ensures AreLowered([Lower(line)] + low, [line] + ls)
  {
  }

  lemma {:induction false} LowerLines(text: string)
    ensures AreLowered(Lines(Lower(text)), Lines(text))
    decreases |text|
  {
    LowerIndex(text);
    var i := IndexOf(text, CRLF);
    if i >= 0 {
      LowerSlices(text, i, i + 2);
      LowerLines(text[i + 2..]);
      AreLoweredCons(text[..i], Lines(Lower(text[i + 2..])), Lines(text[i + 2..]));
    }
  }

  lemma LowerSlices(text: string, i: nat, j: nat)
    requires i <= |text| && j <= |text|
    ensures Lower(text)[..i] == Lower(text[..i]) && Lower(text)[j..] == Lower(text[j..])
  {
  }

  /** The proxy's whole-head search for a lower-case header is a search over its header lines. */
  lemma HeaderSearch(head: string, name: string)
    requires NoBreaks(name)
    ensures Contains(Lower(head), CRLF + name) <==> HasHeader(Lines(head), name)
  {
    SearchIsLineSearch(Lower(head), name);
    LowerLines(head);
    var ls, low := Lines(head), Lines(Lower(head));
    if HasHeader(ls, name) {
      var i :| 0 <= i < |ls[1..]| && name <= Lower(ls[1..][i]);
      assert name <= low[i + 1];
    }
    if LaterLine(low, name) {
      var i :| 1 <= i < |low| && name <= low[i];
      assert ls[i] in ls[1..];
    }
  }

  // ----- The rewrites preserve framing and upgrade detection -----

  /** A name no Connection line starts with. */
  ghost predicate NotConnectionName(name: string) {
    exists k :: 0 <= k < |name| && k < |CONNECTION| && name[k] != CONNECTION[k]
  }

  lemma NotBoth(line: string, name: string)
    requires NotConnectionName(name) && IsConnection(line)
    ensures !(name <= Lower(line))
  {
    var k :| 0 <= k < |name| && k < |CONNECTION| && name[k] != CONNECTION[k];
    assert Lower(line)[k] == CONNECTION[k];
  }

  lemma {:induction false} DropConnectionMembers(ls: seq<string>, line: string)
    ensures line in DropConnection(ls) <==> line in ls && !IsConnection(line)
  {
    if ls != [] {
      assert ls == [ls[0]] + ls[1..];
      DropConnectionMembers(ls[1..], line);
    }
  }

  lemma HeaderSurvivesClose(rest: seq<string>, name: string)
    requires NotConnectionName(name) && name != ""
    ensures Starts(DropConnection(rest) + [CLOSE_LINE] + ["", ""], name) <==> Starts(rest, name)
    ensures Starts(rest + ["", ""], name) <==> Starts(rest, name)
  {
    CloseLineFacts();
    NotBoth(CLOSE_LINE, name);
    var kept := DropConnection(rest);
    if l :| l in rest && name <= Lower(l) {
      if IsConnection(l) { NotBoth(l, name); }
      DropConnectionMembers(rest, l);
      assert l in kept + [CLOSE_LINE] + ["", ""];
      assert l in rest + ["", ""];
    }
    if l :| l in kept + [CLOSE_LINE] + ["", ""] && name <= Lower(l) {
      assert l in kept;
      DropConnectionMembers(rest, l);
    }
    if l :| l in rest + ["", ""] && name <= Lower(l) {
      assert l in rest;
    }
  }

  /** A head and its rewriting, line by line. */
  ghost predicate RewriteView(head: string, out: string, max: string, first: string, rest: seq<string>,
      extra: seq<string>) {
    && (extra == [] || extra == ["", ""])
    && Lines(head) == [first] + rest + extra
    && Lines(out) == CloseLines(ClampLine(first, max), rest) + ["", ""]
  }

  lemma ViewRewrite(head: string, max: string) returns (first: string, rest: seq<string>, extra: seq<string>)
    requires head != "" && IsVersion(max)
    ensures RewriteView(head, Rewritten(head, max), max, first, rest, extra)
  {
    var ls := HeadLines(head);
    extra := LinesOfHead(head);
    RewriteOnlyVersionAndConnection(head, max);
    LinesOfRender(RewrittenLines(head, max));
    first, rest := ls[0], ls[1..];
    assert [first] + rest == ls;
  }

  lemma HeaderSurvivesRewrite(head: string, out: string, max: string, first: string, rest: seq<string>,
      extra: seq<string>, name: string)
    requires RewriteView(head, out, max, first, rest, extra)
    requires NoBreaks(name) && NotConnectionName(name) && name != ""
    ensures Contains(Lower(out), CRLF + name) <==> Contains(Lower(head), CRLF + name)
  {
    HeaderSearch(head, name);
    HeaderSearch(out, name);
    SameHeaders(first, ClampLine(first, max), rest, extra, name);
  }

  lemma SameHeaders(first: string, other: string, rest: seq<string>, extra: seq<string>, name: string)
    requires NotConnectionName(name) && name != ""
    requires extra == [] || extra == ["", ""]
    ensures HasHeader(CloseLines(other, rest) + ["", ""], name) <==> HasHeader([first] + rest + extra, name)
  {
    HeaderSurvivesClose(rest, name);
    assert rest + [] == rest;
    HeadersAfterFirst([first], rest, extra, name);
    HeadersAfterFirst([other], DropConnection(rest) + [CLOSE_LINE], ["", ""], name);
    assert CloseLines(other, rest) == [other] + (DropConnection(rest) + [CLOSE_LINE]);
  }

  lemma HeadersAfterFirst(first: seq<string>, rest: seq<string>, extra: seq<string>, name: string)
    requires |first| == 1
    ensures HasHeader(first + rest + extra, name) <==> Starts(rest + extra, name)
  {
    assert (first + rest + extra)[1..] == rest + extra;
  }

  lemma {:induction false} LengthOfAppend(xs: seq<string>, ys: seq<string>)
    requires forall i :: 0 <= i < |ys| ==> !IsLength(ys[i])
    ensures LengthOfLines(xs + ys) == LengthOfLines(xs)
  {
    if xs == [] {
      assert xs + ys == ys;
      LengthOfNone(ys);
    } else {
      assert (xs + ys)[1..] == xs[1..] + ys;
      LengthOfAppend(xs[1..], ys);
    }
  }

  lemma {:induction false} LengthOfNone(ys: seq<string>)
    requires forall i :: 0 <= i < |ys| ==> !IsLength(ys[i])
    ensures LengthOfLines(ys) == Framing(0, true)
  {
    if ys != [] { LengthOfNone(ys[1..]); }
  }

  lemma {:induction false} LengthOfDropConnection(ls: seq<string>)
    ensures LengthOfLines(DropConnection(ls)) == LengthOfLines(ls)
  {
    if ls != [] {
      LengthOfDropConnection(ls[1..]);
      if IsConnection(ls[0]) {
        LengthIsNotConnection();
        NotBoth(ls[0], CONTENT_LENGTH);
        assert [] + DropConnection(ls[1..]) == DropConnection(ls[1..]);
      } else {
        assert ([ls[0]] + DropConnection(ls[1..]))[1..] == DropConnection(ls[1..]);
      }
    }
  }

  lemma LengthIsNotConnection()
    ensures NotConnectionName(CONTENT_LENGTH) && NotConnectionName(CHUNKED) && NotConnectionName(UPGRADE)
    ensures NoBreaks(CHUNKED) && NoBreaks(UPGRADE) && CHUNKED != "" && UPGRADE != ""
  {
    assert CONTENT_LENGTH[3] == 't' && CONNECTION[3] == 'n';
    assert CHUNKED[0] == 't' && UPGRADE[0] == 'u' && CONNECTION[0] == 'c';
  }

  lemma NotANumber(s: string)
    requires 'v' in s
    ensures !ParseInt64(s).Num?
  {
    if s[0] == '+' || s[0] == '-' {
      assert s == [s[0]] + s[1..];
      NotAUint(s[1..], 0);
    } else {
      NotAUint(s, 0);
    }
  }

  lemma {:induction false} NotAUint(s: string, acc: nat)
    requires 'v' in s
    ensures !ParseUint(s, acc).Num?
    decreases |s|
  {
    if IsDigit(s[0]) {
      assert s == [s[0]] + s[1..];
      NotAUint(s[1..], acc * 10 + Digit(s[0]));
    }
  }

  /** A request line the clamp changes that looks like a length header has no readable length, before or after. */
  lemma LengthLookingRequestLine(pre: string, text: string)
    requires ' ' in pre && |pre| >= 2 && pre[|pre| - 2..] == "/v"
    requires IsLength(pre + text)
    ensures LengthOfLine(pre + text) == Framing(0, false)
  {
    var n := |CONTENT_LENGTH|;
    var line := pre + text;
    var k :| 0 <= k < |pre| && pre[k] == ' ';
    assert forall i :: 0 <= i < n ==> Lower(line)[i] == CONTENT_LENGTH[i];
    assert k >= n by {
      assert Lower(line)[k] == ' ';
      assert forall i :: 0 <= i < n ==> CONTENT_LENGTH[i] != ' ';
    }
    assert pre[|pre| - 2..][1] == 'v';
    assert line[n..][|pre| - 1 - n] == 'v';
    TrimSpaceKeeps(line[n..], 'v');
    NotANumber(TrimSpace(line[n..]));
  }

  lemma ClampKeepsFirstLength(line: string, max: string, rest: seq<string>)
    requires IsVersion(max)
    ensures LengthOfLines([ClampLine(line, max)] + rest) == LengthOfLines([line] + rest)
  {
    if LineNeedsClamp(line, max) {
      var pre, v, post := ClampLineShape(line, max);
      SameLengthAfterRun(pre, v, max, post, rest);
    } else {
      ClampLineUnchanged(line, max);
    }
  }

  lemma SameLengthAfterRun(pre: string, v: string, max: string, post: string, rest: seq<string>)
    requires ' ' in pre && |pre| >= 2 && pre[|pre| - 2..] == "/v"
    ensures LengthOfLines([pre + max + post] + rest) == LengthOfLines([pre + v + post] + rest)
  {
    SameLengthAfterVersion(pre, v + post, max + post, rest);
    assert pre + (v + post) == pre + v + post && pre + (max + post) == pre + max + post;
  }

  lemma SameLengthAfterVersion(pre: string, a: string, b: string, rest: seq<string>)
    requires ' ' in pre && |pre| >= 2 && pre[|pre| - 2..] == "/v"
    ensures LengthOfLines([pre + a] + rest) == LengthOfLines([pre + b] + rest)
  {
    if IsLength(pre + a) { LengthLookingRequestLine(pre, a); }
    if IsLength(pre + b) { LengthLookingRequestLine(pre, b); }
    SameNameBeforeSpace(pre, a, b);
    assert ([pre + a] + rest)[1..] == rest;
    assert ([pre + b] + rest)[1..] == rest;
  }

  /** A header name has no space, so a prefix with a space decides whether the line carries it. */
  lemma SameNameBeforeSpace(pre: string, a: string, b: string)
    requires ' ' in pre
    ensures IsLength(pre + a) <==> IsLength(pre + b)
  {
    var n := |CONTENT_LENGTH|;
    var k :| 0 <= k < |pre| && pre[k] == ' ';
    LowerAppend(pre, a);
    LowerAppend(pre, b);
    if k < n {
      assert Lower(pre + a)[k] == ' ' && Lower(pre + b)[k] == ' ';
      assert CONTENT_LENGTH[k] != ' ';
    } else {
      assert Lower(pre + a)[..n] == Lower(pre)[..n] == Lower(pre + b)[..n];
    }
  }

  lemma CloseLineHasNoLength()
    ensures !IsLength(CLOSE_LINE) && !IsLength("")
  {
    CloseLineFacts();
    LengthIsNotConnection();
    NotBoth(CLOSE_LINE, CONTENT_LENGTH);
  }

  lemma LengthSurvivesClose(first: string, rest: seq<string>)
    ensures LengthOfLines(CloseLines(first, rest) + ["", ""]) == LengthOfLines([first] + rest)
  {
    var kept := DropConnection(rest);
    CloseLineHasNoLength();
    var tail := [CLOSE_LINE] + ["", ""];
    assert CloseLines(first, rest) + ["", ""] == [first] + kept + tail;
    LengthOfAppend([first] + kept, tail);
    LengthOfDropConnection(rest);
    assert ([first] + kept)[1..] == kept;
    assert ([first] + rest)[1..] == rest;
  }

  lemma LengthSurvivesRewrite(head: string, out: string, max: string, first: string, rest: seq<string>,
      extra: seq<string>)
    requires IsVersion(max) && RewriteView(head, out, max, first, rest, extra)
    ensures LengthOfLines(Lines(out)) == LengthOfLines(Lines(head))
  {
    CloseLineHasNoLength();
    LengthOfAppend([first] + rest, extra);
    LengthSurvivesClose(ClampLine(first, max), rest);
    ClampKeepsFirstLength(first, max, rest);
  }

  lemma UpgradeSurvives(head: string, out: string, max: string, first: string, rest: seq<string>, extra: seq<string>)
    requires RewriteView(head, out, max, first, rest, extra)
    ensures IsUpgrade(out) == IsUpgrade(head)
  {
    LengthIsNotConnection();
    HeaderSurvivesRewrite(head, out, max, first, rest, extra, UPGRADE);
  }

  lemma FramingSurvives(head: string, out: string, max: string, first: string, rest: seq<string>, extra: seq<string>)
    requires IsVersion(max) && RewriteView(head, out, max, first, rest, extra)
    ensures ContentLength(out) == ContentLength(head)
  {
    LengthIsNotConnection();
    HeaderSurvivesRewrite(head, out, max, first, rest, extra, CHUNKED);
    LengthSurvivesRewrite(head, out, max, first, rest, extra);
  }

  /** For every head, the rewritten head is framed and classified as the client's own. */
  lemma RewritePreservesFraming(head: string, max: string)
    requires IsVersion(max)
    ensures ContentLength(Rewritten(head, max)) == ContentLength(head)
    ensures IsUpgrade(Rewritten(head, max)) == IsUpgrade(head)
  {
    if head != "" {
      var first, rest, extra := ViewRewrite(head, max);
      FramingSurvives(head, Rewritten(head, max), max, first, rest, extra);
      UpgradeSurvives(head, Rewritten(head, max), max, first, rest, extra);
    }
  }

  // ----- Headers as clients spell them -----

  const LENGTH_FIELD := "Content-Length: "
  const UPGRADE_FIELD := "Upgrade: "
  const CHUNKED_FIELD := "Transfer-Encoding: chunked"
  const CONNECTION_FIELD := "Connection: "

  /** The usual spellings are recognized, each as itself and as nothing else. */
  lemma FieldsAreRecognized(x: string)
    ensures IsLength(LENGTH_FIELD + x) && !IsConnection(LENGTH_FIELD + x)
    ensures !(UPGRADE <= Lower(LENGTH_FIELD + x)) && !(CHUNKED <= Lower(LENGTH_FIELD + x))
    ensures UPGRADE <= Lower(UPGRADE_FIELD + x) && CHUNKED <= Lower(CHUNKED_FIELD + x)
    ensures IsConnection(CONNECTION_FIELD + x)
  {
    LowerAppend(LENGTH_FIELD, x);
    LowerAppend(UPGRADE_FIELD, x);
    LowerAppend(CHUNKED_FIELD, x);
    LowerAppend(CONNECTION_FIELD, x);
    assert Lower(LENGTH_FIELD) == CONTENT_LENGTH + " ";
    assert Lower(UPGRADE_FIELD) == UPGRADE + " ";
    assert Lower(CHUNKED_FIELD) == CHUNKED;
    assert Lower(CONNECTION_FIELD) == CONNECTION + " ";
    LengthIsNotConnection();
    if IsConnection(LENGTH_FIELD + x) { NotBoth(LENGTH_FIELD + x, CONTENT_LENGTH); }
    FirstLetters(LENGTH_FIELD + x);
  }

  lemma FirstLetters(line: string)
    requires line != "" && line[0] == 'C'
    ensures !(UPGRADE <= Lower(line)) && !(CHUNKED <= Lower(line))
  {
    assert Lower(line)[0] == 'c';
    assert UPGRADE[0] == 'u' && CHUNKED[0] == 't';
  }

  // ----- Content-Length is read back as it is written -----

  /** No chunked header, and the first length header is `<name>: <pad><n>` in any letter case. */
  lemma ContentLengthReadsBack(before: seq<string>, name: string, pad: string, n: nat, after: seq<string>)
    requires |before| >= 1 && AreLines(before + [name + pad + Decimal(n)] + after)
    requires forall i :: 0 <= i < |before| ==> !IsLength(before[i])
    requires Lower(name) == CONTENT_LENGTH && n < TWO_63
    requires forall i :: 0 <= i < |pad| ==> IsSpace(pad[i])
    requires !HasHeader(before + [name + pad + Decimal(n)] + after, CHUNKED)
    ensures ContentLength(Render(before + [name + pad + Decimal(n)] + after)) == Framing(n, true)
  {
    var line := name + pad + Decimal(n);
    var ls := before + [line] + after;
    LinesOfRender(ls);
    NotChunked(Render(ls), ls);
    var tail := [line] + (after + ["", ""]);
    assert ls + ["", ""] == before + tail;
    LengthAfter(before, tail);
    LengthLineReadsBack(name, pad, n);
  }

  lemma NotChunked(head: string, ls: seq<string>)
    requires |ls| >= 1 && Lines(head) == ls + ["", ""] && !HasHeader(ls, CHUNKED)
    ensures !Contains(Lower(head), CRLF + CHUNKED)
  {
    HeaderSearch(head, CHUNKED);
    assert (ls + ["", ""])[1..] == ls[1..] + ["", ""];
    LengthIsNotConnection();
    HeaderSurvivesClose(ls[1..], CHUNKED);
  }

  lemma LengthLineReadsBack(name: string, pad: string, n: nat)
    requires Lower(name) == CONTENT_LENGTH && n < TWO_63
    requires forall i :: 0 <= i < |pad| ==> IsSpace(pad[i])
    ensures IsLength(name + pad + Decimal(n))
    ensures LengthOfLine(name + pad + Decimal(n)) == Framing(n, true)
  {
    var line := name + pad + Decimal(n);
    assert line == name + (pad + Decimal(n));
    LowerAppend(name, pad + Decimal(n));
    assert Lower(line)[..|CONTENT_LENGTH|] == CONTENT_LENGTH;
    assert line[|CONTENT_LENGTH|..] == pad + Decimal(n);
    TrimSpaceOfPadded(pad, n);
    ParseInt64Decimal(n);
  }

  lemma {:induction false} LengthAfter(xs: seq<string>, ys: seq<string>)
    requires forall i :: 0 <= i < |xs| ==> !IsLength(xs[i])
    ensures LengthOfLines(xs + ys) == LengthOfLines(ys)
  {
    if xs == [] {
      assert xs + ys == ys;
    } else {
      assert (xs + ys)[1..] == xs[1..] + ys;
      LengthAfter(xs[1..], ys);
    }
  }
}

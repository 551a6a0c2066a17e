/**
  One Docker API connection: reading the request head from a stream delivered in pieces, rewriting
  it, and forwarding the body to the engine (backend/internal/runtime/docker_http_proxy.go).
 */
module HttpProxy {
  import opened Text
  import opened HttpHead
  import opened HttpFraming

  const MAX_HEADER := 0x10_0000
  const READ_SIZE := 2048

  datatype ReadErr = NoErr | Eof | Broken

  /** One call of Read: the bytes delivered and the error, possibly both. */
  datatype Read = Read(data: string, err: ReadErr)

  /** All reads of a connection: no error before the last read, which carries one. */
  ghost predicate IsStream(stream: seq<Read>) {
    && |stream| >= 1
    && stream[|stream| - 1].err != NoErr
    && (forall i :: 0 <= i < |stream| - 1 ==> stream[i].err == NoErr)
    && (forall i :: 0 <= i < |stream| ==> |stream[i].data| <= READ_SIZE)
  }

  /** The bytes the reads deliver. */
  function Content(stream: seq<Read>): string {
    if stream == [] then "" else stream[0].data + Content(stream[1..])
  }

  datatype HeadResult =
    | Head(head: string, rest: string, upgrade: bool, pending: seq<Read>)
    | TooLong
    | Failed(err: ReadErr)

  /** ReadDockerAPIRequestHead with `buf` already read. */
  function ReadHead(buf: string, stream: seq<Read>): HeadResult
    requires IsStream(stream)
    decreases |stream|
  {
    if |buf| > MAX_HEADER then TooLong
    else
      var r := stream[0];
      var b := buf + r.data;
      var idx := IndexOf(b, HEAD_END);
      if r.data != "" && idx >= 0 then Head(b[..idx + 4], b[idx + 4..], IsUpgrade(b[..idx + 4]), stream[1..])
      else if r.err != NoErr then
        if b == "" then Failed(r.err)
        else if r.err == Eof then Head(b, "", IsUpgrade(b), stream[1..])
        else Failed(r.err)
      else ReadHead(b, stream[1..])
  }

  method ReadDockerAPIRequestHead(stream: seq<Read>) returns (res: HeadResult)
    requires IsStream(stream)
    ensures res == ReadHead("", stream)
  {
    var buf := "";
    var next := 0;
    while true
      invariant 0 <= next < |stream| && IsStream(stream[next..])
      invariant ReadHead(buf, stream[next..]) == ReadHead("", stream)
      decreases |stream| - next
    {
      if |buf| > MAX_HEADER {
        return TooLong;
      }
      var r := stream[next];
      assert stream[next..][1..] == stream[next + 1..];
      next := next + 1;
      if |r.data| > 0 {
        buf := buf + r.data;
        var idx := IndexOf(buf, HEAD_END);
        if idx >= 0 {
          return Head(buf[..idx + 4], buf[idx + 4..], IsUpgrade(buf[..idx + 4]), stream[next..]);
        }
      }
      if r.err != NoErr {
        assert r.data == "" ==> buf + r.data == buf;
        if |buf| == 0 {
          return Failed(r.err);
        }
        if r.err == Eof {
          return Head(buf, "", IsUpgrade(buf), stream[next..]);
        }
        return Failed(r.err);
      }
      assert r.data == "" ==> buf + r.data == buf;
    }
  }

  /** The first `n` bytes, or all when there are fewer: what io.CopyN delivers before it stops. */
  function Take(n: int, s: string): (r: string)
    ensures |r| == if n <= 0 then 0 else if n <= |s| then n else |s|
    ensures r <= s
  {
    if n <= 0 then "" else if n <= |s| then s[..n] else s
  }

  /** Body bytes forwarded after a plain head. */
  function ForwardedBody(head: string, rest: string, pending: seq<Read>): string {
    var f := ContentLength(head);
    if !f.ok then rest else Take(f.length, rest + Content(pending))
  }

  method ForwardDockerAPIRequestBody(rest: string, pending: seq<Read>, head: string) returns (sent: string)
    ensures sent == ForwardedBody(head, rest, pending)
  {
    var length, ok := HttpRequestContentLength(head);
    if !ok {
      return rest;
    }
    if length <= 0 {
      return "";
    }
    // io.CopyN over the buffered rest followed by the connection
    sent := Take(length, rest);
    assert rest + "" == rest;
    var next := 0;
    while |sent| < length && next < |pending|
      invariant next <= |pending|
      invariant sent == Take(length, rest + Content(pending[..next]))
    {
      CopyStep(length, rest, pending, next);
      sent := sent + Take(length - |sent|, pending[next].data);
      next := next + 1;
    }
    CopyDone(length, rest, pending, next);
  }

  lemma CopyStep(n: int, rest: string, pending: seq<Read>, next: nat)
    requires next < |pending| && |Take(n, rest + Content(pending[..next]))| < n
    ensures var sent := Take(n, rest + Content(pending[..next]));
            Take(n, rest + Content(pending[..next + 1])) == sent + Take(n - |sent|, pending[next].data)
  {
    var data := pending[next].data;
    var seen := rest + Content(pending[..next]);
    assert pending[..next + 1] == pending[..next] + [pending[next]];
    ContentAppend(pending[..next], [pending[next]]);
    assert Content([pending[next]]) == data + "" == data;
    assert rest + (Content(pending[..next]) + data) == seen + data;
    assert |seen| + |data| >= n ==> (seen + data)[..n] == seen + data[..n - |seen|];
  }

  lemma CopyDone(n: int, rest: string, pending: seq<Read>, next: nat)
    requires next <= |pending|
    requires next == |pending| || |Take(n, rest + Content(pending[..next]))| >= n
    ensures Take(n, rest + Content(pending)) == Take(n, rest + Content(pending[..next]))
  {
    var seen, unread := rest + Content(pending[..next]), Content(pending[next..]);
    assert pending == pending[..next] + pending[next..];
    ContentAppend(pending[..next], pending[next..]);
    assert rest + (Content(pending[..next]) + unread) == seen + unread;
    if next == |pending| {
      assert seen + unread == seen;
    } else if n > 0 {
      assert (seen + unread)[..n] == seen[..n];
    }
  }

  /** Everything the engine receives over one connection, client to engine. */
  function EngineBytes(stream: seq<Read>, max: string): string
    requires IsStream(stream)
  {
    match ReadHead("", stream)
    case TooLong => ""
    case Failed(_) => ""
    case Head(head, rest, upgrade, pending) =>
      if upgrade then head + rest + Content(pending)
      else Rewritten(head, max) + ForwardedBody(Rewritten(head, max), rest, pending)
  }

  method ProxyDockerAPI(stream: seq<Read>, max: string) returns (engine: string)
    requires IsStream(stream)
    ensures engine == EngineBytes(stream, max)
  {
    var res := ReadDockerAPIRequestHead(stream);
    match res {
      case TooLong => engine := "";
      case Failed(_) => engine := "";
      case Head(head, rest, upgrade, pending) =>
        if upgrade {
          engine := head + rest + Content(pending);
        } else {
          var clamped := ClampDockerAPIVersion(head, max);
          var closed := ForceHTTPConnectionClose(clamped);
          var body := ForwardDockerAPIRequestBody(rest, pending, closed);
          engine := closed + body;
        }
    }
  }

  // ----- What a request means, with no reference to how it was delivered -----

  lemma {:induction false} ContentAppend(a: seq<Read>, b: seq<Read>)
    ensures Content(a + b) == Content(a) + Content(b)
  {
    if a == [] {
      assert a + b == b;
    } else {
      assert (a + b)[1..] == a[1..] + b;
      ContentAppend(a[1..], b);
    }
  }

  /** The request head of a byte stream. */
  function HeadOf(all: string): string
    requires Contains(all, HEAD_END)
  {
    all[..IndexOf(all, HEAD_END) + 4]
  }

  /** What the engine should see of a byte stream with a complete head. */
  function EngineView(all: string, max: string): string
    requires Contains(all, HEAD_END)
  {
    var head := HeadOf(all);
    if IsUpgrade(head) then all
    else Rewritten(head, max) + Take(ContentLength(head).length, all[|head|..])
  }

  /** An occurrence in a prefix of a text is the first one in the whole text. */
  lemma FirstInPrefix(b: string, more: string, pat: string)
    requires Contains(b, pat)
    ensures IndexOf(b + more, pat) == IndexOf(b, pat)
  {
    var i := IndexOf(b, pat);
    assert (b + more)[i..i + |pat|] == b[i..i + |pat|];
    forall j: nat | j < i ensures !OccursAt(b + more, pat, j) {
      assert !OccursAt(b, pat, j);
      assert (b + more)[j..j + |pat|] == b[j..j + |pat|];
    }
    IndexOfUnique(b + more, pat, i);
  }

  /** With the terminator still ahead, what is buffered stops short of it. */
  lemma BufferIsShort(buf: string, more: string)
    requires !Contains(buf, HEAD_END) && Contains(buf + more, HEAD_END)
    ensures |buf| < IndexOf(buf + more, HEAD_END) + 4
  {
    forall j: nat | j + 4 <= |buf| ensures OccursAt(buf + more, HEAD_END, j) == OccursAt(buf, HEAD_END, j) {
      assert (buf + more)[j..j + 4] == buf[j..j + 4];
    }
  }

  lemma HeadInPrefix(b: string, more: string)
    requires Contains(b, HEAD_END)
    ensures Contains(b + more, HEAD_END) && HeadOf(b + more) == HeadOf(b)
    ensures (b + more)[|HeadOf(b)|..] == b[|HeadOf(b)|..] + more
  {
    FirstInPrefix(b, more, HEAD_END);
  }

  /**
    However the bytes are cut into reads, a head that ends within MAX_HEADER + 1 bytes is read
    whole, and what was read beyond it together with what is still pending is the rest of the stream.
   */
  lemma {:induction false} HeadIndependentOfReads(buf: string, stream: seq<Read>)
    requires IsStream(stream)
    requires !Contains(buf, HEAD_END)
    requires Contains(buf + Content(stream), HEAD_END)
    requires IndexOf(buf + Content(stream), HEAD_END) + 4 <= MAX_HEADER + 1
    ensures var all := buf + Content(stream);
            var r := ReadHead(buf, stream);
            && r.Head? && r.head == HeadOf(all) && r.upgrade == IsUpgrade(r.head)
            && r.rest + Content(r.pending) == all[|r.head|..]
    decreases |stream|
  {
    var all := buf + Content(stream);
    BufferIsShort(buf, Content(stream));
    var r := stream[0];
    var b := buf + r.data;
    assert all == b + Content(stream[1..]);
    assert |stream| == 1 ==> all == b;
    if Contains(b, HEAD_END) {
      HeadInPrefix(b, Content(stream[1..]));
      assert r.data != "" by { assert r.data == "" ==> b == buf; }
    } else {
      HeadIndependentOfReads(b, stream[1..]);
    }
  }

  lemma EmptyHasNoHead()
    ensures !Contains("", HEAD_END)
  {
  }

  lemma HeadOfStream(stream: seq<Read>) returns (rest: string, pending: seq<Read>)
    requires IsStream(stream) && Contains(Content(stream), HEAD_END)
    requires |HeadOf(Content(stream))| <= MAX_HEADER + 1
    ensures var head := HeadOf(Content(stream));
            && ReadHead("", stream) == Head(head, rest, IsUpgrade(head), pending)
            && rest + Content(pending) == Content(stream)[|head|..]
  {
    assert "" + Content(stream) == Content(stream);
    EmptyHasNoHead();
    HeadIndependentOfReads("", stream);
    var r := ReadHead("", stream);
    rest, pending := r.rest, r.pending;
  }

  /**
    Chunking independence: for every request whose length is readable (or that upgrades), with its
    head within the limit, the engine receives the rewritten head and exactly Content-Length body
    bytes, whatever the reads.
   */
  lemma EngineBytesIndependentOfReads(stream: seq<Read>, max: string)
    requires IsStream(stream) && IsVersion(max) && Contains(Content(stream), HEAD_END)
    requires |HeadOf(Content(stream))| <= MAX_HEADER + 1
    requires IsUpgrade(HeadOf(Content(stream))) || ContentLength(HeadOf(Content(stream))).ok
    ensures EngineBytes(stream, max) == EngineView(Content(stream), max)
  {
    var all := Content(stream);
    var head := HeadOf(all);
    var rest, pending := HeadOfStream(stream);
    if IsUpgrade(head) {
      Rejoin(all, head, rest, Content(pending));
    } else {
      BodyByClientLength(head, rest, pending, max);
    }
  }

  lemma Rejoin(all: string, head: string, rest: string, tail: string)
    requires head <= all && rest + tail == all[|head|..]
    ensures head + rest + tail == all
  {
    assert head + rest + tail == head + (rest + tail);
  }

  /** The length read from the rewritten head is the client's. */
  lemma BodyByClientLength(head: string, rest: string, pending: seq<Read>, max: string)
    requires IsVersion(max) && ContentLength(head).ok
    ensures ForwardedBody(Rewritten(head, max), rest, pending) ==
        Take(ContentLength(head).length, rest + Content(pending))
  {
    RewritePreservesFraming(head, max);
  }

  /** What a stream ends with. */
  function LastError(stream: seq<Read>): ReadErr
    requires IsStream(stream)
  {
    stream[|stream| - 1].err
  }

  /**
    A stream without a terminator within the limit: at its orderly end what was read counts as the
    head, and without anything read, or when the connection breaks, the error is returned.
   */
  lemma {:induction false} UnterminatedHead(buf: string, stream: seq<Read>)
    requires IsStream(stream) && !Contains(buf + Content(stream), HEAD_END) && |buf + Content(stream)| <= MAX_HEADER
    ensures var all, r := buf + Content(stream), ReadHead(buf, stream);
      if all != "" && LastError(stream) == Eof then r == Head(all, "", IsUpgrade(all), [])
      else r == Failed(LastError(stream))
    decreases |stream|
  {
    var b := buf + stream[0].data;
    assert buf + Content(stream) == b + Content(stream[1..]);
    if Contains(b, HEAD_END) { FirstInPrefix(b, Content(stream[1..]), HEAD_END); }
    if |stream| == 1 {
      assert stream[1..] == [];
      assert b + "" == b;
    } else {
      UnterminatedHead(b, stream[1..]);
    }
  }

  /** A head as the reader cuts it: it ends at its first terminator. */
  predicate IsHead(head: string) {
    |head| >= 4 && IndexOf(head, HEAD_END) == |head| - 4
  }

  /**
    With the body fully sent, the engine receives the rewritten head and exactly the body, whatever
    follows it and whatever the reads.
   */
  lemma ExactBody(stream: seq<Read>, head: string, body: string, more: string, max: string)
    requires IsStream(stream) && IsVersion(max) && Content(stream) == head + (body + more)
    requires IsHead(head) && |head| <= MAX_HEADER + 1 && !IsUpgrade(head)
    requires ContentLength(head) == Framing(|body|, true)
    ensures EngineBytes(stream, max) == Rewritten(head, max) + body
  {
    HeadOfRequest(head, body + more);
    EngineBytesIndependentOfReads(stream, max);
    TakePrefix(body, more);
  }

  lemma HeadOfRequest(head: string, tail: string)
    requires IsHead(head)
    ensures Contains(head + tail, HEAD_END) && HeadOf(head + tail) == head
    ensures (head + tail)[|head|..] == tail
  {
    FirstInPrefix(head, tail, HEAD_END);
  }

  lemma TakePrefix(body: string, more: string)
    ensures Take(|body|, body + more) == body
  {
  }

  // ----- Where delivery does matter -----

  /** A stream delivered one byte at a time. */
  function ByteReads(all: string, err: ReadErr): (stream: seq<Read>)
    ensures |stream| == |all| + 1
    ensures forall i :: 0 <= i < |all| ==> stream[i] == Read([all[i]], NoErr)
    ensures stream[|all|] == Read("", err)
  {
    seq(|all| + 1, i requires 0 <= i <= |all| => if i < |all| then Read([all[i]], NoErr) else Read("", err))
  }

  lemma {:induction false} ByteReadsContent(all: string, err: ReadErr)
    requires err != NoErr
    ensures IsStream(ByteReads(all, err)) && Content(ByteReads(all, err)) == all
  {
    if all != "" {
      ByteReadsContent(all[1..], err);
      assert ByteReads(all, err)[1..] == ByteReads(all[1..], err);
    } else {
      assert ByteReads(all, err) == [Read("", err)];
    }
  }

  /**
    The limit is sharp: a longer head is refused by some delivery of the same bytes, namely one
    byte at a time.
   */
  lemma {:induction false} LongHeadRefused(buf: string, all: string, err: ReadErr)
    requires err != NoErr && !Contains(buf, HEAD_END) && |buf| <= MAX_HEADER + 1
    requires Contains(buf + all, HEAD_END)
    requires IndexOf(buf + all, HEAD_END) + 4 > MAX_HEADER + 1
    ensures IsStream(ByteReads(all, err))
    ensures ReadHead(buf, ByteReads(all, err)) == TooLong
    decreases |all|
  {
    ByteReadsContent(all, err);
    if |buf| <= MAX_HEADER {
      var b := buf + [all[0]];
      assert ByteReads(all, err)[1..] == ByteReads(all[1..], err);
      assert b + all[1..] == buf + all;
      if Contains(b, HEAD_END) {
        FirstInPrefix(b, all[1..], HEAD_END);
      }
      LongHeadRefused(b, all[1..], err);
    }
  }

  /**
    Exactly which heads are read for every delivery of the bytes: those of at most
    MAX_HEADER + 1 bytes.
   */
  lemma HeadReadForEveryDelivery(all: string)
    requires Contains(all, HEAD_END)
    ensures (forall stream | IsStream(stream) && Content(stream) == all :: ReadHead("", stream).Head?)
            <==> |HeadOf(all)| <= 1024 * 1024 + 1
  {
    if |HeadOf(all)| <= MAX_HEADER + 1 {
      forall stream | IsStream(stream) && Content(stream) == all ensures ReadHead("", stream).Head? {
        var _, _ := HeadOfStream(stream);
      }
    } else {
      EmptyHasNoHead();
      assert "" + all == all;
      LongHeadRefused("", all, Eof);
      ByteReadsContent(all, Eof);
    }
  }

  /** Some bytes one at a time, then a stream. */
  function Singly(bytes: string, stream: seq<Read>): seq<Read> {
    if bytes == "" then stream else [Read([bytes[0]], NoErr)] + Singly(bytes[1..], stream)
  }

  lemma {:induction false} SinglyContent(bytes: string, stream: seq<Read>)
    requires IsStream(stream)
    ensures IsStream(Singly(bytes, stream)) && Content(Singly(bytes, stream)) == bytes + Content(stream)
  {
    if bytes == "" {
      assert bytes + Content(stream) == Content(stream);
    } else {
      SinglyContent(bytes[1..], stream);
      OneMoreRead([bytes[0]], Singly(bytes[1..], stream));
      TailFirst(bytes, Content(stream));
    }
  }

  lemma TailFirst(bytes: string, tail: string)
    requires bytes != ""
    ensures [bytes[0]] + (bytes[1..] + tail) == bytes + tail
  {
  }

  lemma OneMoreRead(data: string, stream: seq<Read>)
    requires IsStream(stream) && |data| <= READ_SIZE
    ensures IsStream([Read(data, NoErr)] + stream) && Content([Read(data, NoErr)] + stream) == data + Content(stream)
    ensures ([Read(data, NoErr)] + stream)[1..] == stream
  {
  }

  /** Bytes that do not complete a head are only collected. */
  lemma {:induction false} SinglyCollects(buf: string, bytes: string, stream: seq<Read>)
    requires IsStream(stream) && |buf| + |bytes| <= MAX_HEADER && !Contains(buf + bytes, HEAD_END)
    ensures IsStream(Singly(bytes, stream))
    ensures ReadHead(buf, Singly(bytes, stream)) == ReadHead(buf + bytes, stream)
    decreases |bytes|
  {
    if bytes == "" {
      assert buf + bytes == buf;
    } else {
      var b := buf + [bytes[0]];
      assert b + bytes[1..] == buf + bytes;
      NotInPrefix(b, bytes[1..]);
      SinglyContent(bytes[1..], stream);
      SinglyCollects(b, bytes[1..], stream);
      ReadSkips(buf, [bytes[0]], Singly(bytes[1..], stream));
    }
  }

  lemma NotInPrefix(b: string, more: string)
    requires !Contains(b + more, HEAD_END)
    ensures !Contains(b, HEAD_END)
  {
    if Contains(b, HEAD_END) { FirstInPrefix(b, more, HEAD_END); }
  }

  lemma ReadSkips(buf: string, data: string, stream: seq<Read>)
    requires IsStream(stream) && 0 < |data| <= READ_SIZE && |buf| <= MAX_HEADER && !Contains(buf + data, HEAD_END)
    ensures IsStream([Read(data, NoErr)] + stream)
    ensures ReadHead(buf, [Read(data, NoErr)] + stream) == ReadHead(buf + data, stream)
  {
    OneMoreRead(data, stream);
  }

  /** `a` one byte at a time, `b` in one read, `c` one byte at a time. */
  function Pieces(a: string, b: string, c: string): seq<Read> {
    Singly(a, [Read(b, NoErr)] + ByteReads(c, Eof))
  }

  lemma PiecesContent(a: string, b: string, c: string)
    requires |b| <= READ_SIZE
    ensures IsStream(Pieces(a, b, c)) && Content(Pieces(a, b, c)) == a + (b + c)
  {
    ByteReadsContent(c, Eof);
    OneMoreRead(b, ByteReads(c, Eof));
    SinglyContent(a, [Read(b, NoErr)] + ByteReads(c, Eof));
  }

  /** A head that ends inside the long read: the rest is what that read holds beyond it. */
  lemma ReadFromPieces(a: string, b: string, c: string)
    requires |a| <= MAX_HEADER && 0 < |b| <= READ_SIZE && !Contains(a, HEAD_END) && Contains(a + b, HEAD_END)
    ensures IsStream(Pieces(a, b, c))
    ensures var head := HeadOf(a + b);
      ReadHead("", Pieces(a, b, c)) == Head(head, (a + b)[|head|..], IsUpgrade(head), ByteReads(c, Eof))
  {
    ByteReadsContent(c, Eof);
    var tail := ByteReads(c, Eof);
    OneMoreRead(b, tail);
    assert "" + a == a;
    SinglyCollects("", a, [Read(b, NoErr)] + tail);
    ReadFinds(a, b, tail);
  }

  lemma ReadFinds(buf: string, data: string, stream: seq<Read>)
    requires IsStream(stream) && 0 < |data| <= READ_SIZE && |buf| <= MAX_HEADER && Contains(buf + data, HEAD_END)
    ensures IsStream([Read(data, NoErr)] + stream)
    ensures var b := buf + data;
      var head := HeadOf(b);
      ReadHead(buf, [Read(data, NoErr)] + stream) == Head(head, b[|head|..], IsUpgrade(head), stream)
  {
    OneMoreRead(data, stream);
  }

  /**
    Without a readable length only what came with the read that completed the head is forwarded,
    whatever is still to come.
   */
  lemma OnlyRestIsForwarded(a: string, b: string, c: string, max: string)
    requires IsVersion(max) && |a| <= MAX_HEADER && 0 < |b| <= READ_SIZE
    requires !Contains(a, HEAD_END) && Contains(a + b, HEAD_END)
    requires !IsUpgrade(HeadOf(a + b)) && !ContentLength(HeadOf(a + b)).ok
    ensures IsStream(Pieces(a, b, c)) && Content(Pieces(a, b, c)) == a + (b + c)
    ensures EngineBytes(Pieces(a, b, c), max) == Rewritten(HeadOf(a + b), max) + (a + b)[|HeadOf(a + b)|..]
  {
    PiecesContent(a, b, c);
    ReadFromPieces(a, b, c);
    RewritePreservesFraming(HeadOf(a + b), max);
  }

  /** A text cut before the last byte of its head and at `m`. */
  lemma CutAroundHead(all: string, m: nat) returns (a: string, b: string, c: string)
    requires Contains(all, HEAD_END) && |HeadOf(all)| <= m <= |all|
    ensures all == a + (b + c) && |a| == |HeadOf(all)| - 1 && a + b == all[..m] && b != ""
    ensures !Contains(a, HEAD_END) && Contains(a + b, HEAD_END) && HeadOf(a + b) == HeadOf(all)
  {
    var n := |HeadOf(all)| - 1;
    a, b, c := all[..n], all[n..m], all[m..];
    ThreeParts(all, n, m);
    FirstKept(all, m);
    NoHeadYet(a, b + c);
  }

  lemma ThreeParts(all: string, n: nat, m: nat)
    requires n < m <= |all|
    ensures all[..n] + all[n..m] == all[..m] && all[..n] + (all[n..m] + all[m..]) == all
    ensures all[..m][..n + 1] == all[..n + 1]
  {
  }

  lemma NoHeadYet(b: string, more: string)
    requires Contains(b + more, HEAD_END) && |b| < IndexOf(b + more, HEAD_END) + 4
    ensures !Contains(b, HEAD_END)
  {
    if Contains(b, HEAD_END) { FirstInPrefix(b, more, HEAD_END); }
  }

  lemma FirstKept(all: string, k: nat)
    requires Contains(all, HEAD_END) && IndexOf(all, HEAD_END) + 4 <= k <= |all|
    ensures IndexOf(all[..k], HEAD_END) == IndexOf(all, HEAD_END)
  {
    var i := IndexOf(all, HEAD_END);
    assert all[..k][i..i + 4] == all[i..i + 4];
    assert OccursAt(all[..k], HEAD_END, i);
    assert all[..k] + all[k..] == all;
    FirstInPrefix(all[..k], all[k..], HEAD_END);
  }

  /** One more byte in the read that completes the head is one more byte for the engine. */
  lemma DeliveriesDiffer(all: string, max: string) returns (p: seq<Read>, q: seq<Read>)
    requires IsVersion(max) && Contains(all, HEAD_END) && |HeadOf(all)| <= MAX_HEADER + 1 && |HeadOf(all)| < |all|
    requires !IsUpgrade(HeadOf(all)) && !ContentLength(HeadOf(all)).ok
    ensures IsStream(p) && IsStream(q) && Content(p) == all && Content(q) == all
    ensures |EngineBytes(q, max)| == |EngineBytes(p, max)| + 1
  {
    var n := |HeadOf(all)|;
    var a, b, c := CutAroundHead(all, n);
    OnlyRestIsForwarded(a, b, c, max);
    var a', b', c' := CutAroundHead(all, n + 1);
    OnlyRestIsForwarded(a', b', c', max);
    p, q := Pieces(a, b, c), Pieces(a', b', c');
  }

  /** A request line and one header line, without breaks of their own, end at the terminator and not before. */
  lemma TwoLineHead(line: string, header: string)
    requires NoBreaks(line) && NoBreaks(header) && header != ""
    ensures Render([line, header]) == line + CRLF + header + HEAD_END
    ensures IsHead(line + CRLF + header + HEAD_END)
  {
    var head := line + CRLF + header + HEAD_END;
    JoinOfTwoOrThree([line, header], CRLF);
    var n := |head| - 4;
    assert head[n..n + 4] == HEAD_END;
    forall j: nat | j < n ensures !OccursAt(head, HEAD_END, j) {
      var w := head[j..j + 4];
      assert w[0] == head[j] && w[2] == head[j + 2];
      assert j < |line| ==> head[j] == line[j];
      assert j == |line| ==> head[j + 2] == header[0];
      assert j == |line| + 1 ==> head[j] == '\n';
      assert j >= |line| + 2 ==> head[j] == header[j - |line| - 2];
      assert HEAD_END[0] == '\r' && HEAD_END[2] == '\r';
    }
    IndexOfUnique(head, HEAD_END, n);
  }

  lemma NoBreaksIsLine(line: string)
    requires NoBreaks(line)
    ensures IsLine(line)
  {
    forall j: nat ensures !OccursAt(line, CRLF, j) {
      if j + 2 <= |line| { assert line[j..j + 2][0] == line[j]; }
    }
  }

  /**
    An unreadable length makes the forwarded body depend on delivery. For a plain request with its
    head within the limit the engine's bytes are the same for every delivery exactly when the
    length is readable or nothing follows the head.
   */
  lemma SameBytesForEveryDelivery(all: string, max: string)
    requires IsVersion(max) && Contains(all, HEAD_END) && |HeadOf(all)| <= MAX_HEADER + 1
    requires !IsUpgrade(HeadOf(all))
    ensures (forall a, b | IsStream(a) && IsStream(b) && Content(a) == all && Content(b) == all ::
               EngineBytes(a, max) == EngineBytes(b, max))
            <==> ContentLength(HeadOf(all)).ok || |HeadOf(all)| == |all|
  {
    var head := HeadOf(all);
    if ContentLength(head).ok {
      forall a, b | IsStream(a) && IsStream(b) && Content(a) == all && Content(b) == all
        ensures EngineBytes(a, max) == EngineBytes(b, max)
      {
        EngineBytesIndependentOfReads(a, max);
        EngineBytesIndependentOfReads(b, max);
      }
    } else if |head| == |all| {
      forall a, b | IsStream(a) && IsStream(b) && Content(a) == all && Content(b) == all
        ensures EngineBytes(a, max) == EngineBytes(b, max)
      {
        NothingToForward(a, max);
        NothingToForward(b, max);
      }
    } else {
      var p, q := DeliveriesDiffer(all, max);
    }
  }

  lemma NothingToForward(stream: seq<Read>, max: string)
    requires IsStream(stream) && IsVersion(max) && Contains(Content(stream), HEAD_END)
    requires HeadOf(Content(stream)) == Content(stream) && |Content(stream)| <= MAX_HEADER + 1
    requires !IsUpgrade(Content(stream)) && !ContentLength(Content(stream)).ok
    ensures EngineBytes(stream, max) == Rewritten(Content(stream), max)
  {
    var rest, pending := HeadOfStream(stream);
    assert |rest| == 0;
    RewritePreservesFraming(Content(stream), max);
  }

  // ----- Whole requests as clients write them -----

  /** A request line and one field. */
  function RequestHead(line: string, field: string): string { line + CRLF + field + HEAD_END }

  lemma FieldHasNoBreaks(n: nat)
    ensures NoBreaks(LENGTH_FIELD + Decimal(n))
  {
    var field := LENGTH_FIELD + Decimal(n);
    forall i | 0 <= i < |field| ensures field[i] != '\r' && field[i] != '\n' {
      assert i < |LENGTH_FIELD| ==> field[i] == LENGTH_FIELD[i];
      assert i >= |LENGTH_FIELD| ==> field[i] == Decimal(n)[i - |LENGTH_FIELD|] && IsDigit(field[i]);
    }
  }

  lemma LinesOfRequest(line: string, field: string)
    requires NoBreaks(line) && NoBreaks(field) && field != ""
    ensures var head := RequestHead(line, field);
      && head == Render([line, field]) && IsHead(head)
      && HeadLines(head) == [line, field] && Lines(head) == [line, field, "", ""]
  {
    TwoLineHead(line, field);
    NoBreaksIsLine(line);
    NoBreaksIsLine(field);
    RenderRoundTrip([line, field]);
    LinesOfRender([line, field]);
    assert [line, field] + ["", ""] == [line, field, "", ""];
  }

  /** With the field `Content-Length: n` the length is n and nothing is upgraded. */
  lemma PlainRequest(line: string, n: nat)
    requires NoBreaks(line) && line != "" && line[0] != 'c' && line[0] != 'C' && n < TWO_63
    ensures var head := RequestHead(line, LENGTH_FIELD + Decimal(n));
      IsHead(head) && ContentLength(head) == Framing(n, true) && !IsUpgrade(head)
  {
    var field := LENGTH_FIELD + Decimal(n);
    FieldHasNoBreaks(n);
    FieldsAreRecognized(Decimal(n));
    LengthIsNotConnection();
    LinesOfRequest(line, field);
    FieldIsSearched(line, field, CHUNKED);
    FieldIsSearched(line, field, UPGRADE);
    LengthOfRequest(line, n);
  }

  /** The whole-head search finds a name exactly when the field carries it. */
  lemma FieldIsSearched(line: string, field: string, name: string)
    requires NoBreaks(line) && NoBreaks(field) && field != "" && NoBreaks(name) && name != ""
    ensures Contains(Lower(RequestHead(line, field)), CRLF + name) <==> name <= Lower(field)
  {
    LinesOfRequest(line, field);
    HeaderSearch(RequestHead(line, field), name);
    OneFieldHeaders(line, field, name);
  }

  lemma LengthOfRequest(line: string, n: nat)
    requires line != "" && line[0] != 'c' && line[0] != 'C' && n < TWO_63
    ensures LengthOfLines([line, LENGTH_FIELD + Decimal(n), "", ""]) == Framing(n, true)
  {
    var field := LENGTH_FIELD + Decimal(n);
    assert !IsLength(line) by {
      assert Lower(line)[0] != 'c';
      assert CONTENT_LENGTH[0] == 'c';
    }
    FieldReadsBack(n);
    assert [line, field, "", ""][1..] == [field, "", ""];
  }

  function LengthOfField(value: string): Framing {
    FieldsAreRecognized(value);
    LengthOfLine(LENGTH_FIELD + value)
  }

  lemma FieldIsParsed(value: string)
    requires value != "" && !IsSpace(value[0]) && !IsSpace(value[|value| - 1])
    ensures LengthOfField(value) ==
      match ParseInt64(value) { case Num(n) => if n < 0 then
          Framing(0, false) else Framing(n, true) case _ => Framing(0, false) }
  {
    var line := LENGTH_FIELD + value;
    FieldsAreRecognized(value);
    assert line[|CONTENT_LENGTH|..] == [' '] + value;
    TrimSpaceOfBlank(value);
  }

  /** A negative length, or one beyond 63 bits, is not readable. */
  lemma BadLengthIsRefused(n: nat)
    ensures n > 0 ==> LengthOfField(['-'] + Decimal(n)) == Framing(0, false)
    ensures n >= TWO_63 ==> LengthOfField(Decimal(n)) == Framing(0, false)
  {
    ParseInt64Unsigned(n);
    ParseInt64Negative(['-'] + Decimal(n), n);
    FieldIsParsed(Decimal(n));
    FieldIsParsed(['-'] + Decimal(n));
  }

  lemma OneFieldHeaders(line: string, field: string, name: string)
    requires name != ""
    ensures HasHeader([line, field, "", ""], name) <==> name <= Lower(field)
  {
    var rest := [line, field, "", ""][1..];
    assert rest == [field, "", ""];
    assert field in rest;
  }

  lemma FieldReadsBack(n: nat)
    requires n < TWO_63
    ensures IsLength(LENGTH_FIELD + Decimal(n)) && LengthOfLine(LENGTH_FIELD + Decimal(n)) == Framing(n, true)
  {
    var name := LENGTH_FIELD[..|LENGTH_FIELD| - 1];
    assert Lower(name) == CONTENT_LENGTH;
    assert LENGTH_FIELD == name + " ";
    LengthLineReadsBack(name, " ", n);
  }

  /** What the engine sees of such a head: the clamped request line, the field, and `Connection: close`. */
  lemma PlainRequestRewritten(line: string, n: nat, max: string)
    requires NoBreaks(line) && IsVersion(max)
    ensures var field := LENGTH_FIELD + Decimal(n);
      Rewritten(RequestHead(line, field), max) ==
        ClampLine(line, max) + CRLF + field + CRLF + "Connection: close" + HEAD_END
  {
    FieldHasNoBreaks(n);
    FieldsAreRecognized(Decimal(n));
    OneFieldRewritten(line, LENGTH_FIELD + Decimal(n), max);
  }

  lemma OneFieldRewritten(line: string, field: string, max: string)
    requires NoBreaks(line) && NoBreaks(field) && field != "" && !IsConnection(field) && IsVersion(max)
    ensures Rewritten(RequestHead(line, field), max) ==
      ClampLine(line, max) + CRLF + field + CRLF + "Connection: close" + HEAD_END
  {
    LinesOfRequest(line, field);
    RewriteOnlyVersionAndConnection(RequestHead(line, field), max);
    assert [line, field][1..] == [field];
    DropConnectionKeeps([field]);
    var first := ClampLine(line, max);
    assert [first] + [field] + [CLOSE_LINE] == [first, field, CLOSE_LINE];
    JoinOfTwoOrThree([first, field, CLOSE_LINE], CRLF);
    CloseSpelled(first, field);
  }

  lemma CloseSpelled(first: string, field: string)
    ensures first + CRLF + field + (CRLF + CLOSE_LINE) + HEAD_END
      == first + CRLF + field + CRLF + "Connection: close" + HEAD_END
  {
    assert CLOSE_LINE == "Connection: close";
  }

  /**
    A plain request as clients write it: however its bytes arrive, and whatever follows, the engine
    receives the clamped request line, the length field, `Connection: close` and exactly the body.
   */
  lemma PlainRequestIsForwarded(stream: seq<Read>, line: string, body: string, more: string, max: string)
    requires NoBreaks(line) && line != "" && line[0] != 'c' && line[0] != 'C' && |body| < TWO_63 && IsVersion(max)
    requires IsStream(stream)
    requires Content(stream) == RequestHead(line, LENGTH_FIELD + Decimal(|body|)) + (body + more)
    requires |RequestHead(line, LENGTH_FIELD + Decimal(|body|))| <= MAX_HEADER + 1
    ensures EngineBytes(stream, max) ==
      ClampLine(line, max) + CRLF + (LENGTH_FIELD + Decimal(|body|)) + CRLF + "Connection: close" + HEAD_END + body
  {
    PlainRequest(line, |body|);
    PlainRequestRewritten(line, |body|, max);
    ExactBody(stream, RequestHead(line, LENGTH_FIELD + Decimal(|body|)), body, more, max);
  }

  /** With a field `Upgrade: x` everything reaches the engine unchanged. */
  lemma UpgradeIsForwardedUnchanged(stream: seq<Read>, line: string, x: string, rest: string, max: string)
    requires NoBreaks(line) && NoBreaks(x) && IsVersion(max) && IsStream(stream)
    requires Content(stream) == RequestHead(line, UPGRADE_FIELD + x) + rest
    requires |RequestHead(line, UPGRADE_FIELD + x)| <= MAX_HEADER + 1
    ensures EngineBytes(stream, max) == Content(stream)
  {
    var field := UPGRADE_FIELD + x;
    var head := RequestHead(line, field);
    assert NoBreaks(field) by {
      forall i | 0 <= i < |field| ensures field[i] != '\r' && field[i] != '\n' {
        assert field[i] == if i < |UPGRADE_FIELD| then UPGRADE_FIELD[i] else x[i - |UPGRADE_FIELD|];
      }
    }
    LinesOfRequest(line, field);
    LengthIsNotConnection();
    HeaderSearch(head, UPGRADE);
    OneFieldHeaders(line, field, UPGRADE);
    FieldsAreRecognized(x);
    HeadOfRequest(head, rest);
    EngineBytesIndependentOfReads(stream, max);
  }

  /** With the field `Transfer-Encoding: chunked` there is no readable length and no upgrade. */
  lemma ChunkedHead(line: string)
    requires NoBreaks(line)
    ensures var head := RequestHead(line, CHUNKED_FIELD); !ContentLength(head).ok && !IsUpgrade(head) && IsHead(head)
  {
    LengthIsNotConnection();
    var field := ChunkedField();
    LinesOfRequest(line, field);
    FieldIsSearched(line, field, CHUNKED);
    FieldIsSearched(line, field, UPGRADE);
  }

  lemma ChunkedField() returns (field: string)
    ensures field == CHUNKED_FIELD && NoBreaks(field) && field != ""
    ensures CHUNKED <= Lower(field) && !(UPGRADE <= Lower(field))
  {
    field := CHUNKED_FIELD;
    assert Lower(field) == CHUNKED;
    assert CHUNKED[0] == 't' && UPGRADE[0] == 'u';
  }

  /** A chunked request, whatever its request line and body, is forwarded differently by two deliveries. */
  lemma ChunkedDependsOnDelivery(line: string, body: string, max: string) returns (p: seq<Read>, q: seq<Read>)
    requires NoBreaks(line) && body != "" && IsVersion(max) && |line| + |CHUNKED_FIELD| + 6 <= MAX_HEADER + 1
    ensures var all := RequestHead(line, CHUNKED_FIELD) + body;
      IsStream(p) && IsStream(q) && Content(p) == all && Content(q) == all
    ensures |EngineBytes(q, max)| == |EngineBytes(p, max)| + 1
  {
    var head := RequestHead(line, CHUNKED_FIELD);
    ChunkedHead(line);
    HeadOfRequest(head, body);
    p, q := DeliveriesDiffer(head + body, max);
  }
}

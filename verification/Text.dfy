/**
  Byte strings as the Go sources use them: first occurrence, splitting and joining on a
  separator, ASCII lower-casing, trimming, and decimal integers. A byte is a `char`.
 */
module Text {

  /** `pat` stands in `s` at offset `i`. */
  predicate OccursAt(s: string, pat: string, i: nat) {
    i + |pat| <= |s| && s[i..i + |pat|] == pat
  }

  /** Offset of the first occurrence of `pat` in `s`, or -1. */
  function IndexOf(s: string, pat: string): (r: int)
    ensures -1 <= r <= |s| - |pat| || r == -1
    ensures r >= 0 ==> OccursAt(s, pat, r) && forall j: nat :: j < r ==> !OccursAt(s, pat, j)
    ensures r < 0 ==> forall j: nat :: !OccursAt(s, pat, j)
  {
    IndexFrom(s, pat, 0)
  }

  function IndexFrom(s: string, pat: string, from: nat): (r: int)
    requires from <= |s| + 1
    ensures r == -1 || from <= r <= |s| - |pat|
    ensures r >= 0 ==> OccursAt(s, pat, r) && forall j: nat :: from <= j < r ==> !OccursAt(s, pat, j)
    ensures r < 0 ==> forall j: nat :: from <= j ==> !OccursAt(s, pat, j)
    decreases |s| + 1 - from
  {
    if from + |pat| > |s| then -1
    else if OccursAt(s, pat, from) then from
    else IndexFrom(s, pat, from + 1)
  }

  predicate Contains(s: string, pat: string) {
    IndexOf(s, pat) >= 0
  }

  function TrimSuffix(s: string, suffix: string): string {
    if |suffix| <= |s| && s[|s| - |suffix|..] == suffix then s[..|s| - |suffix|] else s
  }

  /** bytes.Split: the pieces between successive leftmost occurrences of `sep`. */
  function Split(s: string, sep: string): (pieces: seq<string>)
    requires sep != ""
    ensures |pieces| >= 1
    decreases |s|
  {
    var i := IndexOf(s, sep);
    if i < 0 then [s] else [s[..i]] + Split(s[i + |sep|..], sep)
  }

  /** bytes.SplitN: at most `n` pieces, the last one unsplit. */
  function SplitN(s: string, sep: string, n: nat): (pieces: seq<string>)
    requires sep != "" && n >= 1
    ensures 1 <= |pieces| <= n
    decreases n
  {
    var i := IndexOf(s, sep);
    if n == 1 || i < 0 then [s] else [s[..i]] + SplitN(s[i + |sep|..], sep, n - 1)
  }

  function Join(pieces: seq<string>, sep: string): string {
    if |pieces| == 0 then ""
    else if |pieces| == 1 then pieces[0]
    else pieces[0] + sep + Join(pieces[1..], sep)
  }

  lemma {:induction false} JoinSplit(s: string, sep: string)
    requires sep != ""
    ensures Join(Split(s, sep), sep) == s
    decreases |s|
  {
    var i := IndexOf(s, sep);
    if i >= 0 {
      var tail := Split(s[i + |sep|..], sep);
      JoinSplit(s[i + |sep|..], sep);
      assert ([s[..i]] + tail)[1..] == tail;
      assert s == s[..i] + s[i..i + |sep|] + s[i + |sep|..];
    }
  }

  lemma {:induction false} JoinSplitN(s: string, sep: string, n: nat)
    requires sep != "" && n >= 1
    ensures Join(SplitN(s, sep, n), sep) == s
    decreases n
  {
    var i := IndexOf(s, sep);
    if n > 1 && i >= 0 {
      var tail := SplitN(s[i + |sep|..], sep, n - 1);
      JoinSplitN(s[i + |sep|..], sep, n - 1);
      assert ([s[..i]] + tail)[1..] == tail;
      assert s == s[..i] + s[i..i + |sep|] + s[i + |sep|..];
    }
  }

  lemma {:induction false} JoinAppend(xs: seq<string>, ys: seq<string>, sep: string)
    requires |xs| > 0 && |ys| > 0
    ensures Join(xs + ys, sep) == Join(xs, sep) + sep + Join(ys, sep)
  {
    if |xs| == 1 {
      assert (xs + ys)[1..] == ys;
    } else {
      assert (xs + ys)[1..] == xs[1..] + ys;
      JoinAppend(xs[1..], ys, sep);
      assert xs[0] + sep + (Join(xs[1..], sep) + sep + Join(ys, sep)) ==
          (xs[0] + sep + Join(xs[1..], sep)) + sep + Join(ys, sep);
    }
  }

  /** What `IndexOf` computes is determined by its contract. */
  lemma IndexOfUnique(s: string, pat: string, i: nat)
    requires OccursAt(s, pat, i)
    requires forall j: nat :: j < i ==> !OccursAt(s, pat, j)
    ensures IndexOf(s, pat) == i
  {
    var r := IndexOf(s, pat);
    assert r >= 0 ==> OccursAt(s, pat, r);
  }

  /** A piece followed by its first separator is found again in any longer text. */
  lemma IndexOfAppend(l: string, sep: string, rest: string)
    requires IndexOf(l + sep, sep) == |l|
    ensures IndexOf(l + sep + rest, sep) == |l|
  {
    var s := l + sep;
    forall j: nat | j < |l| ensures !OccursAt(s + rest, sep, j) {
      assert s[j..j + |sep|] == (s + rest)[j..j + |sep|];
      assert !OccursAt(s, sep, j);
    }
    assert (s + rest)[|l|..|l| + |sep|] == sep;
    IndexOfUnique(s + rest, sep, |l|);
  }

  /** `l` ends where the first separator begins once one is appended. */
  predicate Piece(l: string, sep: string) {
    IndexOf(l + sep, sep) == |l|
  }

  lemma SplitCons(first: string, rest: string, sep: string)
    requires sep != "" && Piece(first, sep)
    ensures Split(first + sep + rest, sep) == [first] + Split(rest, sep)
  {
    var s := first + sep + rest;
    IndexOfAppend(first, sep, rest);
    assert s[..|first|] == first;
    assert s[|first| + |sep|..] == rest;
  }

  lemma {:induction false} SplitJoin(pieces: seq<string>, sep: string)
    requires sep != "" && |pieces| >= 1
    requires forall i :: 0 <= i < |pieces| - 1 ==> Piece(pieces[i], sep)
    requires !Contains(pieces[|pieces| - 1], sep)
    ensures Split(Join(pieces, sep), sep) == pieces
  {
    if |pieces| > 1 {
      SplitCons(pieces[0], Join(pieces[1..], sep), sep);
      SplitJoin(pieces[1..], sep);
      assert pieces == [pieces[0]] + pieces[1..];
    }
  }

  /** An occurrence of `a + b` is an occurrence of `a` followed by `b`. */
  lemma OccursSplit(s: string, a: string, b: string, i: nat)
    ensures OccursAt(s, a + b, i) <==> OccursAt(s, a, i) && OccursAt(s, b, i + |a|)
  {
    if i + |a| + |b| <= |s| {
      var w := s[i..i + |a| + |b|];
      assert w == s[i..i + |a|] + s[i + |a|..i + |a| + |b|];
      assert w[..|a|] == s[i..i + |a|] && w[|a|..] == s[i + |a|..i + |a| + |b|];
      assert (a + b)[..|a|] == a && (a + b)[|a|..] == b;
    }
  }

  lemma OccursInSuffix(s: string, pat: string, from: nat, i: nat)
    requires from <= |s|
    ensures OccursAt(s[from..], pat, i) <==> OccursAt(s, pat, from + i)
  {
    if from + i + |pat| <= |s| { assert s[from..][i..i + |pat|] == s[from + i..from + i + |pat|]; }
  }

  /** What stands before the first separator is free of it. */
  lemma BeforeFirst(s: string, sep: string)
    requires sep != "" && Contains(s, sep)
    ensures !Contains(s[..IndexOf(s, sep)], sep)
  {
    var i := IndexOf(s, sep);
    forall j: nat ensures !OccursAt(s[..i], sep, j) {
      if j + |sep| <= i {
        assert s[..i][j..j + |sep|] == s[j..j + |sep|];
        assert !OccursAt(s, sep, j);
      }
    }
  }

  /** A text cut at the first occurrence of `pat`. */
  lemma CutAtFirst(s: string, pat: string) returns (pre: string, post: string)
    requires Contains(s, pat)
    ensures s == pre + pat + post && |pre| == IndexOf(s, pat)
    ensures IndexOf(pre + pat, pat) == |pre|
  {
    var i := IndexOf(s, pat);
    pre, post := s[..i], s[i + |pat|..];
    assert s == s[..i] + s[i..i + |pat|] + s[i + |pat|..];
    var t := pre + pat;
    forall j: nat | j < i ensures !OccursAt(t, pat, j) {
      assert t[j..j + |pat|] == s[j..j + |pat|];
      assert !OccursAt(s, pat, j);
    }
    IndexOfUnique(t, pat, i);
  }

  /** Every piece of a split is free of the separator. */
  lemma {:induction false} SplitPieces(s: string, sep: string)
    requires sep != ""
    ensures forall i :: 0 <= i < |Split(s, sep)| ==> !Contains(Split(s, sep)[i], sep)
    decreases |s|
  {
    var i := IndexOf(s, sep);
    if i >= 0 {
      SplitPieces(s[i + |sep|..], sep);
      BeforeFirst(s, sep);
    }
  }

  // ----- ASCII case and white space -----

  function LowerChar(c: char): char {
    if 'A' <= c <= 'Z' then (c as int + 32) as char else c
  }

  function Lower(s: string): (r: string)
    ensures |r| == |s|
  {
    seq(|s|, i requires 0 <= i < |s| => LowerChar(s[i]))
  }

  /** Every capital becomes the small letter at its own place in the alphabet; every other byte stays. */
  lemma LowerIsLetterwise(s: string, i: nat)
    requires i < |s|
    ensures var l := Lower(s)[i];
      if 'A' <= s[i] <= 'Z' then 'a' <= l <= 'z' && l as int - 'a' as int == s[i] as int - 'A' as int
      else l == s[i]
  {
  }

  lemma LowerAppend(a: string, b: string)
    ensures Lower(a + b) == Lower(a) + Lower(b)
  {
  }

  predicate IsSpace(c: char) {
    c == ' ' || c == '\t' || c == '\n' || c == '\r' || c == '\U{0B}' || c == '\U{0C}'
  }

  function TrimLeft(s: string): string {
    if s != "" && IsSpace(s[0]) then TrimLeft(s[1..]) else s
  }

  function TrimRight(s: string): string {
    if s != "" && IsSpace(s[|s| - 1]) then TrimRight(s[..|s| - 1]) else s
  }

  function TrimSpace(s: string): string {
    TrimRight(TrimLeft(s))
  }

  /** The blanks of ASCII: space, tab, line feed, carriage return, vertical tab, form feed. */
  const BLANKS := {' ', '\t', '\n', '\r', '\U{0B}', '\U{0C}'}

  /** What trimming leaves is the middle of the text: blanks around it, no blank at its ends. */
  lemma TrimSpaceIsMiddle(s: string) returns (left: string, right: string)
    ensures s == left + TrimSpace(s) + right
    ensures forall c :: c in left || c in right ==> c in BLANKS
    ensures var t := TrimSpace(s);
      t != "" ==> t[0] !in BLANKS && t[|t| - 1] !in BLANKS
  {
    left := TrimLeftCuts(s);
    right := TrimRightCuts(TrimLeft(s));
    var t := TrimSpace(s);
    Rejoined(s, left, TrimLeft(s), t, right);
    forall c: char ensures IsSpace(c) <==> c in BLANKS {}
    if t != "" { assert t[0] == TrimLeft(s)[0]; }
  }

  lemma Rejoined(s: string, left: string, rest: string, t: string, right: string)
    requires s == left + rest && rest == t + right
    ensures s == left + t + right
  {
    assert left + (t + right) == left + t + right;
  }

  lemma {:induction false} TrimLeftCuts(s: string) returns (left: string)
    ensures s == left + TrimLeft(s) && (forall c :: c in left ==> IsSpace(c))
    ensures TrimLeft(s) != "" ==> !IsSpace(TrimLeft(s)[0])
  {
    if s != "" && IsSpace(s[0]) {
      var rest := TrimLeftCuts(s[1..]);
      left := [s[0]] + rest;
    } else {
      left := "";
    }
  }

  lemma {:induction false} TrimRightCuts(s: string) returns (right: string)
    ensures s == TrimRight(s) + right && (forall c :: c in right ==> IsSpace(c))
    ensures TrimRight(s) != "" ==> !IsSpace(TrimRight(s)[|TrimRight(s)| - 1])
  {
    if s != "" && IsSpace(s[|s| - 1]) {
      var rest := TrimRightCuts(s[..|s| - 1]);
      right := rest + [s[|s| - 1]];
      assert s == s[..|s| - 1] + [s[|s| - 1]];
    } else {
      right := "";
    }
  }

  lemma {:induction false} TrimLeftKeeps(s: string, c: char)
    requires c in s && !IsSpace(c)
    ensures c in TrimLeft(s)
  {
    if s != "" && IsSpace(s[0]) {
      assert s == [s[0]] + s[1..];
      TrimLeftKeeps(s[1..], c);
    }
  }

  lemma {:induction false} TrimRightKeeps(s: string, c: char)
    requires c in s && !IsSpace(c)
    ensures c in TrimRight(s)
  {
    if s != "" && IsSpace(s[|s| - 1]) {
      assert s == s[..|s| - 1] + [s[|s| - 1]];
      TrimRightKeeps(s[..|s| - 1], c);
    }
  }

  /** Trimming never removes a character that is not white space. */
  lemma TrimSpaceKeeps(s: string, c: char)
    requires c in s && !IsSpace(c)
    ensures c in TrimSpace(s)
  {
    TrimLeftKeeps(s, c);
    TrimRightKeeps(TrimLeft(s), c);
  }

  // ----- Decimal integers, as strconv reads and prints them -----

  const TWO_63 := 0x8000_0000_0000_0000
  const TWO_64 := 0x1_0000_0000_0000_0000

  datatype Parsed = Num(n: int) | Syntax | Range(limit: int)

  predicate IsDigit(c: char) { '0' <= c <= '9' }

  function Digit(c: char): nat
    requires IsDigit(c)
  {
    c as int - '0' as int
  }

  /** The digit loop of strconv.ParseUint: stops at the first bad or overflowing digit. */
  function ParseUint(s: string, acc: nat): Parsed {
    if s == "" then Num(acc)
    else if !IsDigit(s[0]) then Syntax
    else if acc * 10 + Digit(s[0]) >= TWO_64 then Range(TWO_64 - 1)
    else ParseUint(s[1..], acc * 10 + Digit(s[0]))
  }

  /** strconv.ParseInt(s, 10, 64). */
  function ParseInt64(s: string): Parsed {
    if s == "" then Syntax
    else
      var neg := s[0] == '-';
      var digits := if s[0] == '+' || s[0] == '-' then s[1..] else s;
      if digits == "" then Syntax
      else
        match ParseUint(digits, 0)
        case Syntax => Syntax
        case Range(_) => if neg then Range(-TWO_63) else Range(TWO_63 - 1)
        case Num(u) =>
          if !neg && u >= TWO_63 then Range(TWO_63 - 1)
          else if neg && u > TWO_63 then Range(-TWO_63)
          else Num(if neg then -u else u)
  }

  /** The integer strconv.Atoi returns when its error is ignored. */
  function Atoi(s: string): int {
    match ParseInt64(s)
    case Num(n) => n
    case Syntax => 0
    case Range(limit) => limit
  }

  function Decimal(n: nat): (s: string)
    ensures s != ""
    ensures forall i :: 0 <= i < |s| ==> IsDigit(s[i])
  {
    if n < 10 then [('0' as int + n) as char] else Decimal(n / 10) + [('0' as int + n % 10) as char]
  }

  lemma {:induction false} ParseUintAppend(s: string, c: char, acc: nat)
    requires IsDigit(c) && ParseUint(s, acc).Num?
    requires ParseUint(s, acc).n * 10 + Digit(c) < TWO_64
    ensures ParseUint(s, acc).n >= 0
    ensures ParseUint(s + [c], acc) == Num(ParseUint(s, acc).n * 10 + Digit(c))
    decreases |s|
  {
    if s == "" {
      assert (s + [c])[1..] == "";
    } else {
      assert (s + [c])[1..] == s[1..] + [c];
      ParseUintAppend(s[1..], c, acc * 10 + Digit(s[0]));
    }
  }

  /** Reading back a printed number gives the number. */
  lemma {:induction false} ParseUintDecimal(n: nat)
    requires n < TWO_64
    ensures ParseUint(Decimal(n), 0) == Num(n)
  {
    if n >= 10 {
      ParseUintDecimal(n / 10);
      ParseUintAppend(Decimal(n / 10), ('0' as int + n % 10) as char, 0);
    } else {
      assert Decimal(n)[1..] == "";
    }
  }

  lemma ParseInt64Decimal(n: nat)
    requires n < TWO_63
    ensures ParseInt64(Decimal(n)) == Num(n)
  {
    ParseUintDecimal(n);
  }

  lemma {:induction false} ParseUintStuck(s: string, c: char, acc: nat)
    requires IsDigit(c)
    requires ParseUint(s, acc).Range? || (ParseUint(s, acc).Num? && ParseUint(s, acc).n * 10 + Digit(c) >= TWO_64)
    ensures ParseUint(s + [c], acc).Range?
    decreases |s|
  {
    if s == "" {
      assert (s + [c])[1..] == "";
    } else {
      assert (s + [c])[1..] == s[1..] + [c];
      if acc * 10 + Digit(s[0]) < TWO_64 { ParseUintStuck(s[1..], c, acc * 10 + Digit(s[0])); }
    }
  }

  lemma {:induction false} ParseUintTooLarge(n: nat)
    requires n >= TWO_64
    ensures ParseUint(Decimal(n), 0).Range?
  {
    var c := ('0' as int + n % 10) as char;
    if n / 10 < TWO_64 { ParseUintDecimal(n / 10); } else { ParseUintTooLarge(n / 10); }
    ParseUintStuck(Decimal(n / 10), c, 0);
  }

  lemma ParseUintOfDecimal(n: nat)
    ensures if n < TWO_64 then ParseUint(Decimal(n), 0) == Num(n) else ParseUint(Decimal(n), 0).Range?
  {
    if n < TWO_64 { ParseUintDecimal(n); } else { ParseUintTooLarge(n); }
  }

  /** Printed numbers are read back up to 63 bits and are out of range beyond. */
  lemma ParseInt64Unsigned(n: nat)
    ensures ParseInt64(Decimal(n)) == if n < TWO_63 then Num(n) else Range(TWO_63 - 1)
  {
    ParseUintOfDecimal(n);
    assert IsDigit(Decimal(n)[0]);
  }

  /** So are those with a minus sign. */
  lemma ParseInt64Negative(s: string, n: nat)
    requires s == ['-'] + Decimal(n)
    ensures ParseInt64(s) == if n <= TWO_63 then Num(-(n as int)) else Range(-TWO_63)
  {
    ParseUintOfDecimal(n);
    assert s[0] == '-' && s[1..] == Decimal(n);
  }

  /** Distinct numbers print differently, at any size. */
  lemma {:induction false} DecimalInjective(m: nat, n: nat)
    requires Decimal(m) == Decimal(n)
    ensures m == n
  {
    var s, t := Decimal(m), Decimal(n);
    assert m >= 10 <==> |s| >= 2;
    assert n >= 10 <==> |t| >= 2;
    assert s[|s| - 1] == t[|t| - 1];
    if m >= 10 && n >= 10 {
      assert s[..|s| - 1] == Decimal(m / 10);
      assert t[..|t| - 1] == Decimal(n / 10);
      DecimalInjective(m / 10, n / 10);
    }
  }

  lemma TrimSpaceOfBlank(value: string)
    requires value != "" && !IsSpace(value[0]) && !IsSpace(value[|value| - 1])
    ensures TrimSpace([' '] + value) == value
  {
    var s := [' '] + value;
    assert s[1..] == value;
    assert TrimLeft(value) == value && TrimLeft(s) == value;
  }

  /** Digits only: neither white space at the ends nor anything a trim would remove. */
  lemma TrimSpaceOfPadded(pad: string, n: nat)
    requires forall i :: 0 <= i < |pad| ==> IsSpace(pad[i])
    ensures TrimSpace(pad + Decimal(n)) == Decimal(n)
    decreases |pad|
  {
    if pad == "" {
      assert pad + Decimal(n) == Decimal(n);
    } else {
      assert (pad + Decimal(n))[1..] == pad[1..] + Decimal(n);
      TrimSpaceOfPadded(pad[1..], n);
    }
  }

  // ----- Byte order -----

  predicate Less(a: string, b: string) {
    b != [] && (a == [] || a[0] < b[0] || (a[0] == b[0] && Less(a[1..], b[1..])))
  }

  /** `a` ends, or has the smaller byte, where the two first differ. */
  ghost predicate SmallerAt(a: string, b: string, i: nat) {
    i <= |a| && i < |b| && a[..i] == b[..i] && (i == |a| || a[i] < b[i])
  }

  /** The dictionary order of bytes. */
  lemma {:induction false} LessIsDictionary(a: string, b: string)
    ensures Less(a, b) <==> exists i: nat :: SmallerAt(a, b, i)
  {
    if a != [] && b != [] && a[0] == b[0] {
      LessIsDictionary(a[1..], b[1..]);
      if i: nat :| SmallerAt(a[1..], b[1..], i) {
        assert a[..i + 1] == [a[0]] + a[1..][..i] && b[..i + 1] == [b[0]] + b[1..][..i];
        assert SmallerAt(a, b, i + 1);
      }
      if i: nat :| SmallerAt(a, b, i) {
        assert i > 0;
        assert a[1..][..i - 1] == a[..i][1..] && b[1..][..i - 1] == b[..i][1..];
        assert SmallerAt(a[1..], b[1..], i - 1);
      }
    } else {
      assert Less(a, b) ==> SmallerAt(a, b, 0);
      forall i: nat | i > 0 ensures !SmallerAt(a, b, i) {
        if i <= |a| && i < |b| { assert a[..i][0] == a[0] && b[..i][0] == b[0]; }
      }
    }
  }

  lemma {:induction false} LessIsTotal(a: string, b: string)
    ensures a == b || Less(a, b) || Less(b, a)
    ensures !(Less(a, b) && Less(b, a)) && !Less(a, a)
  {
    if a != [] && b != [] && a[0] == b[0] {
      LessIsTotal(a[1..], b[1..]);
      assert a == [a[0]] + a[1..] && b == [b[0]] + b[1..];
    }
    if a != [] { LessIsTotal(a[1..], a[1..]); }
  }

  lemma {:induction false} LessTransitive(a: string, b: string, c: string)
    requires Less(a, b) && Less(b, c)
    ensures Less(a, c)
  {
    if a != [] && a[0] == b[0] && b[0] == c[0] { LessTransitive(a[1..], b[1..], c[1..]); }
  }
}

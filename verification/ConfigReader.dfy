// The two configuration readers, editing character buffers in place.
module ConfigReader {
  import opened Seqs
  import opened Text
  import opened ConfigText

  const LINE_BUFFER := 1024
  const KEY_BUFFER := 128
  const VALUE_BUFFER := 512

  // --- NUL-terminated text in a buffer ---

  ghost predicate NulFree(t: string) {
    forall i :: 0 <= i < |t| ==> t[i] != '\0'
  }

  // The pointer p shows the text t.
  ghost predicate Shows(s: seq<char>, p: nat, t: string) {
    p + |t| < |s| && s[p..p + |t|] == t && s[p + |t|] == '\0' && NulFree(t)
  }

  lemma CharAt(s: seq<char>, p: nat, t: string, i: nat)
    requires Shows(s, p, t) && i <= |t|
    ensures s[p + i] == if i < |t| then t[i] else '\0'
  {
    if i < |t| { assert s[p..p + |t|][i] == s[p + i]; }
  }

  lemma Advance(s: seq<char>, p: nat, t: string, n: nat)
    requires Shows(s, p, t) && n <= |t|
    ensures Shows(s, p + n, t[n..])
  {
    assert s[p + n..p + |t|] == s[p..p + |t|][n..];
  }

  // A buffer changed only within a range.
  ghost predicate OnlyWithin(before: seq<char>, after: seq<char>, lo: nat, hi: nat) {
    lo <= hi <= |before| == |after| && after[..lo] == before[..lo] && after[hi..] == before[hi..]
  }

  lemma WithinLarger(a: seq<char>, b: seq<char>, lo: nat, hi: nat, lo': nat, hi': nat)
    requires OnlyWithin(a, b, lo, hi) && lo' <= lo && hi <= hi' <= |a|
    ensures OnlyWithin(a, b, lo', hi')
  {
    assert b[..lo'] == b[..lo][..lo'] && a[..lo'] == a[..lo][..lo'];
    assert b[hi'..] == b[hi..][hi' - hi..] && a[hi'..] == a[hi..][hi' - hi..];
  }

  lemma WithinTwice(a: seq<char>, b: seq<char>, c: seq<char>, lo: nat, hi: nat)
    requires OnlyWithin(a, b, lo, hi) && OnlyWithin(b, c, lo, hi)
    ensures OnlyWithin(a, c, lo, hi)
  {
  }

  lemma SliceBehind(s: seq<char>, hi: nat, p: nat, n: nat)
    requires hi <= p && p + n < |s|
    ensures s[p..p + n] == s[hi..][p - hi..p - hi + n] && s[p + n] == s[hi..][p + n - hi]
  {
  }

  // Text behind the range is still shown.
  lemma StillShows(a: seq<char>, b: seq<char>, lo: nat, hi: nat, p: nat, t: string)
    requires OnlyWithin(a, b, lo, hi) && Shows(a, p, t) && hi <= p
    ensures Shows(b, p, t)
  {
    SliceBehind(a, hi, p, |t|);
    SliceBehind(b, hi, p, |t|);
  }

  // A terminator put into the text.
  lemma CutShort(s: seq<char>, p: nat, t: string, n: nat)
    requires Shows(s, p, t) && n <= |t|
    ensures Shows(s[p + n := '\0'], p, t[..n])
    ensures n < |t| ==> OnlyWithin(s, s[p + n := '\0'], p, p + |t|)
  {
    var u := s[p + n := '\0'];
    assert u[p..p + n] == s[p..p + |t|][..n];
  }

  method StrLen(a: array<char>, p: nat, ghost t: string) returns (n: nat)
    requires Shows(a[..], p, t)
    ensures n == |t|
  {
    n := 0;
    CharAt(a[..], p, t, 0);
    while a[p + n] != '\0'
      invariant n <= |t| && a[p + n] == if n < |t| then t[n] else '\0'
      decreases |t| - n
    {
      n := n + 1;
      CharAt(a[..], p, t, n);
    }
  }

  lemma SpanIs(f: char -> bool, s: string, n: nat)
    requires n <= |s| && (forall i :: 0 <= i < n ==> f(s[i])) && (n < |s| ==> !f(s[n]))
    ensures Span(f, s) == n
  {
    assert s == s[..n] + s[n..];
    SpanExact(f, s[..n], s[n..]);
  }

  // strchr and the scan of strtok: how many characters come before the first one that stops.
  method ScanWhile(a: array<char>, p: nat, f: char -> bool, ghost t: string) returns (n: nat)
    requires Shows(a[..], p, t)
    ensures n == Span(f, t)
  {
    n := 0;
    CharAt(a[..], p, t, 0);
    while a[p + n] != '\0' && f(a[p + n])
      invariant n <= |t| && a[p + n] == if n < |t| then t[n] else '\0'
      invariant forall i :: 0 <= i < n ==> f(t[i])
      decreases |t| - n
    {
      n := n + 1;
      CharAt(a[..], p, t, n);
    }
    SpanIs(f, t, n);
  }

  // A terminator written into the text.
  method Terminate(a: array<char>, p: nat, n: nat, ghost t: string)
    requires Shows(a[..], p, t) && n <= |t|
    modifies a
    ensures Shows(a[..], p, t[..n]) && a[..] == old(a[..])[p + n := '\0']
  {
    CutShort(a[..], p, t, n);
    a[p + n] := '\0';
    assert a[..] == old(a[..])[p + n := '\0'];
  }

  // --- Trimming ---

  lemma SkipsTo(s: string, n: nat)
    requires n == Span(IsSpace, s)
    ensures SkipSpace(s) == s[n..]
  {
    assert s == s[..n] + s[n..];
    SkipSpaceIs(s[..n], s[n..]);
  }

  // while (isspace(*str)) str++
  method SkipBlanks(a: array<char>, p: nat, ghost t: string) returns (q: nat)
    requires Shows(a[..], p, t)
    ensures p <= q && q + |SkipSpace(t)| == p + |t| && Shows(a[..], q, SkipSpace(t))
  {
    var n := ScanWhile(a, p, IsSpace, t);
    q := p + n;
    SkipsTo(t, n);
    Advance(a[..], p, t, n);
  }

  lemma TrimsTo(s: string, n: nat)
    requires n <= |s| && (forall i :: n <= i < |s| ==> IsSpace(s[i])) && (n > 0 ==> !IsSpace(s[n - 1]))
    ensures TrimEnd(s) == s[..n]
  {
    assert s == s[..n] + s[n..];
    TrimEndIs(s[..n], s[n..]);
  }

  lemma CutAgain(first: seq<char>, s: seq<char>, q: nat, t: string, n: nat)
    requires 0 < n <= |t| && Shows(s, q, t[..n]) && q + |t| < |first| && OnlyWithin(first, s, q, q + |t|)
    ensures Shows(s[q + n - 1 := '\0'], q, t[..n - 1])
    ensures OnlyWithin(first, s[q + n - 1 := '\0'], q, q + |t|)
  {
    CutShort(s, q, t[..n], n - 1);
    assert t[..n][..n - 1] == t[..n - 1];
    var u := s[q + n - 1 := '\0'];
    assert u[..q] == s[..q] && u[q + |t|..] == s[q + |t|..];
  }

  // The loop that removes trailing blanks, from the last character down to the second.
  method TrimBlanks(a: array<char>, q: nat, len: nat, ghost t: string)
    requires Shows(a[..], q, t) && len == |t| && (len > 0 ==> !IsSpace(t[0]))
    modifies a
    ensures Shows(a[..], q, TrimEnd(t)) && OnlyWithin(old(a[..]), a[..], q, q + len)
  {
    var n := len;
    assert t[..n] == t;
    if n > 0 { CharAt(a[..], q, t[..n], n - 1); }
    while n > 1 && IsSpace(a[q + n - 1])
      invariant n <= len && (len > 0 ==> n > 0)
      invariant Shows(a[..], q, t[..n]) && OnlyWithin(old(a[..]), a[..], q, q + len)
      invariant n > 0 ==> a[q + n - 1] == t[n - 1]
      invariant forall i :: n <= i < len ==> IsSpace(t[i])
    {
      CutAgain(old(a[..]), a[..], q, t, n);
      ghost var before := a[..];
      a[q + n - 1] := '\0';
      assert a[..] == before[q + n - 1 := '\0'];
      n := n - 1;
      CharAt(a[..], q, t[..n], n - 1);
    }
    TrimsTo(t, n);
  }

  lemma {:induction false} SkipSpaceHead(s: string)
    ensures SkipSpace(s) != [] ==> !IsSpace(SkipSpace(s)[0])
  {
    if s != [] && IsSpace(s[0]) { SkipSpaceHead(s[1..]); }
  }

  // config_trim: the start moves, trailing blanks become terminators.
  method Trim(a: array<char>, p: nat, ghost t: string) returns (q: nat)
    requires Shows(a[..], p, t)
    modifies a
    ensures p <= q && Shows(a[..], q, Trimmed(t))
    ensures OnlyWithin(old(a[..]), a[..], p, p + |t|)
  {
    q := SkipBlanks(a, p, t);
    var len := StrLen(a, q, SkipSpace(t));
    SkipSpaceHead(t);
    TrimBlanks(a, q, len, SkipSpace(t));
    WithinLarger(old(a[..]), a[..], q, q + len, p, p + |t|);
  }

  // config_remove_comment
  method RemoveComment(a: array<char>, p: nat, ghost t: string)
    requires Shows(a[..], p, t)
    modifies a
    ensures Shows(a[..], p, BeforeComment(t)) && OnlyWithin(old(a[..]), a[..], p, p + |t|)
  {
    var n := ScanWhile(a, p, NotHash, t);
    CharAt(a[..], p, t, n);
    CutShort(a[..], p, t, n);
    if a[p + n] != '\0' {
      Terminate(a, p, n, t);
    } else {
      assert t[..n] == t;
    }
  }

  // --- Copying into the key and value buffers ---

  // strncpy of at most n characters, and the terminator.
  method CopyTruncated(dst: array<char>, src: array<char>, p: nat, n: nat, ghost t: string)
    requires dst != src && n < dst.Length && Shows(src[..], p, t)
    modifies dst
    ensures Shows(dst[..], 0, Truncate(t, n))
  {
    var i := 0;
    CharAt(src[..], p, t, 0);
    while i < n && src[p + i] != '\0'
      invariant i <= n && i <= |t| && src[..] == old(src[..])
      invariant src[p + i] == if i < |t| then t[i] else '\0'
      invariant dst[..i] == t[..i]
    {
      dst[i] := src[p + i];
      assert dst[..i + 1] == dst[..i] + [dst[i]];
      assert t[..i + 1] == t[..i] + [t[i]];
      i := i + 1;
      CharAt(src[..], p, t, i);
    }
    ghost var end := i;
    assert Truncate(t, n) == t[..end];
    while i < n
      invariant end <= i <= n && dst[..end] == t[..end]
      invariant end < i ==> dst[end] == '\0'
    {
      dst[i] := '\0';
      i := i + 1;
    }
    dst[n] := '\0';
    assert dst[..][0..end] == dst[..end] == t[..end];
  }

  // memmove of the trimmed text to the start of its buffer, terminator included.
  method MoveToFront(a: array<char>, q: nat, ghost t: string)
    requires Shows(a[..], q, t)
    modifies a
    ensures Shows(a[..], 0, t)
  {
    if q == 0 {
      return;
    }
    var n := StrLen(a, q, t);
    ghost var all := t + ['\0'];
    assert a[q..q + n + 1] == all by {
      CharAt(a[..], q, t, n);
      assert a[q..q + n + 1] == a[..][q..q + n] + [a[q + n]];
    }
    var i := 0;
    while i <= n
      invariant i <= n + 1 && a[..i] == all[..i]
      invariant a[q + i..q + n + 1] == all[i..]
    {
      assert a[q + i] == a[q + i..q + n + 1][0] == all[i];
      ghost var rest := a[q + i + 1..q + n + 1];
      assert rest == all[i + 1..] by { assert rest == a[q + i..q + n + 1][1..]; }
      a[i] := a[q + i];
      assert a[q + i + 1..q + n + 1] == rest;
      assert a[..i + 1] == a[..i] + [a[i]];
      assert all[..i + 1] == all[..i] + [all[i]];
      i := i + 1;
    }
    assert a[..i] == all;
    assert a[..][0..n] == a[..i][..n] == t && a[n] == a[..i][n];
  }

  method CopyTrimmed(dst: array<char>, src: array<char>, p: nat, n: nat, ghost t: string)
    requires dst != src && n < dst.Length && Shows(src[..], p, t)
    modifies dst
    ensures Shows(dst[..], 0, Trimmed(Truncate(t, n)))
  {
    CopyTruncated(dst, src, p, n, t);
    var q := Trim(dst, 0, Truncate(t, n));
    MoveToFront(dst, q, Trimmed(Truncate(t, n)));
  }

  lemma KeyCut(t: string, n: nat)
    requires n <= |t|
    ensures Truncate(t, if n >= KEY_BUFFER then KEY_MAX else n) == Truncate(t[..n], KEY_MAX)
  {
  }

  // The text before the equals sign at n.
  method CopyKey(key: array<char>, a: array<char>, p: nat, n: nat, ghost t: string)
    requires a != key && key.Length == KEY_BUFFER && Shows(a[..], p, t) && n <= |t|
    modifies key
    ensures Shows(key[..], 0, Trimmed(Truncate(t[..n], KEY_MAX)))
  {
    var keyLen := if n >= KEY_BUFFER then KEY_BUFFER - 1 else n;
    KeyCut(t, n);
    CopyTrimmed(key, a, p, keyLen, t);
  }

  // The text behind it, without leading blanks.
  method CopyValue(value: array<char>, a: array<char>, p: nat, n: nat, ghost t: string)
    requires a != value && value.Length == VALUE_BUFFER && Shows(a[..], p, t) && n < |t|
    modifies value
    ensures Shows(value[..], 0, Trimmed(Truncate(SkipSpace(t[n + 1..]), VALUE_MAX)))
  {
    Advance(a[..], p, t, n + 1);
    var start := SkipBlanks(a, p + n + 1, t[n + 1..]);
    CopyTrimmed(value, a, start, VALUE_BUFFER - 1, SkipSpace(t[n + 1..]));
  }

  // config_parse_line on the two buffers.
  method ParseLine(a: array<char>, p: nat, key: array<char>, value: array<char>, ghost t: string) returns (found: bool)
    requires Shows(a[..], p, t) && key.Length == KEY_BUFFER && value.Length == VALUE_BUFFER
    requires a != key && a != value && key != value
    modifies key, value
    ensures found <==> ParsePair(t).Some?
    ensures found ==> Shows(key[..], 0, ParsePair(t).value.0) && Shows(value[..], 0, ParsePair(t).value.1)
  {
    var n := ScanWhile(a, p, NotEquals, t);
    CharAt(a[..], p, t, n);
    found := a[p + n] != '\0';
    if found {
      CopyKey(key, a, p, n, t);
      CopyValue(value, a, p, n, t);
    }
  }

  // --- One line ---

  method HandleLine(a: array<char>, p: nat, key: array<char>, value: array<char>, ghost t: string) returns (found: bool)
    requires Shows(a[..], p, t) && key.Length == KEY_BUFFER && value.Length == VALUE_BUFFER
    requires a != key && a != value && key != value
    modifies a, key, value
    ensures found <==> LinePair(t).Some?
    ensures found ==> Shows(key[..], 0, LinePair(t).value.0) && Shows(value[..], 0, LinePair(t).value.1)
    ensures OnlyWithin(old(a[..]), a[..], p, p + |t|)
  {
    RemoveComment(a, p, t);
    ghost var uncommented := a[..];
    var trimmed := Trim(a, p, BeforeComment(t));
    WithinLarger(uncommented, a[..], p, p + |BeforeComment(t)|, p, p + |t|);
    WithinTwice(old(a[..]), uncommented, a[..], p, p + |t|);
    CharAt(a[..], trimmed, Trimmed(BeforeComment(t)), 0);
    if a[trimmed] == '\0' {
      return false;
    }
    found := ParseLine(a, trimmed, key, value, Trimmed(BeforeComment(t)));
  }

  method TextOf(a: array<char>, ghost t: string) returns (s: string)
    requires Shows(a[..], 0, t)
    ensures s == t
  {
    var n := StrLen(a, 0, t);
    s := a[..n];
    assert s == a[..][0..n];
  }

  function PairOf(line: string): seq<Call> {
    match LinePair(line) case None => [] case Some(c) => [c]
  }

  lemma AcceptedSnoc(calls: seq<Call>, c: Call, accepts: Call -> bool)
    ensures Accepted(calls + [c], accepts) == Accepted(calls, accepts) + if accepts(c) then 1 else 0
  {
    assert (calls + [c])[..|calls|] == calls;
  }

  // The line and the call of the handler; accepts says for which calls the handler returns 0.
  method CallHandler(a: array<char>, p: nat, key: array<char>, value: array<char>, accepts: Call -> bool,
                     calls0: seq<Call>, count0: nat, ghost t: string)
      returns (calls: seq<Call>, count: nat)
    requires Shows(a[..], p, t) && key.Length == KEY_BUFFER && value.Length == VALUE_BUFFER
    requires a != key && a != value && key != value && count0 == Accepted(calls0, accepts)
    modifies a, key, value
    ensures calls == calls0 + PairOf(t) && count == Accepted(calls, accepts)
    ensures OnlyWithin(old(a[..]), a[..], p, p + |t|)
  {
    calls, count := calls0, count0;
    var found := HandleLine(a, p, key, value, t);
    if found {
      var k := TextOf(key, LinePair(t).value.0);
      var v := TextOf(value, LinePair(t).value.1);
      AcceptedSnoc(calls0, (k, v), accepts);
      calls := calls + [(k, v)];
      if accepts((k, v)) {
        count := count + 1;
      }
    }
  }

  // --- fgets ---

  function ChunkLength(s: string): (n: nat)
    ensures n <= |s| && n <= LINE_MAX
  {
    Text.Min(FirstLine(s), LINE_MAX)
  }

  // What fgets has read: up to and with the first newline, at most 1023 characters.
  ghost predicate LineRead(s: string, i: nat) {
    && 0 < i <= |s| && i <= LINE_MAX
    && (forall j :: 0 <= j < i - 1 ==> s[j] != '\n')
    && (i == LINE_MAX || i == |s| || s[i - 1] == '\n')
  }

  // fgets
  method FGets(line: array<char>, text: string, pos: nat, ghost s: string) returns (i: nat)
    requires line.Length == LINE_BUFFER && pos < |text| && s == text[pos..] && NulFree(s)
    modifies line
    ensures LineRead(s, i) && Shows(line[..], 0, s[..i])
  {
    i := 0;
    var more := true;
    while more && i < LINE_BUFFER - 1 && pos + i < |text|
      invariant i <= LINE_BUFFER - 1 && i <= |s| && line[..i] == s[..i]
      invariant i > 0 || more
      invariant forall j :: 0 <= j < i - 1 ==> s[j] != '\n'
      invariant if more then i > 0 ==> s[i - 1] != '\n' else s[i - 1] == '\n'
    {
      var c := text[pos + i];
      line[i] := c;
      assert line[..i + 1] == line[..i] + [s[i]] && s[..i + 1] == s[..i] + [s[i]];
      more := c != '\n';
      i := i + 1;
    }
    line[i] := '\0';
    assert line[..][0..i] == s[..i];
  }

  // line[strcspn(line, "\n")] = 0
  method StripNewline(line: array<char>, ghost t: string)
    requires Shows(line[..], 0, t)
    modifies line
    ensures Shows(line[..], 0, t[..Span(NotNewline, t)])
  {
    var n := ScanWhile(line, 0, NotNewline, t);
    Terminate(line, 0, n, t);
  }

  method ReadChunk(line: array<char>, text: string, pos: nat) returns (next: nat)
    requires line.Length == LINE_BUFFER && pos < |text| && NulFree(text)
    modifies line
    ensures pos < next <= |text|
    ensures Shows(line[..], 0, text[pos..][..ChunkLength(text[pos..])])
    ensures Chunks(text[pos..]) == [text[pos..][..ChunkLength(text[pos..])]] + Chunks(text[next..])
  {
    ghost var s := text[pos..];
    var i := FGets(line, text, pos, s);
    next := pos + i;
    StripNewline(line, s[..i]);
    ChunkEnd(s, i);
    ChunkRead(s, i);
    assert text[next..] == s[i..];
  }

  lemma ChunkEnd(s: string, i: nat)
    requires LineRead(s, i)
    ensures s[..i][..Span(NotNewline, s[..i])] == s[..ChunkLength(s)]
  {
    var n := Span(NotNewline, s[..i]);
    if n < i {
      SpanIs(NotNewline, s, n);
    } else {
      assert forall j :: 0 <= j < i ==> s[j] == s[..i][j];
      SpanReaches(s, i);
    }
  }

  lemma SpanReaches(s: string, i: nat)
    requires i <= |s| && forall j :: 0 <= j < i ==> s[j] != '\n'
    ensures FirstLine(s) >= i
  {
  }

  lemma ChunkRead(s: string, i: nat)
    requires LineRead(s, i)
    ensures Chunks(s) == [s[..ChunkLength(s)]] + Chunks(s[i..])
  {
    if s[i - 1] == '\n' {
      SpanIs(NotNewline, s, i - 1);
      assert Behind(s, i - 1) == s[i..];
    } else {
      SpanReaches(s, i);
      if i == |s| { assert Behind(s, i) == [] == s[i..]; }
    }
  }

  // config_parse; None stands for a file that cannot be opened.
  method ConfigParse(file: Option<string>, accepts: Call -> bool) returns (count: int, calls: seq<Call>)
    requires file.Some? ==> NulFree(file.value)
    ensures file.None? ==> count == -1 && calls == []
    ensures file.Some? ==> calls == Calls(Chunks(file.value)) && count == Accepted(calls, accepts)
  {
    if file.None? {
      return -1, [];
    }
    var text := file.value;
    var line := new char[LINE_BUFFER](_ => '\0');
    var key := new char[KEY_BUFFER](_ => '\0');
    var value := new char[VALUE_BUFFER](_ => '\0');
    calls := [];
    count := 0;
    var pos := 0;
    assert text[0..] == text;
    while pos < |text|
      invariant pos <= |text| && 0 <= count == Accepted(calls, accepts)
      invariant calls + Calls(Chunks(text[pos..])) == Calls(Chunks(text))
    {
      ghost var s := text[pos..];
      var next := ReadChunk(line, text, pos);
      ghost var chunk := s[..ChunkLength(s)];
      CallsCons(chunk, Chunks(text[next..]));
      Concat(calls, PairOf(chunk), Calls(Chunks(text[next..])));
      calls, count := CallHandler(line, 0, key, value, accepts, calls, count, chunk);
      pos := next;
    }
    assert calls + [] == calls;
  }

  // --- strtok ---

  // The token and the rest of the text behind it.
  ghost predicate TokenAt(s: seq<char>, token: nat, next: nat, u: string) {
    var n := FirstLine(u);
    Shows(s, token, u[..n]) && Shows(s, next, Behind(u, n)) && token + n <= next
  }

  lemma TokenCut(s: seq<char>, token: nat, u: string, n: nat)
    requires Shows(s, token, u) && n == FirstLine(u) && n < |u|
    ensures TokenAt(s[token + n := '\0'], token, token + n + 1, u)
  {
    CutShort(s, token, u, n);
    BehindTheCut(s, token, u, n);
  }

  lemma BehindTheCut(s: seq<char>, token: nat, u: string, n: nat)
    requires Shows(s, token, u) && n < |u|
    ensures Shows(s[token + n := '\0'], token + n + 1, u[n + 1..])
  {
    Advance(s, token, u, n + 1);
    UpdateBefore(s, token + n, token + n + 1, u[n + 1..]);
  }

  lemma TokenLast(s: seq<char>, token: nat, u: string, n: nat)
    requires Shows(s, token, u) && n == FirstLine(u) == |u|
    ensures TokenAt(s, token, token + n, u)
  {
    assert u[..n] == u;
    Advance(s, token, u, n);
  }

  // The end of the token: a newline becomes a terminator.
  method EndToken(a: array<char>, token: nat, ghost u: string) returns (next: nat)
    requires Shows(a[..], token, u)
    modifies a
    ensures TokenAt(a[..], token, next, u)
  {
    var n := ScanWhile(a, token, NotNewline, u);
    CharAt(a[..], token, u, n);
    next := token + n;
    if a[next] != '\0' {
      TokenCut(a[..], token, u, n);
      Terminate(a, token, n, u);
      next := next + 1;
    } else {
      TokenLast(a[..], token, u, n);
    }
  }

  // strtok with "\n" from the saved pointer on: the next token, terminated in place, and the pointer
  // behind it.
  method StrTok(a: array<char>, at: nat, ghost t: string) returns (found: bool, token: nat, next: nat)
    requires Shows(a[..], at, t)
    modifies a
    ensures found <==> SkipNewlines(t) != []
    ensures found ==> TokenAt(a[..], token, next, SkipNewlines(t))
  {
    var k := ScanWhile(a, at, IsNewline, t);
    token, next := at + k, at + k;
    NewlinesSkipped(t, k);
    Advance(a[..], at, t, k);
    CharAt(a[..], token, t[k..], 0);
    found := a[token] != '\0';
    if found {
      next := EndToken(a, token, t[k..]);
    }
  }

  predicate IsNewline(c: char) {
    c == '\n'
  }

  lemma {:induction false} NewlinesSkipped(t: string, k: nat)
    requires k == Span(IsNewline, t)
    ensures SkipNewlines(t) == t[k..]
    decreases |t|
  {
    if t != [] && t[0] == '\n' {
      NewlinesSkipped(t[1..], k - 1);
    }
  }

  lemma UpdateBefore(s: seq<char>, i: nat, p: nat, t: string)
    requires i < p && Shows(s, p, t)
    ensures Shows(s[i := '\0'], p, t)
  {
    assert s[i := '\0'][p..p + |t|] == s[p..p + |t|];
  }

  lemma NextToken(calls: seq<Call>, t: string)
    requires SkipNewlines(t) != []
    ensures var u := SkipNewlines(t);
      var n := FirstLine(u);
      && calls + Calls(Tokens(t)) == (calls + PairOf(u[..n])) + Calls(Tokens(Behind(u, n)))
      && |Behind(u, n)| < |t|
  {
    var u := SkipNewlines(t);
    var n := FirstLine(u);
    CallsCons(u[..n], Tokens(Behind(u, n)));
    Concat(calls, PairOf(u[..n]), Calls(Tokens(Behind(u, n))));
  }

  method StrDup(text: string) returns (str: array<char>)
    requires NulFree(text)
    ensures fresh(str) && Shows(str[..], 0, text)
  {
    str := new char[|text| + 1](i requires 0 <= i => if i < |text| then text[i] else '\0');
    assert str[..][0..|text|] == text;
  }

  // One turn of the token loop: the line of the token, and the next token.
  method NextTurn(str: array<char>, token0: nat, at0: nat, key: array<char>, value: array<char>,
                  accepts: Call -> bool, calls0: seq<Call>, count0: nat, ghost t0: string)
      returns (calls: seq<Call>, count: nat, found: bool, token: nat, at: nat, ghost t: string)
    requires SkipNewlines(t0) != [] && TokenAt(str[..], token0, at0, SkipNewlines(t0))
    requires key.Length == KEY_BUFFER && value.Length == VALUE_BUFFER && count0 == Accepted(calls0, accepts)
    requires str != key && str != value && key != value
    modifies str, key, value
    ensures |t| < |t0| && calls0 + Calls(Tokens(t0)) == calls + Calls(Tokens(t))
    ensures count == Accepted(calls, accepts)
    ensures found <==> SkipNewlines(t) != []
    ensures found ==> TokenAt(str[..], token, at, SkipNewlines(t))
  {
    ghost var u := SkipNewlines(t0);
    ghost var n := FirstLine(u);
    NextToken(calls0, t0);
    calls, count := CallHandler(str, token0, key, value, accepts, calls0, count0, u[..n]);
    t := Behind(u, n);
    StillShows(old(str[..]), str[..], token0, token0 + n, at0, t);
    found, token, at := StrTok(str, at0, t);
  }

  // config_parse_string: the text is copied, and its tokens are edited in the copy.
  method ConfigParseString(text: string, accepts: Call -> bool) returns (count: nat, calls: seq<Call>)
    requires NulFree(text)
    ensures calls == Calls(Tokens(text)) && count == Accepted(calls, accepts)
  {
    var str := StrDup(text);
    var key := new char[KEY_BUFFER](_ => '\0');
    var value := new char[VALUE_BUFFER](_ => '\0');
    calls := [];
    count := 0;
    ghost var t, all := text, Calls(Tokens(text));
    var found, token, at := StrTok(str, 0, t);
    while found
      invariant count == Accepted(calls, accepts)
      invariant found <==> SkipNewlines(t) != []
      invariant found ==> TokenAt(str[..], token, at, SkipNewlines(t))
      invariant calls + Calls(Tokens(t)) == all
      decreases |t|
    {
      calls, count, found, token, at, t := NextTurn(str, token, at, key, value, accepts, calls, count, t);
    }
    assert calls + [] == calls;
  }
}

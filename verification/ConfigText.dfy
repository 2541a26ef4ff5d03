// What the two configuration readers make of a text, on values.
module ConfigText {
  import opened Seqs
  import opened Text

  const LINE_MAX := 1023
  const KEY_MAX := 127
  const VALUE_MAX := 511

  type Call = (string, string)

  function TrimEnd(s: string): (t: string)
    ensures |t| <= |s| && t == s[..|t|]
    ensures t != [] ==> !IsSpace(t[|t| - 1])
    ensures forall i :: |t| <= i < |s| ==> IsSpace(s[i])
  {
    if s != [] && IsSpace(s[|s| - 1]) then TrimEnd(s[..|s| - 1]) else s
  }

  function Trimmed(s: string): string {
    TrimEnd(SkipSpace(s))
  }

  predicate NotHash(c: char) {
    c != '#'
  }

  predicate NotEquals(c: char) {
    c != '='
  }

  predicate NotNewline(c: char) {
    c != '\n'
  }

  function BeforeComment(s: string): string {
    s[..Span(NotHash, s)]
  }

  // config_parse_line: the key is cut before it is trimmed, the value skips blanks before it is cut.
  function ParsePair(s: string): Option<Call> {
    var n := Span(NotEquals, s);
    if n == |s| then None
    else Some((Trimmed(Truncate(s[..n], KEY_MAX)), Trimmed(Truncate(SkipSpace(s[n + 1..]), VALUE_MAX))))
  }

  // One line: comment removed, trimmed, blank lines skipped.
  function LinePair(line: string): Option<Call> {
    var t := Trimmed(BeforeComment(line));
    if t == "" then None else ParsePair(t)
  }

  function Calls(lines: seq<string>): seq<Call> {
    if lines == [] then []
    else (match LinePair(lines[0]) case None => [] case Some(c) => [c]) + Calls(lines[1..])
  }

  // How many of the handler calls return 0.
  function Accepted(calls: seq<Call>, accepts: Call -> bool): nat {
    if calls == [] then 0
    else Accepted(calls[..|calls| - 1], accepts) + if accepts(calls[|calls| - 1]) then 1 else 0
  }

  // --- The two ways to cut a text into lines ---

  // The length of the first line.
  function FirstLine(s: string): nat {
    Span(NotNewline, s)
  }

  function Behind(s: string, n: nat): string {
    if n < |s| then s[n + 1..] else []
  }

  // fgets with a buffer of 1024: a line, or 1023 characters of a longer one; the newline is removed.
  function Chunks(s: string): seq<string>
    decreases |s|
  {
    if s == [] then []
    else
      var n := FirstLine(s);
      if n >= LINE_MAX then [s[..LINE_MAX]] + Chunks(s[LINE_MAX..]) else [s[..n]] + Chunks(Behind(s, n))
  }

  function SkipNewlines(s: string): (t: string)
    ensures |t| <= |s| && (t != [] ==> t[0] != '\n')
  {
    if s != [] && s[0] == '\n' then SkipNewlines(s[1..]) else s
  }

  // strtok with "\n": the lines that are not empty.
  function Tokens(s: string): seq<string>
    decreases |s|
  {
    var t := SkipNewlines(s);
    if t == [] then []
    else
      var n := FirstLine(t);
      [t[..n]] + Tokens(Behind(t, n))
  }

  function Lines(s: string): seq<string>
    decreases |s|
  {
    if s == [] then []
    else
      var n := FirstLine(s);
      [s[..n]] + Lines(Behind(s, n))
  }

  ghost predicate LinesWithin(s: string, limit: nat) {
    forall l :: l in Lines(s) ==> |l| <= limit
  }

  // --- Agreement ---

  lemma EmptyLine()
    ensures LinePair("") == None
  {
    assert Span(NotHash, "") == 0;
  }

  lemma CallsCons(line: string, lines: seq<string>)
    ensures Calls([line] + lines) == (match LinePair(line) case None => [] case Some(c) => [c]) + Calls(lines)
  {
    assert ([line] + lines)[1..] == lines;
  }

  lemma {:induction false} TokensAreLines(s: string)
    ensures Calls(Tokens(s)) == Calls(Lines(s))
    decreases |s|
  {
    if s == [] {
    } else if s[0] == '\n' {
      EmptyLine();
      assert Tokens(s) == Tokens(s[1..]);
      TokensAreLines(s[1..]);
      CallsCons("", Lines(s[1..]));
      assert Lines(s) == [""] + Lines(s[1..]);
    } else {
      var n := FirstLine(s);
      TokensAreLines(Behind(s, n));
      CallsCons(s[..n], Tokens(Behind(s, n)));
      CallsCons(s[..n], Lines(Behind(s, n)));
    }
  }

  lemma LinesTail(s: string, limit: nat)
    requires s != [] && LinesWithin(s, limit)
    ensures FirstLine(s) <= limit && LinesWithin(Behind(s, FirstLine(s)), limit)
  {
    var n := FirstLine(s);
    assert Lines(s)[0] == s[..n];
    assert Lines(s)[1..] == Lines(Behind(s, n));
    forall l | l in Lines(Behind(s, n)) ensures |l| <= limit { assert l in Lines(s); }
  }

  lemma NextChunk(s: string, n: nat)
    requires n < |s| && s[n] == '\n'
    ensures FirstLine(s[n..]) == 0 && Behind(s[n..], 0) == s[n + 1..]
  {
  }

  lemma EmptyChunk(s: string)
    requires s != [] && FirstLine(s) == 0
    ensures Calls(Chunks(s)) == Calls(Chunks(Behind(s, 0)))
  {
    EmptyLine();
    assert s[..0] == "";
    CallsCons("", Chunks(Behind(s, 0)));
  }

  // A line of exactly 1023 characters leaves its newline for an empty chunk.
  lemma FullLine(s: string)
    requires FirstLine(s) == LINE_MAX
    ensures Calls(Chunks(s[LINE_MAX..])) == Calls(Chunks(Behind(s, LINE_MAX)))
  {
    if LINE_MAX < |s| {
      NextChunk(s, LINE_MAX);
      EmptyChunk(s[LINE_MAX..]);
    } else {
      assert s[LINE_MAX..] == [];
    }
  }

  lemma {:induction false} ChunksAreLines(s: string)
    requires LinesWithin(s, LINE_MAX)
    ensures Calls(Chunks(s)) == Calls(Lines(s))
    decreases |s|
  {
    if s != [] {
      var n := FirstLine(s);
      LinesTail(s, LINE_MAX);
      ChunksAreLines(Behind(s, n));
      CallsCons(s[..n], Chunks(Behind(s, n)));
      CallsCons(s[..n], Lines(Behind(s, n)));
      if n == LINE_MAX {
        FullLine(s);
        CallsCons(s[..LINE_MAX], Chunks(s[LINE_MAX..]));
      }
    }
  }

  // For every text whose lines have at most 1023 characters both readers make the same handler calls.
  lemma ReadersAgree(s: string)
    requires LinesWithin(s, 1023)
    ensures Calls(Chunks(s)) == Calls(Tokens(s))
  {
    ChunksAreLines(s);
    TokensAreLines(s);
  }

  // A comment line of 1024 characters: its last one is read as a line of its own by fgets.
  function LongComment(): (s: string)
    ensures |s| == LINE_MAX + 1 && s[0] == '#' && s[LINE_MAX] == '='
    ensures forall i :: 0 <= i < |s| ==> s[i] != '\n' && s[i] != '\0'
  {
    "#" + seq(LINE_MAX - 1, _ => 'x') + "="
  }

  lemma {:induction false} NoNewline(s: string)
    requires s != [] && forall i :: 0 <= i < |s| ==> s[i] != '\n'
    ensures FirstLine(s) == |s| && Lines(s) == [s] == Tokens(s)
  {
    SpanExact(NotNewline, s, "");
    assert s + "" == s && s[..|s|] == s;
  }

  lemma CommentGivesNothing(s: string)
    requires s != [] && s[0] == '#'
    ensures LinePair(s) == None
  {
    assert Span(NotHash, s) == 0;
    assert BeforeComment(s) == "";
  }

  lemma EqualsAlone()
    ensures LinePair("=") == Some(("", ""))
  {
    assert Span(NotHash, "=") == 1 by { SpanExact(NotHash, "=", ""); assert "=" + "" == "="; }
    assert BeforeComment("=") == "=";
    assert Span(NotEquals, "=") == 0;
    assert "="[..0] == "" && "="[1..] == "";
  }

  lemma LongCommentDiffers()
    ensures Calls(Chunks(LongComment())) == [("", "")] && Calls(Tokens(LongComment())) == []
    ensures LinesWithin(LongComment(), LINE_MAX + 1)
  {
    var s := LongComment();
    NoNewline(s);
    CommentGivesNothing(s);
    CallsCons(s, []);
    assert [s] + [] == [s];
    var head, last := s[..LINE_MAX], s[LINE_MAX..];
    assert last == "=" && head != [] && head[0] == '#';
    NoNewline(last);
    assert Behind(last, 1) == [] && last[..1] == last;
    assert Chunks(last) == [last] + Chunks([]);
    assert Chunks(s) == [head] + Chunks(last);
    CommentGivesNothing(head);
    EqualsAlone();
    CallsCons(last, []);
    CallsCons(head, [last]);
    assert Chunks(last) == [last];
  }

  // The exact bound: the readers agree on all texts with lines up to a length if and only if that
  // length is at most 1023.
  lemma ReadersAgreeIff(limit: nat)
    ensures (forall s :: LinesWithin(s, limit) ==> Calls(Chunks(s)) == Calls(Tokens(s))) <==> limit <= 1023
  {
    if limit <= LINE_MAX {
      forall s | LinesWithin(s, limit) ensures Calls(Chunks(s)) == Calls(Tokens(s)) {
        assert LinesWithin(s, LINE_MAX);
        ReadersAgree(s);
      }
    } else {
      LongCommentDiffers();
      assert LinesWithin(LongComment(), limit);
    }
  }

  // --- A printed pair ---

  ghost predicate Blank(s: string) {
    forall i :: 0 <= i < |s| ==> IsSpace(s[i])
  }

  // Trimmed text: empty, or with something visible at both ends.
  ghost predicate Tight(t: string) {
    t != [] ==> !IsSpace(t[0]) && !IsSpace(t[|t| - 1])
  }

  lemma {:induction false} TrimEndIs(t: string, b: string)
    requires Blank(b) && (t != [] ==> !IsSpace(t[|t| - 1]))
    ensures TrimEnd(t + b) == t
  {
    if b == [] {
      assert t + b == t;
    } else {
      assert (t + b)[..|t + b| - 1] == t + b[..|b| - 1];
      TrimEndIs(t, b[..|b| - 1]);
    }
  }

  lemma {:induction false} SkipSpaceIs(b: string, t: string)
    requires Blank(b) && (t != [] ==> !IsSpace(t[0]))
    ensures SkipSpace(b + t) == t
  {
    if b == [] {
      assert b + t == t;
    } else {
      assert (b + t)[1..] == b[1..] + t;
      SkipSpaceIs(b[1..], t);
    }
  }

  lemma TrimmedIs(b: string, t: string, c: string)
    requires Blank(b) && Blank(c) && Tight(t) && (t == [] ==> c == [])
    ensures Trimmed(b + (t + c)) == t
  {
    SkipSpaceIs(b, t + c);
    TrimEndIs(t, c);
  }

  lemma TrimmedOff(u: string) returns (c: string)
    requires u != [] ==> !IsSpace(u[0])
    ensures Blank(c) && u == TrimEnd(u) + c && Tight(TrimEnd(u)) && (TrimEnd(u) == [] ==> c == [])
  {
    c := u[|TrimEnd(u)|..];
  }

  lemma Parts(s: string) returns (b: string, c: string)
    ensures Blank(b) && Blank(c) && s == b + (Trimmed(s) + c) && Tight(Trimmed(s)) && (Trimmed(s) == [] ==> c == [])
  {
    b := SkippedSpace(s);
    c := TrimmedOff(SkipSpace(s));
  }

  lemma {:induction false} SkippedSpace(s: string) returns (b: string)
    ensures Blank(b) && s == b + SkipSpace(s) && (SkipSpace(s) != [] ==> !IsSpace(SkipSpace(s)[0]))
  {
    if s != [] && IsSpace(s[0]) {
      var rest := SkippedSpace(s[1..]);
      b := [s[0]] + rest;
      Concat([s[0]], rest, SkipSpace(s[1..]));
      assert s == [s[0]] + s[1..];
    } else {
      b := [];
    }
  }

  lemma CutTrimmedIff(t: string, c: string, limit: nat)
    requires Blank(c) && Tight(t) && (t == [] ==> c == [])
    ensures Trimmed(Truncate(t + c, limit)) == t <==> |t| <= limit
  {
    if |t| <= limit {
      var d := if |t + c| <= limit then c else c[..limit - |t|];
      assert Truncate(t + c, limit) == "" + (t + d);
      TrimmedIs("", t, d);
    } else {
      var b, d := Parts(Truncate(t + c, limit));
    }
  }

  lemma PairAt(key: string, value: string)
    requires forall c :: c in key ==> c != '='
    ensures ParsePair(key + ("=" + value)) ==
            Some((Trimmed(Truncate(key, KEY_MAX)), Trimmed(Truncate(SkipSpace(value), VALUE_MAX))))
  {
    var s := key + ("=" + value);
    SpanExact(NotEquals, key, "=" + value);
    assert s[..|key|] == key && s[|key| + 1..] == value;
  }

  lemma NoComment(s: string)
    requires forall c :: c in s ==> c != '#'
    ensures BeforeComment(s) == s
  {
    SpanExact(NotHash, s, "");
    assert s + "" == s;
  }

  function PrintedPair(k: string, v: string): string {
    k + (" = " + v)
  }

  ghost predicate KeyText(k: string, x: string) {
    (x == "" && Trimmed(k) == "") || (Trimmed(k) != "" && exists c :: Blank(c) && x == Trimmed(k) + c)
  }

  // The key and the blank behind it: leading blanks, then the key with what follows it.
  lemma KeySide(k: string) returns (before: string, x: string)
    ensures k + " " == before + x && Blank(before) && KeyText(k, x)
    ensures x != [] ==> !IsSpace(x[0])
    ensures forall c :: c in x ==> c in k + " "
  {
    var a, b := Parts(k);
    var tk := Trimmed(k);
    if tk == "" {
      before, x := k + " ", "";
      assert k == a;
    } else {
      before, x := a, tk + (b + " ");
      assert Blank(b + " ");
    }
    SuffixChars(before, x);
  }

  lemma SuffixChars(a: string, b: string)
    ensures forall c :: c in b ==> c in a + b
  {
    forall c | c in b ensures c in a + b {
      var i :| 0 <= i < |b| && b[i] == c;
      assert (a + b)[|a| + i] == c;
    }
  }

  // The blank and the value behind it: blanks, the value, then trailing blanks.
  lemma ValueSide(v: string) returns (y: string, after: string)
    ensures " " + v == y + after && Blank(after) && SkipSpace(y) == Trimmed(v)
    ensures y != [] ==> !IsSpace(y[|y| - 1])
  {
    var d, e := Parts(v);
    var tv := Trimmed(v);
    if tv == "" {
      y, after := "", " " + v;
      assert v == d;
    } else {
      y, after := (" " + d) + tv, e;
      assert Blank(" " + d);
      SkipSpaceIs(" " + d, tv);
    }
  }

  lemma Assembled(k: string, v: string, before: string, x: string, y: string, after: string)
    requires k + " " == before + x && " " + v == y + after
    ensures PrintedPair(k, v) == before + ((x + ("=" + y)) + after)
  {
    assert PrintedPair(k, v) == (k + " ") + ("=" + (" " + v));
  }

  // The printed line trimmed.
  lemma PrintedParts(k: string, v: string) returns (x: string, y: string)
    ensures Trimmed(PrintedPair(k, v)) == x + ("=" + y)
    ensures KeyText(k, x) && SkipSpace(y) == Trimmed(v)
    ensures forall c :: c in x ==> c in k + " "
  {
    var before, after;
    before, x := KeySide(k);
    y, after := ValueSide(v);
    Assembled(k, v, before, x, y, after);
    TrimmedIs(before, x + ("=" + y), after);
  }

  // Trimming keeps every visible character and adds none.
  lemma TrimmedChars(s: string, c: char)
    ensures c in Trimmed(s) ==> c in s
    ensures c in s && !IsSpace(c) ==> c in Trimmed(s)
  {
    var b, d := Parts(s);
    assert s == b + Trimmed(s) + d;
  }

  lemma CutChars(s: string, n: nat, c: char)
    ensures c in Truncate(s, n) ==> c in s
  {
  }

  lemma SkippedChars(s: string, c: char)
    ensures c in SkipSpace(s) ==> c in s
  {
    var b := SkippedSpace(s);
  }

  lemma SpanFree(f: char -> bool, s: string, c: char)
    requires !f(c)
    ensures c !in s[..Span(f, s)]
  {
  }

  lemma CommentFree(line: string)
    ensures '#' !in Trimmed(BeforeComment(line))
  {
    TrimmedChars(BeforeComment(line), '#');
    SpanFree(NotHash, line, '#');
  }

  // No parsed key holds an equals sign, and the characters of a parsed pair are those of the line.
  lemma ParsedChars(s: string, c: char)
    requires ParsePair(s).Some?
    ensures '=' !in ParsePair(s).value.0
    ensures c !in s ==> c !in ParsePair(s).value.0 && c !in ParsePair(s).value.1
  {
    var n := Span(NotEquals, s);
    KeyChars(s[..n], '=');
    KeyChars(s[..n], c);
    SpanFree(NotEquals, s, '=');
    var v := SkipSpace(s[n + 1..]);
    TrimmedChars(Truncate(v, VALUE_MAX), c);
    CutChars(v, VALUE_MAX, c);
    SkippedChars(s[n + 1..], c);
  }

  lemma KeyChars(k: string, c: char)
    ensures c in Trimmed(Truncate(k, KEY_MAX)) ==> c in k
  {
    TrimmedChars(Truncate(k, KEY_MAX), c);
    CutChars(k, KEY_MAX, c);
  }

  // What a line can be read as.
  lemma ReadPairsAreClean(line: string)
    ensures LinePair(line).Some? ==>
      var (k, v) := LinePair(line).value; '=' !in k && '#' !in k && '#' !in v
  {
    CommentFree(line);
    if LinePair(line).Some? { ParsedChars(Trimmed(BeforeComment(line)), '#'); }
  }

  // Parsing a printed line returns the trimmed key and value exactly when they fit the buffers, neither
  // holds a comment sign and the key holds no equals sign.
  lemma PrintedLineIff(k: string, v: string)
    ensures LinePair(PrintedPair(k, v)) == Some((Trimmed(k), Trimmed(v))) <==>
            |Trimmed(k)| <= 127 && |Trimmed(v)| <= 511 && '=' !in k && '#' !in k && '#' !in v
  {
    if '=' !in k && '#' !in k && '#' !in v {
      CleanPairIff(k, v);
    } else {
      ReadPairsAreClean(PrintedPair(k, v));
      TrimmedChars(k, '=');
      TrimmedChars(k, '#');
      TrimmedChars(v, '#');
    }
  }

  lemma CleanPairIff(k: string, v: string)
    requires '=' !in k && '#' !in k && '#' !in v
    ensures LinePair(PrintedPair(k, v)) == Some((Trimmed(k), Trimmed(v))) <==>
            |Trimmed(k)| <= KEY_MAX && |Trimmed(v)| <= VALUE_MAX
  {
    NoComment(PrintedPair(k, v));
    var x, y := PrintedParts(k, v);
    PairAt(x, y);
    KeyBackIff(k, x);
    var b, c := Parts(v);
    CutTrimmedIff(Trimmed(v), "", VALUE_MAX);
    assert Trimmed(v) + "" == Trimmed(v);
  }

  lemma KeyBackIff(k: string, x: string)
    requires KeyText(k, x)
    ensures Trimmed(Truncate(x, KEY_MAX)) == Trimmed(k) <==> |Trimmed(k)| <= KEY_MAX
  {
    var a, b := Parts(k);
    if x == "" {
      CutTrimmedIff("", "", KEY_MAX);
      assert "" + "" == "";
    } else {
      var c :| Blank(c) && x == Trimmed(k) + c;
      CutTrimmedIff(Trimmed(k), c, KEY_MAX);
    }
  }

  // --- A printed pair as a text of several lines ---

  lemma FirstToken(line: string, rest: string, s: string)
    requires line != [] && '\n' !in line && s == line + ("\n" + rest)
    ensures Tokens(s) == [line] + Tokens(rest)
  {
    SpanExact(NotNewline, line, "\n" + rest);
    assert s[0] == line[0] && s[..|line|] == line && s[|line| + 1..] == rest;
  }

  lemma NewlineFirst(s: string)
    ensures Tokens("\n" + s) == Tokens(s)
  {
    assert ("\n" + s)[1..] == s;
  }

  lemma NewlineJoined(a: string, b: string)
    requires Tokens(a + ("\n" + b)) == Tokens(a) + Tokens(b)
    ensures Tokens("\n" + a + ("\n" + b)) == Tokens("\n" + a) + Tokens(b)
  {
    Concat("\n", a, "\n" + b);
    NewlineFirst(a);
    NewlineFirst(a + ("\n" + b));
  }

  lemma LineJoined(line: string, a: string, b: string)
    requires line != [] && '\n' !in line && Tokens(a + ("\n" + b)) == Tokens(a) + Tokens(b)
    ensures Tokens(line + ("\n" + a) + ("\n" + b)) == Tokens(line + ("\n" + a)) + Tokens(b)
  {
    FirstToken(line, a, line + ("\n" + a));
    Concat(line, "\n" + a, "\n" + b);
    Concat("\n", a, "\n" + b);
    FirstToken(line, a + ("\n" + b), line + ("\n" + a) + ("\n" + b));
    Concat([line], Tokens(a), Tokens(b));
  }

  lemma LastJoined(a: string, b: string)
    requires '\n' !in a
    ensures Tokens(a + ("\n" + b)) == Tokens(a) + Tokens(b)
  {
    if a == [] {
      assert a + ("\n" + b) == "\n" + b;
      NewlineFirst(b);
    } else {
      NoNewline(a);
      FirstToken(a, b, a + ("\n" + b));
    }
  }

  lemma FirstLineSplits(a: string)
    ensures var n := FirstLine(a);
      if n < |a| then a == a[..n] + ("\n" + a[n + 1..]) && '\n' !in a[..n] else '\n' !in a
  {
    var n := FirstLine(a);
    SpanFree(NotNewline, a, '\n');
    if n == |a| { assert a[..n] == a; }
  }

  lemma {:induction false} TokensJoined(a: string, b: string)
    ensures Tokens(a + ("\n" + b)) == Tokens(a) + Tokens(b)
    decreases |a|
  {
    var n := FirstLine(a);
    FirstLineSplits(a);
    if n == |a| {
      LastJoined(a, b);
    } else {
      TokensJoined(a[n + 1..], b);
      if n == 0 {
        assert a == "\n" + a[1..];
        NewlineJoined(a[1..], b);
      } else {
        LineJoined(a[..n], a[n + 1..], b);
      }
    }
  }

  // Where the last line begins.
  function LastStart(s: string): (m: nat)
    ensures m <= |s| && '\n' !in s[m..] && (m > 0 ==> s[m - 1] == '\n')
  {
    if s == [] then 0
    else
      var n := |s| - 1;
      if s[n] == '\n' then |s|
      else
        var m := LastStart(s[..n]);
        assert s[m..] == s[..n][m..] + [s[n]];
        m
  }

  lemma TokensOfSuffix(k: string, t: string)
    ensures Tokens(k + t) == Tokens(k[..LastStart(k)]) + Tokens(k[LastStart(k)..] + t)
  {
    var m := LastStart(k);
    if m == 0 {
      assert k[0..] + t == k + t && k[..0] == "";
    } else {
      var a := k[..m - 1];
      assert k[..m] == a + ("\n" + "") && k + t == a + ("\n" + (k[m..] + t));
      TokensJoined(a, "");
      TokensJoined(a, k[m..] + t);
    }
  }

  lemma TokensOfPrefix(t: string, v: string)
    requires t != [] && '\n' !in t
    ensures Tokens(t + v) == [t + v[..FirstLine(v)]] + Tokens(Behind(v, FirstLine(v)))
  {
    var n := FirstLine(v);
    FirstLineSplits(v);
    if n < |v| {
      Concat(t, v[..n], "\n" + v[n + 1..]);
      FirstToken(t + v[..n], v[n + 1..], t + v);
    } else {
      assert v[..n] == v;
      LastToken(t + v);
    }
  }

  lemma LastToken(s: string)
    requires s != [] && '\n' !in s
    ensures Tokens(s) == [s] + Tokens([])
  {
    NoNewline(s);
    assert [s] + [] == [s];
  }

  // The line of the printed pair that holds the equals sign between the two.
  function MiddleLine(k: string, v: string): string {
    PrintedPair(k[LastStart(k)..], v[..FirstLine(v)])
  }

  lemma MiddleIs(last: string, v: string)
    ensures last + (" = " + v) == (last + " = ") + v
  {
  }

  // The lines of the key but the last, that line, and the rest of the value.
  lemma TokensOfPair(k: string, v: string)
    ensures Tokens(PrintedPair(k, v)) ==
            Tokens(k[..LastStart(k)]) + ([MiddleLine(k, v)] + Tokens(Behind(v, FirstLine(v))))
  {
    var last := k[LastStart(k)..];
    TokensOfSuffix(k, " = " + v);
    MiddleIs(last, v);
    MiddleIs(last, v[..FirstLine(v)]);
    TokensOfPrefix(last + " = ", v);
  }

  lemma CallsFirst(line: string, a: seq<string>, b: seq<string>)
    requires Calls(a + b) == Calls(a) + Calls(b)
    ensures Calls([line] + a + b) == Calls([line] + a) + Calls(b)
  {
    Concat([line], a, b);
    CallsCons(line, a);
    CallsCons(line, a + b);
    Concat(match LinePair(line) case None => [] case Some(c) => [c], Calls(a), Calls(b));
  }

  lemma {:induction false} CallsJoined(a: seq<string>, b: seq<string>)
    ensures Calls(a + b) == Calls(a) + Calls(b)
  {
    if a == [] {
      assert a + b == b;
    } else {
      CallsJoined(a[1..], b);
      CallsFirst(a[0], a[1..], b);
      assert [a[0]] + a[1..] == a;
    }
  }

  // What is read of a printed pair.
  lemma CallsOfPair(k: string, v: string)
    ensures Calls(Tokens(PrintedPair(k, v))) ==
            Calls(Tokens(k[..LastStart(k)])) +
            ((match LinePair(MiddleLine(k, v)) case None => [] case Some(c) => [c]) +
             Calls(Tokens(Behind(v, FirstLine(v)))))
  {
    TokensOfPair(k, v);
    var before, behind := Tokens(k[..LastStart(k)]), Tokens(Behind(v, FirstLine(v)));
    CallsJoined(before, [MiddleLine(k, v)] + behind);
    CallsCons(MiddleLine(k, v), behind);
  }

  ghost predicate Among(line: string, s: string) {
    forall c :: c in line ==> c in s && c != '\n'
  }

  // The lines hold characters of the text, and no newline.
  lemma {:induction false} TokensAreAmong(s: string)
    ensures forall l :: l in Tokens(s) ==> Among(l, s)
    decreases |s|
  {
    if s == [] {
    } else if s[0] == '\n' {
      assert Tokens(s) == Tokens(s[1..]);
      TokensAreAmong(s[1..]);
      AmongMore(Tokens(s[1..]), s[1..], s);
    } else {
      var n := FirstLine(s);
      TokensAreAmong(Behind(s, n));
      AmongMore(Tokens(Behind(s, n)), Behind(s, n), s);
    }
  }

  lemma AmongMore(lines: seq<string>, t: string, s: string)
    requires forall l :: l in lines ==> Among(l, t)
    requires forall c :: c in t ==> c in s
    ensures forall l :: l in lines ==> Among(l, s)
  {
  }

  lemma BlankGivesNothing(line: string)
    requires Blank(line)
    ensures LinePair(line) == None
  {
    var t := BeforeComment(line);
    TrimmedIs(t, "", "");
    assert t + ("" + "") == t;
  }

  lemma {:induction false} BlankLinesGiveNothing(lines: seq<string>)
    requires forall l :: l in lines ==> Blank(l)
    ensures Calls(lines) == []
  {
    if lines != [] {
      BlankGivesNothing(lines[0]);
      BlankLinesGiveNothing(lines[1..]);
    }
  }

  lemma BlankTextGivesNothing(s: string)
    requires Blank(s)
    ensures Calls(Tokens(s)) == []
  {
    TokensAreAmong(s);
    forall l | l in Tokens(s) ensures Blank(l) {
      forall i | 0 <= i < |l| ensures IsSpace(l[i]) { assert l[i] in s; }
    }
    BlankLinesGiveNothing(Tokens(s));
  }

  lemma {:induction false} SkipBlank(b: string, t: string)
    requires Blank(b)
    ensures SkipSpace(b + t) == SkipSpace(t)
  {
    if b == [] {
      assert b + t == t;
    } else {
      assert (b + t)[1..] == b[1..] + t;
      SkipBlank(b[1..], t);
    }
  }

  lemma {:induction false} TrimBlank(t: string, b: string)
    requires Blank(b)
    ensures TrimEnd(t + b) == TrimEnd(t)
  {
    if b == [] {
      assert t + b == t;
    } else {
      assert (t + b)[..|t + b| - 1] == t + b[..|b| - 1];
      TrimBlank(t, b[..|b| - 1]);
    }
  }

  // No newline behind the first visible character of the key, and none before the last one of the value.
  ghost predicate OnOneLine(k: string, v: string) {
    '\n' !in SkipSpace(k) && '\n' !in TrimEnd(v)
  }

  lemma NewlineBefore(k: string, i: nat, m: nat)
    requires i <= |k| && m <= |k| && '\n' !in k[i..] && (m > 0 ==> k[m - 1] == '\n')
    ensures m <= i
  {
    assert forall j :: i <= j < |k| ==> k[j] == k[i..][j - i];
  }

  lemma NewlineBehind(v: string, i: nat, n: nat)
    requires i <= |v| && n < |v| && '\n' !in v[..i] && v[n] == '\n'
    ensures n >= i
  {
    assert forall j :: 0 <= j < i ==> v[j] == v[..i][j];
  }

  lemma CutOfBlank(b: string, k: string, m: nat)
    requires Blank(b) && m <= |b| && b <= k
    ensures Blank(k[..m])
  {
    assert forall i :: 0 <= i < m ==> k[i] == b[i];
  }

  lemma KeyOnOneLine(k: string)
    requires '\n' !in SkipSpace(k)
    ensures Blank(k[..LastStart(k)]) && Trimmed(k[LastStart(k)..]) == Trimmed(k)
  {
    var m := LastStart(k);
    var b := SkippedSpace(k);
    assert k[|b|..] == SkipSpace(k);
    NewlineBefore(k, |b|, m);
    CutOfBlank(b, k, m);
    CutsAt(k, m);
    SkipBlank(k[..m], k[m..]);
  }

  lemma BlankFrom(v: string, n: nat)
    requires |TrimEnd(v)| <= n < |v|
    ensures Blank(v[n..]) && Blank(v[n + 1..])
  {
    assert forall i :: n <= i < |v| ==> v[i] == v[n..][i - n];
  }

  lemma CutsAt(v: string, n: nat)
    requires n <= |v|
    ensures v[..n] + v[n..] == v
  {
  }

  lemma ValueOnOneLine(v: string)
    requires '\n' !in TrimEnd(v)
    ensures Blank(Behind(v, FirstLine(v))) && Trimmed(v[..FirstLine(v)]) == Trimmed(v)
  {
    var n := FirstLine(v);
    if n < |v| {
      NewlineBehind(v, |TrimEnd(v)|, n);
      BlankFrom(v, n);
      CutsAt(v, n);
      BlankEnd(v[..n], v[n..]);
    } else {
      assert v[..n] == v;
    }
  }

  lemma BlankEnd(t: string, b: string)
    requires Blank(b)
    ensures Trimmed(t + b) == Trimmed(t)
  {
    var a := SkippedSpace(t);
    var u := SkipSpace(t);
    assert t + b == a + (u + b);
    SkipBlank(a, u + b);
    if u == [] {
      SkipBlank(b, "");
      assert u + b == b + "";
    } else {
      SkipSpaceIs("", u + b);
      assert "" + (u + b) == u + b;
      TrimBlank(u, b);
    }
  }

  // Every call that is read has a clean key and value without a newline, and fits the buffers.
  ghost predicate Readable(c: Call) {
    '=' !in c.0 && '#' !in c.0 && '#' !in c.1 && '\n' !in c.0 && '\n' !in c.1 && |c.0| <= KEY_MAX && |c.1| <= VALUE_MAX
  }

  lemma LineIsReadable(line: string)
    requires '\n' !in line && LinePair(line).Some?
    ensures Readable(LinePair(line).value)
  {
    var t := BeforeComment(line);
    ReadPairsAreClean(line);
    TrimmedChars(t, '\n');
    ParsedChars(Trimmed(t), '\n');
    var n := Span(NotEquals, Trimmed(t));
    TrimmedIsShorter(Truncate(Trimmed(t)[..n], KEY_MAX));
    TrimmedIsShorter(Truncate(SkipSpace(Trimmed(t)[n + 1..]), VALUE_MAX));
  }

  lemma TrimmedIsShorter(s: string)
    ensures |Trimmed(s)| <= |s|
  {
    var b, c := Parts(s);
  }

  lemma {:induction false} CallsAreReadable(lines: seq<string>)
    requires forall l :: l in lines ==> '\n' !in l
    ensures forall c :: c in Calls(lines) ==> Readable(c)
  {
    if lines != [] {
      if LinePair(lines[0]).Some? { LineIsReadable(lines[0]); }
      CallsAreReadable(lines[1..]);
    }
  }

  // Without comment signs the middle line is always read.
  lemma MiddleIsRead(k: string, v: string) returns (x: string)
    requires '=' !in k && '#' !in k && '#' !in v
    ensures KeyText(k, x)
    ensures LinePair(PrintedPair(k, v)) ==
            Some((Trimmed(Truncate(x, KEY_MAX)), Trimmed(Truncate(Trimmed(v), VALUE_MAX))))
  {
    NoComment(PrintedPair(k, v));
    var y;
    x, y := PrintedParts(k, v);
    PairAt(x, y);
  }

  lemma BlankIsTrimmed(s: string)
    requires Blank(s)
    ensures Trimmed(s) == ""
  {
    TrimmedIs(s, "", "");
    assert s + ("" + "") == s;
  }

  // Behind a newline in the blanks after the key there are only blanks.
  lemma BlankTail(k: string, b: string, t: string, c: string, m: nat)
    requires k == b + (t + c) && Blank(c) && '\n' !in t && m <= |k|
    requires '\n' in t + c && '\n' !in k[m..] && (m > 0 ==> k[m - 1] == '\n')
    ensures Blank(k[m..])
  {
    var j :| 0 <= j < |t + c| && (t + c)[j] == '\n';
    assert k[|b| + j] == '\n';
    assert forall i :: m <= i < |k| ==> k[i] == k[m..][i - m];
    assert forall i :: |b| <= i < |b| + |t| ==> k[i] == t[i - |b|];
    assert forall i :: m <= i < |k| ==> k[i] == c[i - |b| - |t|];
  }

  lemma KeyBroken(k: string)
    requires '\n' in SkipSpace(k) && '\n' !in Trimmed(k)
    ensures Trimmed(k) != "" && Trimmed(k[LastStart(k)..]) == ""
  {
    var b := SkippedSpace(k);
    var c := TrimmedOff(SkipSpace(k));
    BlankTail(k, b, Trimmed(k), c, LastStart(k));
    BlankIsTrimmed(k[LastStart(k)..]);
  }

  lemma BlankHead(v: string, b: string, t: string, rest: string, n: nat)
    requires v == b + (t + rest) && Blank(b) && '\n' !in t && '\n' in b + t
    requires n <= |v| && '\n' !in v[..n]
    ensures Blank(v[..n])
  {
    var j :| 0 <= j < |b + t| && (b + t)[j] == '\n';
    assert forall i :: |b| <= i < |b + t| ==> (b + t)[i] == t[i - |b|];
    assert v[j] == '\n';
    assert forall i :: 0 <= i < n ==> v[i] == v[..n][i];
    assert forall i :: 0 <= i < n ==> v[i] == b[i];
  }

  lemma VisibleEnd(v: string)
    requires TrimEnd(v) != ""
    ensures Trimmed(v) != ""
  {
    TrimmedChars(v, TrimEnd(v)[|TrimEnd(v)| - 1]);
  }

  lemma EndOf(b: string, t: string, c: string)
    requires Blank(c) && t != [] && !IsSpace(t[|t| - 1])
    ensures TrimEnd(b + (t + c)) == b + t
  {
    Concat(b, t, c);
    TrimEndIs(b + t, c);
  }

  lemma ValueBroken(v: string)
    requires '\n' in TrimEnd(v) && '\n' !in Trimmed(v)
    ensures Trimmed(v) != "" && Trimmed(v[..FirstLine(v)]) == ""
  {
    var b, c := Parts(v);
    VisibleEnd(v);
    EndOf(b, Trimmed(v), c);
    SpanFree(NotNewline, v, '\n');
    BlankHead(v, b, Trimmed(v), c, FirstLine(v));
    BlankIsTrimmed(v[..FirstLine(v)]);
  }

  // The exact condition for a printed pair as a text of its own: it is read back as one call with the
  // trimmed key and value if and only if these fit the buffers, neither holds a comment sign, the key holds
  // no equals sign, and both are on one line. For the file reader, too, if its lines are short enough.
  lemma PrintedPairIff(k: string, v: string)
    ensures var (s, pair) := (PrintedPair(k, v), (Trimmed(k), Trimmed(v)));
      var fine := |pair.0| <= 127 && |pair.1| <= 511 &&
                  '=' !in k && '#' !in k && '#' !in v && OnOneLine(k, v);
      && (Calls(Tokens(s)) == [pair] <==> fine)
      && (LinesWithin(s, 1023) ==> (Calls(Chunks(s)) == [pair] <==> fine))
  {
    var s := PrintedPair(k, v);
    if LinesWithin(s, LINE_MAX) { ReadersAgree(s); }
    if Calls(Tokens(s)) == [(Trimmed(k), Trimmed(v))] {
      ReadBackIsFine(k, v);
    } else if OnOneLine(k, v) && '=' !in k && '#' !in k && '#' !in v {
      FineIsReadBack(k, v);
    }
  }

  lemma FineIsReadBack(k: string, v: string)
    requires OnOneLine(k, v) && '=' !in k && '#' !in k && '#' !in v
    ensures |Trimmed(k)| <= KEY_MAX && |Trimmed(v)| <= VALUE_MAX ==>
              Calls(Tokens(PrintedPair(k, v))) == [(Trimmed(k), Trimmed(v))]
  {
    var last, first := k[LastStart(k)..], v[..FirstLine(v)];
    KeyOnOneLine(k);
    ValueOnOneLine(v);
    CallsOfPair(k, v);
    BlankTextGivesNothing(k[..LastStart(k)]);
    BlankTextGivesNothing(Behind(v, FirstLine(v)));
    PrintedLineIff(last, first);
  }

  lemma ReadBackIsFine(k: string, v: string)
    requires Calls(Tokens(PrintedPair(k, v))) == [(Trimmed(k), Trimmed(v))]
    ensures |Trimmed(k)| <= KEY_MAX && |Trimmed(v)| <= VALUE_MAX
    ensures '=' !in k && '#' !in k && '#' !in v && OnOneLine(k, v)
  {
    var pair := (Trimmed(k), Trimmed(v));
    TokensAreAmong(PrintedPair(k, v));
    CallsAreReadable(Tokens(PrintedPair(k, v)));
    assert pair in Calls(Tokens(PrintedPair(k, v)));
    TrimmedChars(k, '=');
    TrimmedChars(k, '#');
    TrimmedChars(v, '#');
    MiddleIsPair(k, v, pair);
    var last, first := k[LastStart(k)..], v[..FirstLine(v)];
    var x := MiddleIsRead(last, first);
    if '\n' in SkipSpace(k) { KeyBroken(k); }
    if '\n' in TrimEnd(v) { ValueBroken(v); }
  }

  lemma MiddleIsPair(k: string, v: string, pair: Call)
    requires Calls(Tokens(PrintedPair(k, v))) == [pair] && '=' !in k && '#' !in k && '#' !in v
    ensures LinePair(MiddleLine(k, v)) == Some(pair)
  {
    var x := MiddleIsRead(k[LastStart(k)..], v[..FirstLine(v)]);
    CallsOfPair(k, v);
    var q := LinePair(MiddleLine(k, v)).value;
    assert q in Calls(Tokens(PrintedPair(k, v)));
  }

  // --- What one line is read as ---

  // A comment sign and what follows it change nothing.
  lemma CommentIsCut(line: string, comment: string)
    requires '#' !in line
    ensures LinePair(line + ("#" + comment)) == LinePair(line)
  {
    SpanExact(NotHash, line, "#" + comment);
    assert (line + ("#" + comment))[..|line|] == line;
    NoComment(line);
  }

  // A line without a comment is read exactly when it holds an equals sign.
  lemma LineIsReadIff(line: string)
    requires '#' !in line
    ensures LinePair(line).Some? <==> '=' in line
  {
    var t := Trimmed(line);
    NoComment(line);
    TrimmedChars(line, '=');
    SpanFree(NotEquals, t, '=');
    if Span(NotEquals, t) == |t| { assert t[..|t|] == t; }
  }

  lemma TightLine(k: string, v: string)
    requires Tight(k) && Tight(v)
    ensures Trimmed(k + ("=" + v)) == k + ("=" + v)
  {
    var line := k + ("=" + v);
    assert line[0] == if k == [] then '=' else k[0];
    assert line[|line| - 1] == if v == [] then '=' else v[|v| - 1];
    TrimmedIs("", line, "");
    assert "" + (line + "") == line;
  }

  lemma TightSkips(v: string)
    requires Tight(v)
    ensures SkipSpace(v) == v
  {
  }

  lemma LineOf(line: string, pair: Option<Call>)
    requires '#' !in line && Trimmed(line) == line != "" && ParsePair(line) == pair
    ensures LinePair(line) == pair
  {
    NoComment(line);
  }

  // A key behind which an equals sign and a value follow is cut at 127 characters, the value at 511.
  lemma PairIsCut(k: string, v: string)
    requires Tight(k) && Tight(v) && '=' !in k && '#' !in k && '#' !in v
    ensures LinePair(k + ("=" + v)) ==
            Some((Trimmed(if |k| <= 127 then k else k[..127]), Trimmed(if |v| <= 511 then v else v[..511])))
  {
    TightLine(k, v);
    TightSkips(v);
    PairAt(k, v);
    LineOf(k + ("=" + v), Some((Trimmed(Truncate(k, KEY_MAX)), Trimmed(Truncate(v, VALUE_MAX)))));
  }

  // Six characters are blanks.
  lemma BlanksAre(c: char)
    ensures IsSpace(c) <==> c == ' ' || 9 <= c as int <= 13
  {
  }

  // --- What a text is read as ---

  // A text is read line by line, in order: two texts with a newline between them give the calls of the first
  // and then those of the second.
  lemma TextsInOrder(a: string, b: string)
    ensures var s := a + ("\n" + b);
      && Calls(Tokens(s)) == Calls(Tokens(a)) + Calls(Tokens(b))
      && (LinesWithin(s, 1023) ==> Calls(Chunks(s)) == Calls(Tokens(a)) + Calls(Tokens(b)))
  {
    TokensJoined(a, b);
    CallsJoined(Tokens(a), Tokens(b));
    if LinesWithin(a + ("\n" + b), 1023) { ReadersAgree(a + ("\n" + b)); }
  }

  // A text without a newline is one line.
  lemma OneLineText(line: string)
    requires '\n' !in line
    ensures Calls(Tokens(line)) == match LinePair(line) case None => [] case Some(c) => [c]
  {
    EmptyLine();
    if line != [] {
      NoNewline(line);
      CallsCons(line, []);
      assert [line] + [] == [line];
    }
  }

  // The accepted calls are counted.
  lemma {:induction false} AcceptedAreCounted(calls: seq<Call>, accepts: Call -> bool)
    ensures Accepted(calls, accepts) == |Filter(calls, accepts)|
  {
    if calls != [] { AcceptedAreCounted(calls[..|calls| - 1], accepts); }
  }

  // A stretch of the text without a newline.
  ghost predicate Stretch(s: string, i: int, j: int) {
    0 <= i <= j <= |s| && forall k :: i <= k < j ==> s[k] != '\n'
  }

  ghost predicate StretchesWithin(s: string, limit: nat) {
    forall i, j :: Stretch(s, i, j) ==> j - i <= limit
  }

  lemma StretchesBehind(s: string, n: nat, limit: nat)
    requires n < |s| && s[n] == '\n' && Stretch(s, 0, n)
    ensures StretchesWithin(s, limit) <==> n <= limit && StretchesWithin(s[n + 1..], limit)
  {
    var t := s[n + 1..];
    assert forall k :: n + 1 <= k < |s| ==> s[k] == t[k - n - 1];
    if StretchesWithin(s, limit) {
      forall i, j | Stretch(t, i, j) ensures j - i <= limit {
        forall k | i + n + 1 <= k < j + n + 1 ensures s[k] != '\n' { assert t[k - n - 1] != '\n'; }
        assert Stretch(s, i + n + 1, j + n + 1);
      }
    }
    if n <= limit && StretchesWithin(t, limit) {
      forall i, j | Stretch(s, i, j) ensures j - i <= limit {
        if i > n { assert Stretch(t, i - n - 1, j - n - 1); }
      }
    }
  }

  // No line is longer than a limit exactly when no stretch without a newline is.
  lemma {:induction false} LinesWithinIff(s: string, limit: nat)
    ensures LinesWithin(s, limit) <==> StretchesWithin(s, limit)
    decreases |s|
  {
    if s != [] {
      var n := FirstLine(s);
      FirstLineSplits(s);
      assert Lines(s) == [s[..n]] + Lines(Behind(s, n));
      if n < |s| {
        LinesWithinIff(Behind(s, n), limit);
        assert forall k :: 0 <= k < n ==> s[k] == s[..n][k];
        StretchesBehind(s, n, limit);
      } else {
        assert Stretch(s, 0, |s|);
        assert s[..n] == s && Lines(Behind(s, n)) == [];
        assert Lines(s) == [s];
      }
    }
  }
}

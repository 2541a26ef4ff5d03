// One page of raw rows as text, and the aggregator's strstr/sscanf reading of it.
module PageText {
  import opened Seqs
  import opened Text

  datatype Row = Row(station: string, date: string, element: string, value: real,
                     mflag: string, qflag: string, sflag: string)

  // A row as the aggregator reads it.
  datatype Record = Record(station: string, date: string, element: string, value: real)

  ghost predicate QuoteFree(s: string) {
    forall i :: 0 <= i < |s| ==> s[i] != '"'
  }

  // A flag: the table holds at most one character of it, and that may be a quote.
  ghost predicate FlagText(f: string) {
    QuoteFree(f) || f == "\""
  }

  ghost predicate QuotableFlags(r: Row) {
    FlagText(r.mflag) && FlagText(r.qflag) && FlagText(r.sflag)
  }

  ghost predicate QuotableTexts(r: Row) {
    QuoteFree(r.station) && QuoteFree(r.date) && QuoteFree(r.element)
  }

  ghost predicate Quotable(r: Row) {
    QuotableTexts(r) && QuotableFlags(r)
  }

  // --- Writing ---

  // A word in double quotes followed by the rest of the text.
  function Quote(word: string, rest: string): string {
    "\"" + (word + ("\"" + rest))
  }

  // A number between a colon and a comma.
  function Number(digits: string): string {
    ":" + (digits + ",")
  }

  // The snprintf of one row, without the separating comma, followed by the rest of the text.
  function RowText(r: Row, rest: string): string {
    "{" + AtStation(r, rest)
  }

  function AtStation(r: Row, rest: string): string {
    Quote("station_id", ":" + AtStationText(r, rest))
  }

  function AtStationText(r: Row, rest: string): string {
    Quote(r.station, "," + AtDate(r, rest))
  }

  function AtDate(r: Row, rest: string): string {
    Quote("date", ":" + Quote(r.date, "," + AtElement(r, rest)))
  }

  function AtElement(r: Row, rest: string): string {
    Quote("element", ":" + Quote(r.element, "," + AtValue(r, rest)))
  }

  function AtValue(r: Row, rest: string): string {
    Quote("value", Number(PrintReal(r.value)) + FlagsText(r, rest))
  }

  function FlagsText(r: Row, rest: string): string {
    Quote("mflag", ":" + Quote(r.mflag, "," + AtQflag(r, rest)))
  }

  function AtQflag(r: Row, rest: string): string {
    Quote("qflag", ":" + Quote(r.qflag, "," + AtSflag(r, rest)))
  }

  function AtSflag(r: Row, rest: string): string {
    Quote("sflag", ":" + Quote(r.sflag, "}" + rest))
  }

  // Rows separated by commas, then the rest of the text.
  function RowsText(rows: seq<Row>, first: bool, rest: string): string {
    if rows == [] then rest
    else (if first then "" else ",") + RowText(rows[0], RowsText(rows[1..], false, rest))
  }

  function Trailer(offset: int, limit: int, total: int, count: int): string {
    "]," + AtOffset(offset, limit, total, count)
  }

  function AtOffset(offset: int, limit: int, total: int, count: int): string {
    Quote("offset", Number(PrintInt(offset)) + AtLimit(limit, total, count))
  }

  function AtLimit(limit: int, total: int, count: int): string {
    Quote("limit", Number(PrintInt(limit)) + AtTotal(total, count))
  }

  function AtTotal(total: int, count: int): string {
    Quote("total", Number(PrintInt(total)) + AtCount(count))
  }

  function AtCount(count: int): string {
    Quote("count", ":" + (PrintInt(count) + "}"))
  }

  function Page(rows: seq<Row>, offset: int, limit: int, total: int): string {
    "{" + Quote("data", ": [" + RowsText(rows, true, Trailer(offset, limit, total, |rows|)))
  }

  // --- Reading ---

  function Pattern(word: string, suffix: string): string {
    Quote(word, suffix)
  }

  // sscanf(t, "\"<key>\":\"%<width>[^\"]\"", buffer) into a zeroed buffer.
  function ScanField(t: string, key: string, width: nat): string {
    var prefix := Quote(key, ":\"");
    if !StartsWith(t, prefix) then ""
    else
      var u := t[|prefix|..];
      u[..Text.Min(Span(NotQuote, u), width)]
  }

  predicate NotQuote(c: char) {
    c != '"'
  }

  // strstr for a quoted key followed by the field scan; the buffer stays empty if the key is missing.
  function FindField(t: string, key: string, width: nat): string {
    match StrStr(t, Pattern(key, ""))
    case None => ""
    case Some(u) => ScanField(u, key, width)
  }

  // strstr for "\"<key>\":" followed by what comes after the colon.
  function FindNumber(t: string, key: string): Option<string> {
    match StrStr(t, Pattern(key, ":"))
    case None => None
    case Some(u) => Some(u[|Pattern(key, ":")|..])
  }

  function FindValue(t: string): real {
    match FindNumber(t, "value")
    case None => 0.0
    case Some(u) => match ScanReal(u) case None => 0.0 case Some((v, _)) => v
  }

  function FindInt(t: string, key: string, default: int): int {
    match FindNumber(t, key)
    case None => default
    case Some(u) => match ScanInt(u) case None => default case Some(v) => v
  }

  // The record at a pointer to "station_id", if all three texts were read.
  function RecordAt(p: string): seq<Record> {
    var r := Record(ScanField(p, "station_id", 31), FindField(p, "date", 15), FindField(p, "element", 7), FindValue(p));
    if r.station != [] && r.date != [] && r.element != [] then [r] else []
  }

  // The record loop.
  function ScanRecords(t: string): seq<Record>
    decreases |t|
  {
    match StrStr(t, Pattern("station_id", ""))
    case None => []
    case Some(p) => RecordAt(p) + ScanRecords(p[1..])
  }

  // --- What is recovered ---

  // The texts are there and no earlier text of the row is mistaken for the key of a later one.
  predicate Recoverable(r: Row) {
    && r.station != [] && r.date != [] && r.element != []
    && r.station != "date" && r.station != "element" && r.date != "element"
  }

  function Read(r: Row): Record {
    Record(Truncate(r.station, 31), Truncate(r.date, 15), Truncate(r.element, 7),
           Text.Hundredths(r.value) as real / 100.0)
  }

  function ReadAll(rows: seq<Row>): seq<Record> {
    if rows == [] then []
    else (if Recoverable(rows[0]) then [Read(rows[0])] else []) + ReadAll(rows[1..])
  }

  // --- Small facts about concatenation ---

  lemma NothingBefore(t: string)
    ensures "" + t == t
  {
  }

  lemma AfterQuote(word: string, rest: string)
    ensures Quote(word, rest)[1..] == word + ("\"" + rest)
  {
  }

  lemma QuoteHead(word: string, rest: string)
    ensures Quote(word, rest) != [] && Quote(word, rest)[0] == '"'
  {
  }

  lemma NumberThen(digits: string, rest: string)
    ensures Number(digits) + rest == ":" + (digits + ("," + rest))
    ensures Number(digits) != [] && Number(digits)[0] == ':'
    ensures QuoteFree(digits) ==> QuoteFree(Number(digits))
  {
  }

  // --- strstr over quoted words ---

  lemma {:induction false} StrStrSkipsFree(u: string, t: string, pattern: string)
    requires QuoteFree(u) && pattern != [] && pattern[0] == '"'
    ensures StrStr(u + t, pattern) == StrStr(t, pattern)
  {
    if u == [] {
      assert u + t == t;
    } else {
      assert (u + t)[1..] == u[1..] + t && (u + t)[0] == u[0];
      assert !StartsWith(u + t, pattern);
      StrStrSkipsFree(u[1..], t, pattern);
    }
  }

  // A quoted word determines the word.
  lemma QuotedWordsAgree(a: string, b: string, rest: string, suffix: string)
    requires QuoteFree(a) && QuoteFree(b) && StartsWith(Quote(a, rest), Quote(b, suffix))
    ensures a == b
  {
    var s, p := Quote(a, rest), Quote(b, suffix);
    var more := s[|p|..];
    assert s == p + more;
    assert s[1..] == a + ("\"" + rest) == b + ("\"" + (suffix + more));
    SpanExact(NotQuote, a, "\"" + rest);
    SpanExact(NotQuote, b, "\"" + (suffix + more));
    assert s[1..][..|a|] == a && s[1..][..|b|] == b;
  }

  // What stands between two quoted words is not the key.
  predicate Separates(sep: string, key: string) {
    sep != [] && key != [] && sep[0] != key[0]
  }

  // Looking for a quoted key from a quoted word that does not match: the separator after the word is
  // not the key either, so the search goes on at the next quote.
  lemma Skip(word: string, sep: string, t: string, key: string, suffix: string)
    requires QuoteFree(word) && QuoteFree(sep) && QuoteFree(key) && Separates(sep, key)
    requires t != [] && t[0] == '"'
    requires word != key || !StartsWith(sep + t, suffix)
    ensures StrStr(Quote(word, sep + t), Pattern(key, suffix)) == StrStr(t, Pattern(key, suffix))
    ensures StrStr(Quote(word, sep + t)[1..], Pattern(key, suffix)) == StrStr(t, Pattern(key, suffix))
  {
    var pattern := Pattern(key, suffix);
    if word != key {
      if StartsWith(Quote(word, sep + t), pattern) { QuotedWordsAgree(word, key, sep + t, suffix); }
    } else {
      SuffixDecides(word, sep + t, suffix);
    }
    SkipWord(word, sep, t, key, suffix);
    assert Quote(word, sep + t)[1..] == word + ("\"" + (sep + t));
  }

  lemma SuffixDecides(word: string, rest: string, suffix: string)
    ensures StartsWith(Quote(word, rest), Quote(word, suffix)) <==> StartsWith(rest, suffix)
  {
    assert Quote(word, rest)[|word| + 2..] == rest && Quote(word, suffix)[|word| + 2..] == suffix;
    assert Quote(word, rest)[..|word| + 2] == Quote(word, suffix)[..|word| + 2];
    if StartsWith(Quote(word, rest), Quote(word, suffix)) {
      assert Quote(word, rest)[..|word| + 2 + |suffix|][|word| + 2..] == suffix;
    }
    if StartsWith(rest, suffix) {
      assert Quote(word, rest)[..|word| + 2 + |suffix|] == Quote(word, suffix);
    }
  }

  lemma SkipWord(word: string, sep: string, t: string, key: string, suffix: string)
    requires QuoteFree(word) && QuoteFree(sep) && QuoteFree(key) && Separates(sep, key)
    requires t != [] && t[0] == '"'
    ensures StrStr(word + ("\"" + (sep + t)), Pattern(key, suffix)) == StrStr(t, Pattern(key, suffix))
  {
    var pattern := Pattern(key, suffix);
    StrStrSkipsFree(word, "\"" + (sep + t), pattern);
    assert "\"" + (sep + t) == Quote(sep, t[1..]) by { assert t == "\"" + t[1..]; }
    if StartsWith(Quote(sep, t[1..]), pattern) { QuotedWordsAgree(sep, key, t[1..], suffix); }
    assert ("\"" + (sep + t))[1..] == sep + t;
    StrStrSkipsFree(sep, t, pattern);
  }

  lemma Hit(key: string, suffix: string, rest: string)
    ensures StrStr(Quote(key, suffix + rest), Pattern(key, suffix)) == Some(Quote(key, suffix + rest))
  {
    SuffixDecides(key, suffix + rest, suffix);
    assert (suffix + rest)[..|suffix|] == suffix;
  }

  lemma NoKeyInside(sep: string, key: string, suffix: string)
    requires QuoteFree(sep)
    ensures !StartsWith("\"" + sep, Pattern(key, suffix))
  {
    var pattern, t := Pattern(key, suffix), "\"" + sep;
    assert pattern[1 + |key|] == '"';
    if 1 + |key| < |t| { assert t[1 + |key|] == sep[|key|]; }
  }

  // A key that occurs nowhere in the last quoted word.
  lemma SkipLast(word: string, sep: string, key: string, suffix: string)
    requires QuoteFree(word) && QuoteFree(sep) && QuoteFree(key) && word != key
    ensures StrStr(Quote(word, sep), Pattern(key, suffix)) == None
    ensures StrStr(Quote(word, sep)[1..], Pattern(key, suffix)) == None
  {
    var pattern, t := Pattern(key, suffix), "\"" + sep;
    if StartsWith(Quote(word, sep), pattern) { QuotedWordsAgree(word, key, sep, suffix); }
    assert Quote(word, sep)[1..] == word + t;
    StrStrSkipsFree(word, t, pattern);
    NoKeyInside(sep, key, suffix);
    assert t[1..] == sep + "";
    StrStrSkipsFree(sep, "", pattern);
  }

  lemma ColonNext(end: string, t: string)
    requires end != [] && end[0] != ':'
    ensures !StartsWith(end + t, ":")
  {
    assert (end + t)[0] == end[0];
  }

  lemma QuoteBeforeQuote(rest: string, pattern: string)
    requires |pattern| >= 2 && pattern[1] != '"' && rest != [] && rest[0] == '"'
    ensures StrStr("\"" + rest, pattern) == StrStr(rest, pattern)
  {
    assert ("\"" + rest)[1] == rest[0] && ("\"" + rest)[1..] == rest;
  }

  // A text that is itself a quote: three quotes in a row, none of which starts a key.
  lemma SkipQuoteText(sep: string, t: string, key: string, suffix: string)
    requires QuoteFree(sep) && QuoteFree(key) && Separates(sep, key) && t != [] && t[0] == '"'
    ensures StrStr(Quote("\"", sep + t), Pattern(key, suffix)) == StrStr(t, Pattern(key, suffix))
  {
    var rest := "\"" + (sep + t);
    assert Pattern(key, suffix)[1] == key[0];
    QuoteBeforeQuote("\"" + rest, Pattern(key, suffix));
    QuoteBeforeQuote(rest, Pattern(key, suffix));
    SkipWord("", sep, t, key, suffix);
    NothingBefore(rest);
  }

  // "name":"text", is skipped when neither the name nor the text is the key. A text equal to the key is
  // skipped too if the pattern ends in a colon, because a comma follows it.
  lemma SkipField(name: string, text: string, end: string, t: string, key: string, suffix: string)
    requires QuoteFree(name) && FlagText(text) && QuoteFree(end) && QuoteFree(key)
    requires t != [] && t[0] == '"' && end != [] && end[0] != ':'
    requires name != key && Separates(":", key) && Separates(end, key) && (text != key || suffix == ":")
    ensures StrStr(Quote(name, ":" + Quote(text, end + t)), Pattern(key, suffix)) == StrStr(t, Pattern(key, suffix))
  {
    QuoteHead(text, end + t);
    Skip(name, ":", Quote(text, end + t), key, suffix);
    if QuoteFree(text) {
      if text == key { ColonNext(end, t); }
      Skip(text, end, t, key, suffix);
    } else {
      SkipQuoteText(end, t, key, suffix);
    }
  }

  // --- Texts with quotes ---

  // Between the quotes around a text, the last one excluded, stands a name with its colon.
  ghost predicate Carries(text: string, key: string) {
    StrStr("\"" + text, Pattern(key, ":")).Some?
  }

  // A name with its colon cannot begin before the closing quote of a text and end behind it.
  lemma {:induction false} StrStrPast(u: string, v: string, key: string)
    requires QuoteFree(key) && StrStr(u, Pattern(key, ":")) == None
    requires |v| >= 2 && v[0] == '"' && v[1] != ':'
    ensures StrStr(u + v, Pattern(key, ":")) == StrStr(v, Pattern(key, ":"))
  {
    if u == [] {
      assert u + v == v;
    } else {
      NotAcross(u, v, key);
      assert (u + v)[1..] == u[1..] + v;
      StrStrPast(u[1..], v, key);
    }
  }

  lemma NotAcross(u: string, v: string, key: string)
    requires QuoteFree(key) && u != [] && !StartsWith(u, Pattern(key, ":"))
    requires |v| >= 2 && v[0] == '"' && v[1] != ':'
    ensures !StartsWith(u + v, Pattern(key, ":"))
  {
    var pattern, n, t := Pattern(key, ":"), |key|, u + v;
    assert |pattern| == n + 3 && pattern[n + 2] == ':';
    assert forall i :: 0 <= i < n ==> pattern[i + 1] == key[i];
    if |u| >= n + 3 {
      assert t[..n + 3] == u[..n + 3];
    } else if |t| >= n + 3 {
      if |u| <= n {
        assert t[..n + 3][|u|] == v[0] != key[|u| - 1] == pattern[|u|];
      } else if |u| == n + 1 {
        assert t[..n + 3][n + 2] == v[1] != pattern[n + 2];
      } else {
        assert t[..n + 3][n + 2] == v[0] != pattern[n + 2];
      }
    }
  }

  lemma {:induction false} StrStrWithin(u: string, v: string, pattern: string)
    requires StrStr(u, pattern).Some?
    ensures StrStr(u + v, pattern) == Some(StrStr(u, pattern).value + v)
  {
    assert |pattern| <= |u| && (u + v)[..|pattern|] == u[..|pattern|];
    if !StartsWith(u, pattern) {
      assert (u + v)[1..] == u[1..] + v;
      StrStrWithin(u[1..], v, pattern);
    }
  }

  lemma QuoteParts(text: string, rest: string)
    ensures Quote(text, rest) == ("\"" + text) + ("\"" + rest)
  {
  }

  lemma PlainCarriesNothing(text: string, key: string)
    requires QuoteFree(text)
    ensures !Carries(text, key)
  {
    NoKeyInside(text, key, ":");
    assert ("\"" + text)[1..] == text + "";
    StrStrSkipsFree(text, "", Pattern(key, ":"));
  }

  // "name":"text", is passed over unless the text carries the key.
  lemma PassField(name: string, text: string, end: string, t: string, key: string)
    requires QuoteFree(name) && QuoteFree(end) && QuoteFree(key) && !Carries(text, key)
    requires t != [] && t[0] == '"' && end != [] && end[0] != ':'
    requires name != key && Separates(":", key) && Separates(end, key)
    ensures StrStr(Quote(name, ":" + Quote(text, end + t)), Pattern(key, ":")) == StrStr(t, Pattern(key, ":"))
  {
    QuoteHead(text, end + t);
    Skip(name, ":", Quote(text, end + t), key, ":");
    QuoteParts(text, end + t);
    StrStrPast("\"" + text, "\"" + (end + t), key);
    SkipWord("", end, t, key, ":");
    NothingBefore("\"" + (end + t));
  }

  // Otherwise the key is found inside the text, in front of everything behind it.
  lemma StopAtField(name: string, text: string, rest: string, key: string)
    requires QuoteFree(name) && QuoteFree(key) && Carries(text, key) && name != key && Separates(":", key)
    ensures var found := StrStr(Quote(name, ":" + Quote(text, rest)), Pattern(key, ":"));
      found.Some? && |found.value| > |rest|
  {
    QuoteHead(text, rest);
    Skip(name, ":", Quote(text, rest), key, ":");
    QuoteParts(text, rest);
    StrStrWithin("\"" + text, "\"" + rest, Pattern(key, ":"));
  }

  // --- One field ---

  lemma FieldRead(key: string, word: string, rest: string, width: nat)
    requires QuoteFree(word)
    ensures ScanField(Quote(key, ":" + Quote(word, rest)), key, width) == Truncate(word, width)
  {
    var t, prefix := Quote(key, ":" + Quote(word, rest)), Quote(key, ":\"");
    SuffixDecides(key, ":" + Quote(word, rest), ":\"");
    assert (":" + Quote(word, rest))[..2] == ":\"";
    var u := t[|prefix|..];
    assert u == word + ("\"" + rest);
    SpanExact(NotQuote, word, "\"" + rest);
    assert u[..Text.Min(|word|, width)] == Truncate(word, width);
  }

  lemma FieldMissing(key: string, rest: string, width: nat)
    requires rest != [] && rest[0] != ':'
    ensures ScanField(Quote(key, rest), key, width) == ""
  {
    SuffixDecides(key, rest, ":\"");
  }

  // --- One row ---

  // A quoted key found in the text: as a name its field is read, as a text of the row nothing is.
  lemma NameFound(key: string, text: string, rest: string, width: nat)
    requires QuoteFree(text)
    ensures FindField(Quote(key, ":" + Quote(text, rest)), key, width) == Truncate(text, width)
  {
    Hit(key, "", ":" + Quote(text, rest));
    NothingBefore(":" + Quote(text, rest));
    FieldRead(key, text, rest, width);
  }

  lemma TextFound(key: string, rest: string, width: nat)
    ensures FindField(Quote(key, "," + rest), key, width) == ""
  {
    Hit(key, "", "," + rest);
    NothingBefore("," + rest);
    FieldMissing(key, "," + rest, width);
  }

  lemma FindSkips(t: string, u: string, key: string, width: nat)
    requires StrStr(t, Pattern(key, "")) == StrStr(u, Pattern(key, ""))
    ensures FindField(t, key, width) == FindField(u, key, width)
  {
  }

  lemma TextTaken(name: string, key: string, rest: string, width: nat)
    requires QuoteFree(name) && QuoteFree(key) && Separates(":", key) && name != key
    ensures FindField(Quote(name, ":" + Quote(key, "," + rest)), key, width) == ""
  {
    QuoteHead(key, "," + rest);
    Skip(name, ":", Quote(key, "," + rest), key, "");
    FindSkips(Quote(name, ":" + Quote(key, "," + rest)), Quote(key, "," + rest), key, width);
    TextFound(key, rest, width);
  }

  lemma StationIsDate(r: Row, rest: string)
    requires r.station == "date"
    ensures FindField(AtStation(r, rest), "date", 15) == ""
  {
    TextTaken("station_id", "date", AtDate(r, rest), 15);
  }

  lemma DateFromStation(r: Row, rest: string)
    requires QuoteFree(r.station) && QuoteFree(r.date) && r.station != "date"
    ensures FindField(AtStation(r, rest), "date", 15) == Truncate(r.date, 15)
  {
    SkipField("station_id", r.station, ",", AtDate(r, rest), "date", "");
    FindSkips(AtStation(r, rest), AtDate(r, rest), "date", 15);
    NameFound("date", r.date, "," + AtElement(r, rest), 15);
  }

  lemma DateRead(r: Row, rest: string)
    requires Quotable(r)
    ensures FindField(AtStation(r, rest), "date", 15) == if r.station == "date" then "" else Truncate(r.date, 15)
  {
    if r.station == "date" { StationIsDate(r, rest); } else { DateFromStation(r, rest); }
  }

  lemma ElementReadFromDate(r: Row, rest: string)
    requires Quotable(r)
    ensures FindField(AtDate(r, rest), "element", 7) == if r.date == "element" then "" else Truncate(r.element, 7)
  {
    if r.date == "element" {
      TextTaken("date", "element", AtElement(r, rest), 7);
    } else {
      SkipField("date", r.date, ",", AtElement(r, rest), "element", "");
      FindSkips(AtDate(r, rest), AtElement(r, rest), "element", 7);
      NameFound("element", r.element, "," + AtValue(r, rest), 7);
    }
  }

  lemma StationIsElement(r: Row, rest: string)
    requires r.station == "element"
    ensures FindField(AtStation(r, rest), "element", 7) == ""
  {
    TextTaken("station_id", "element", AtDate(r, rest), 7);
  }

  lemma ElementFromStation(r: Row, rest: string)
    requires Quotable(r) && r.station != "element"
    ensures FindField(AtStation(r, rest), "element", 7) == FindField(AtDate(r, rest), "element", 7)
  {
    SkipField("station_id", r.station, ",", AtDate(r, rest), "element", "");
    FindSkips(AtStation(r, rest), AtDate(r, rest), "element", 7);
  }

  lemma ElementRead(r: Row, rest: string)
    requires Quotable(r)
    ensures FindField(AtStation(r, rest), "element", 7) ==
            if r.station == "element" || r.date == "element" then "" else Truncate(r.element, 7)
  {
    if r.station == "element" {
      StationIsElement(r, rest);
    } else {
      ElementFromStation(r, rest);
      ElementReadFromDate(r, rest);
    }
  }

  lemma NamesAreQuoteFree()
    ensures QuoteFree("station_id") && QuoteFree("date") && QuoteFree("element") && QuoteFree("value")
    ensures QuoteFree("mflag") && QuoteFree("qflag") && QuoteFree("sflag")
    ensures QuoteFree("offset") && QuoteFree("limit") && QuoteFree("total") && QuoteFree("count")
  {
  }

  // No text of the row carries the key.
  ghost predicate Passes(r: Row, key: string) {
    !Carries(r.station, key) && !Carries(r.date, key) && !Carries(r.element, key)
  }

  lemma PlainRowPasses(r: Row, key: string)
    requires QuotableTexts(r)
    ensures Passes(r, key)
  {
    PlainCarriesNothing(r.station, key);
    PlainCarriesNothing(r.date, key);
    PlainCarriesNothing(r.element, key);
  }

  // From the station on, a key with a colon that is none of the row's own is looked for further on.
  lemma SkipToValue(r: Row, rest: string, key: string)
    requires Passes(r, key) && QuoteFree(key) && Separates(":", key) && Separates(",", key)
    requires key != "station_id" && key != "date" && key != "element"
    ensures StrStr(AtStation(r, rest), Pattern(key, ":")) == StrStr(AtValue(r, rest), Pattern(key, ":"))
  {
    NamesAreQuoteFree();
    PassField("station_id", r.station, ",", AtDate(r, rest), key);
    PassField("date", r.date, ",", AtElement(r, rest), key);
    PassField("element", r.element, ",", AtValue(r, rest), key);
  }

  lemma NumberFound(key: string, rest: string)
    ensures FindNumber(Quote(key, ":" + rest), key) == Some(rest)
  {
    Hit(key, ":", rest);
    assert Quote(key, ":" + rest)[|Pattern(key, ":")|..] == rest;
  }

  lemma ValueReadThere(r: Row, rest: string)
    ensures FindValue(AtValue(r, rest)) == Text.Hundredths(r.value) as real / 100.0
  {
    var flags := FlagsText(r, rest);
    NumberThen(PrintReal(r.value), flags);
    NumberFound("value", PrintReal(r.value) + ("," + flags));
    RealRoundTrip(r.value, "," + flags);
  }

  lemma ValueRead(r: Row, rest: string)
    requires Quotable(r)
    ensures FindValue(AtStation(r, rest)) == Text.Hundredths(r.value) as real / 100.0
  {
    PlainRowPasses(r, "value");
    SkipToValue(r, rest, "value");
    ValueReadThere(r, rest);
  }

  lemma RecordOf(p: string, r: Record)
    requires ScanField(p, "station_id", 31) == r.station && FindField(p, "date", 15) == r.date
    requires FindField(p, "element", 7) == r.element && FindValue(p) == r.value
    ensures RecordAt(p) == if r.station != [] && r.date != [] && r.element != [] then [r] else []
  {
  }

  // What the field scans of a row bring in: a key taken for a text leaves its field empty.
  function Scanned(r: Row): Record {
    Record(Truncate(r.station, 31),
           if r.station == "date" then "" else Truncate(r.date, 15),
           if r.station == "element" || r.date == "element" then "" else Truncate(r.element, 7),
           Text.Hundredths(r.value) as real / 100.0)
  }

  lemma ScannedIsRead(r: Row)
    ensures (Scanned(r).station != [] && Scanned(r).date != [] && Scanned(r).element != []) == Recoverable(r)
    ensures Recoverable(r) ==> Scanned(r) == Read(r)
  {
  }

  lemma RecordRead(r: Row, rest: string)
    requires Quotable(r)
    ensures RecordAt(AtStation(r, rest)) == if Recoverable(r) then [Read(r)] else []
  {
    FieldRead("station_id", r.station, "," + AtDate(r, rest), 31);
    DateRead(r, rest);
    ElementRead(r, rest);
    ValueRead(r, rest);
    RecordOf(AtStation(r, rest), Scanned(r));
    ScannedIsRead(r);
  }

  // --- All records of a page ---

  lemma SameFirstSameRecords(t: string, u: string)
    requires StrStr(t, Pattern("station_id", "")) == StrStr(u, Pattern("station_id", ""))
    ensures ScanRecords(t) == ScanRecords(u)
  {
  }

  // A quoted word that is not a "station_id" name adds no record, even if its text is "station_id".
  lemma Eat(word: string, sep: string, t: string)
    requires QuoteFree(word) && QuoteFree(sep) && t != [] && t[0] == '"'
    requires sep != [] && sep[0] != 's' && (word == "station_id" ==> sep[0] != ':')
    ensures ScanRecords(Quote(word, sep + t)) == ScanRecords(t)
  {
    NamesAreQuoteFree();
    if word == "station_id" {
      Hit("station_id", "", sep + t);
      NothingBefore(sep + t);
      FieldMissing("station_id", sep + t, 31);
      AfterQuote(word, sep + t);
      SkipWord(word, sep, t, "station_id", "");
      SameFirstSameRecords(Quote("station_id", sep + t)[1..], t);
    } else {
      Skip(word, sep, t, "station_id", "");
      SameFirstSameRecords(Quote(word, sep + t), t);
    }
  }

  lemma EatField(name: string, text: string, end: string, t: string)
    requires QuoteFree(name) && FlagText(text) && QuoteFree(end) && t != [] && t[0] == '"'
    requires name != "station_id" && end != [] && end[0] != ':' && end[0] != 's'
    ensures ScanRecords(Quote(name, ":" + Quote(text, end + t))) == ScanRecords(t)
  {
    QuoteHead(text, end + t);
    Eat(name, ":", Quote(text, end + t));
    if QuoteFree(text) {
      Eat(text, end, t);
    } else {
      NamesAreQuoteFree();
      SkipQuoteText(end, t, "station_id", "");
      SameFirstSameRecords(Quote(text, end + t), t);
    }
  }

  lemma NumbersAreQuoteFree(n: int, v: real)
    ensures QuoteFree(PrintInt(n)) && QuoteFree(PrintReal(v))
  {
    var abs := Abs(Text.Hundredths(v));
    PrintedPartsAreQuoteFree(n < 0, if n < 0 then -n else n, 0, 0);
    PrintedPartsAreQuoteFree(v < 0.0, abs / 100, abs / 10 % 10, abs % 10);
  }

  lemma PrintedPartsAreQuoteFree(negative: bool, a: nat, b: nat, c: nat)
    requires b < 10 && c < 10
    ensures QuoteFree(SignText(negative) + PrintNat(a)) && QuoteFree(SignText(negative) + PrintParts(a, b, c))
  {
    var s := PrintNat(a);
    forall i | 0 <= i < |s| ensures s[i] != '"' {
      assert s[i] in s;
    }
  }

  lemma SflagAddsNothing(r: Row, u: string, t: string)
    requires QuotableFlags(r) && QuoteFree(u) && t != [] && t[0] == '"'
    ensures ScanRecords(AtSflag(r, u + t)) == ScanRecords(t)
  {
    NamesAreQuoteFree();
    Concat("}", u, t);
    EatField("sflag", r.sflag, "}" + u, t);
  }

  lemma FlagsAddNothing(r: Row, u: string, t: string)
    requires QuotableFlags(r) && QuoteFree(u) && t != [] && t[0] == '"'
    ensures ScanRecords(FlagsText(r, u + t)) == ScanRecords(t)
  {
    NamesAreQuoteFree();
    SflagAddsNothing(r, u, t);
    EatField("qflag", r.qflag, ",", AtSflag(r, u + t));
    EatField("mflag", r.mflag, ",", AtQflag(r, u + t));
  }

  lemma DateAddsNothing(r: Row, u: string, t: string)
    requires QuoteFree(r.date) && QuoteFree(r.element) && QuotableFlags(r) && QuoteFree(u) && t != [] && t[0] == '"'
    ensures ScanRecords(AtDate(r, u + t)) == ScanRecords(t)
  {
    NamesAreQuoteFree();
    NumbersAreQuoteFree(0, r.value);
    NumberThen(PrintReal(r.value), FlagsText(r, u + t));
    FlagsAddNothing(r, u, t);
    Eat("value", Number(PrintReal(r.value)), FlagsText(r, u + t));
    EatField("element", r.element, ",", AtValue(r, u + t));
    EatField("date", r.date, ",", AtElement(r, u + t));
  }

  lemma RestAddsNothing(r: Row, u: string, t: string)
    requires Quotable(r) && QuoteFree(u) && t != [] && t[0] == '"'
    ensures ScanRecords(AtStationText(r, u + t)) == ScanRecords(t)
  {
    DateAddsNothing(r, u, t);
    Eat(r.station, ",", AtDate(r, u + t));
  }

  // The first "station_id" is a record, and the search goes on behind its opening quote.
  lemma FirstRecord(text: string)
    requires text != [] && text[0] == '"'
    ensures var p := Quote("station_id", ":" + text);
      ScanRecords(p) == RecordAt(p) + ScanRecords(text)
  {
    var p := Quote("station_id", ":" + text);
    NamesAreQuoteFree();
    Hit("station_id", "", ":" + text);
    NothingBefore(":" + text);
    AfterQuote("station_id", ":" + text);
    SkipWord("station_id", ":", text, "station_id", "");
    SameFirstSameRecords(p[1..], text);
  }

  // A row adds its record if it is recoverable, and nothing otherwise.
  lemma RowScanned(r: Row, u: string, t: string)
    requires Quotable(r) && QuoteFree(u) && t != [] && t[0] == '"'
    ensures ScanRecords(AtStation(r, u + t)) == (if Recoverable(r) then [Read(r)] else []) + ScanRecords(t)
  {
    QuoteHead(r.station, "," + AtDate(r, u + t));
    FirstRecord(AtStationText(r, u + t));
    RecordRead(r, u + t);
    RestAddsNothing(r, u, t);
  }

  // The rows up to the first quote of what follows, and from there on.
  function Lead(rows: seq<Row>, first: bool): string {
    if rows == [] then "]," else if first then "{" else ",{"
  }

  function FromQuote(rows: seq<Row>, tail: string): string {
    if rows == [] then tail else AtStation(rows[0], RowsText(rows[1..], false, "]," + tail))
  }

  lemma Braces(t: string)
    ensures "" + ("{" + t) == "{" + t && "," + ("{" + t) == ",{" + t
  {
  }

  lemma RowSplit(r: Row, first: bool, rest: string)
    ensures (if first then "" else ",") + RowText(r, rest) == (if first then "{" else ",{") + AtStation(r, rest)
    ensures AtStation(r, rest) != [] && AtStation(r, rest)[0] == '"'
  {
    QuoteHead("station_id", ":" + AtStationText(r, rest));
    Braces(AtStation(r, rest));
  }

  lemma RowsBegin(rows: seq<Row>, first: bool, tail: string)
    requires tail != [] && tail[0] == '"'
    ensures FromQuote(rows, tail) != [] && FromQuote(rows, tail)[0] == '"' && QuoteFree(Lead(rows, first))
  {
    if rows != [] { QuoteHead("station_id", ":" + AtStationText(rows[0], RowsText(rows[1..], false, "]," + tail))); }
  }

  lemma RowsSplit(rows: seq<Row>, first: bool, tail: string)
    requires tail != [] && tail[0] == '"'
    ensures RowsText(rows, first, "]," + tail) == Lead(rows, first) + FromQuote(rows, tail)
    ensures FromQuote(rows, tail) != [] && FromQuote(rows, tail)[0] == '"' && QuoteFree(Lead(rows, first))
  {
    RowsBegin(rows, first, tail);
    if rows != [] { RowSplit(rows[0], first, RowsText(rows[1..], false, "]," + tail)); }
  }

  ghost predicate AllQuotable(rows: seq<Row>) {
    forall i :: 0 <= i < |rows| ==> Quotable(rows[i])
  }

  lemma TailIsQuotable(rows: seq<Row>)
    requires AllQuotable(rows) && rows != []
    ensures AllQuotable(rows[1..]) && Quotable(rows[0])
  {
  }

  // The first row adds its record.
  lemma OneRowMore(rows: seq<Row>, tail: string)
    requires AllQuotable(rows) && rows != [] && tail != [] && tail[0] == '"'
    ensures ScanRecords(FromQuote(rows, tail)) ==
            (if Recoverable(rows[0]) then [Read(rows[0])] else []) + ScanRecords(FromQuote(rows[1..], tail))
  {
    RowsSplit(rows[1..], false, tail);
    RowScanned(rows[0], Lead(rows[1..], false), FromQuote(rows[1..], tail));
  }

  lemma {:induction false} RowsScanned(rows: seq<Row>, tail: string)
    requires AllQuotable(rows) && tail != [] && tail[0] == '"'
    ensures ScanRecords(FromQuote(rows, tail)) == ReadAll(rows) + ScanRecords(tail)
  {
    if rows == [] {
      assert [] + ScanRecords(tail) == ScanRecords(tail);
    } else {
      TailIsQuotable(rows);
      OneRowMore(rows, tail);
      RowsScanned(rows[1..], tail);
      Concat(if Recoverable(rows[0]) then [Read(rows[0])] else [], ReadAll(rows[1..]), ScanRecords(tail));
    }
  }

  // --- Numbers of the trailer ---

  lemma TotalAddsNothing(total: int, count: int)
    ensures ScanRecords(AtTotal(total, count)) == []
  {
    NamesAreQuoteFree();
    NumbersAreQuoteFree(total, 0.0);
    NumbersAreQuoteFree(count, 0.0);
    NumberThen(PrintInt(total), "");
    Eat("total", Number(PrintInt(total)), AtCount(count));
    SkipLast("count", ":" + (PrintInt(count) + "}"), "station_id", "");
  }

  lemma TrailerAddsNothing(offset: int, limit: int, total: int, count: int)
    ensures ScanRecords(AtOffset(offset, limit, total, count)) == []
  {
    NamesAreQuoteFree();
    NumbersAreQuoteFree(offset, 0.0);
    NumbersAreQuoteFree(limit, 0.0);
    NumberThen(PrintInt(offset), "");
    NumberThen(PrintInt(limit), "");
    Eat("offset", Number(PrintInt(offset)), AtLimit(limit, total, count));
    Eat("limit", Number(PrintInt(limit)), AtTotal(total, count));
    TotalAddsNothing(total, count);
  }

  // The names of the trailer; no row has a field of that name.
  predicate TrailerKey(key: string) {
    key == "offset" || key == "limit" || key == "total" || key == "count"
  }

  lemma TrailerKeyFacts(key: string)
    requires TrailerKey(key)
    ensures QuoteFree(key) && Separates(":", key) && Separates(",", key) && Separates("}", key)
    ensures key != "station_id" && key != "date" && key != "element" && key != "value"
    ensures key != "mflag" && key != "qflag" && key != "sflag" && key != "data"
  {
  }

  // "name":number, is skipped when the name is not the key.
  lemma SkipNumber(name: string, digits: string, t: string, key: string)
    requires QuoteFree(name) && QuoteFree(digits) && QuoteFree(key) && t != [] && t[0] == '"'
    requires name != key && Separates(":", key)
    ensures StrStr(Quote(name, Number(digits) + t), Pattern(key, ":")) == StrStr(t, Pattern(key, ":"))
  {
    NumberThen(digits, t);
    Skip(name, Number(digits), t, key, ":");
  }

  lemma SflagSkipped(r: Row, u: string, t: string, key: string)
    requires QuotableFlags(r) && QuoteFree(u) && t != [] && t[0] == '"' && TrailerKey(key)
    ensures StrStr(AtSflag(r, u + t), Pattern(key, ":")) == StrStr(t, Pattern(key, ":"))
  {
    NamesAreQuoteFree();
    TrailerKeyFacts(key);
    Concat("}", u, t);
    SkipField("sflag", r.sflag, "}" + u, t, key, ":");
  }

  lemma FlagsSkipped(r: Row, u: string, t: string, key: string)
    requires QuotableFlags(r) && QuoteFree(u) && t != [] && t[0] == '"' && TrailerKey(key)
    ensures StrStr(FlagsText(r, u + t), Pattern(key, ":")) == StrStr(t, Pattern(key, ":"))
  {
    NamesAreQuoteFree();
    TrailerKeyFacts(key);
    SflagSkipped(r, u, t, key);
    SkipField("qflag", r.qflag, ",", AtSflag(r, u + t), key, ":");
    SkipField("mflag", r.mflag, ",", AtQflag(r, u + t), key, ":");
  }

  lemma RowSkipped(r: Row, u: string, t: string, key: string)
    requires QuotableFlags(r) && Passes(r, key) && QuoteFree(u) && t != [] && t[0] == '"' && TrailerKey(key)
    ensures StrStr(AtStation(r, u + t), Pattern(key, ":")) == StrStr(t, Pattern(key, ":"))
  {
    NamesAreQuoteFree();
    TrailerKeyFacts(key);
    NumbersAreQuoteFree(0, r.value);
    SkipToValue(r, u + t, key);
    QuoteHead("mflag", ":" + Quote(r.mflag, "," + AtQflag(r, u + t)));
    SkipNumber("value", PrintReal(r.value), FlagsText(r, u + t), key);
    FlagsSkipped(r, u, t, key);
  }

  // Flags that fit the page, whatever the texts are.
  ghost predicate AllFlags(rows: seq<Row>) {
    forall i :: 0 <= i < |rows| ==> QuotableFlags(rows[i])
  }

  ghost predicate AllPass(rows: seq<Row>, key: string) {
    forall i :: 0 <= i < |rows| ==> Passes(rows[i], key)
  }

  lemma OneRowSkipped(rows: seq<Row>, tail: string, key: string)
    requires rows != [] && QuotableFlags(rows[0]) && Passes(rows[0], key)
    requires tail != [] && tail[0] == '"' && TrailerKey(key)
    ensures StrStr(FromQuote(rows, tail), Pattern(key, ":")) == StrStr(FromQuote(rows[1..], tail), Pattern(key, ":"))
  {
    RowsSplit(rows[1..], false, tail);
    RowSkipped(rows[0], Lead(rows[1..], false), FromQuote(rows[1..], tail), key);
  }

  // The key is found in front of the last |t| characters.
  ghost predicate StopsBefore(s: string, t: string, key: string) {
    var found := StrStr(s, Pattern(key, ":")); found.Some? && |found.value| > |t|
  }

  lemma StillStops(s: string, u: string, t: string, key: string)
    requires StrStr(s, Pattern(key, ":")) == StrStr(u, Pattern(key, ":")) && StopsBefore(u, t, key)
    ensures StopsBefore(s, t, key)
  {
  }

  lemma ElementStops(r: Row, rest: string, key: string)
    requires Carries(r.element, key) && TrailerKey(key)
    ensures StopsBefore(AtElement(r, rest), rest, key)
  {
    NamesAreQuoteFree();
    TrailerKeyFacts(key);
    StopAtField("element", r.element, "," + AtValue(r, rest), key);
  }

  lemma DateStops(r: Row, rest: string, key: string)
    requires (Carries(r.date, key) || Carries(r.element, key)) && TrailerKey(key)
    ensures StopsBefore(AtDate(r, rest), rest, key)
  {
    NamesAreQuoteFree();
    TrailerKeyFacts(key);
    if Carries(r.date, key) {
      StopAtField("date", r.date, "," + AtElement(r, rest), key);
    } else {
      PassField("date", r.date, ",", AtElement(r, rest), key);
      ElementStops(r, rest, key);
      StillStops(AtDate(r, rest), AtElement(r, rest), rest, key);
    }
  }

  lemma StationStops(r: Row, rest: string, key: string)
    requires Carries(r.station, key) && TrailerKey(key)
    ensures StopsBefore(AtStation(r, rest), rest, key)
  {
    NamesAreQuoteFree();
    TrailerKeyFacts(key);
    StopAtField("station_id", r.station, "," + AtDate(r, rest), key);
  }

  lemma StationPasses(r: Row, rest: string, key: string)
    requires !Carries(r.station, key) && TrailerKey(key)
    ensures StrStr(AtStation(r, rest), Pattern(key, ":")) == StrStr(AtDate(r, rest), Pattern(key, ":"))
  {
    NamesAreQuoteFree();
    TrailerKeyFacts(key);
    PassField("station_id", r.station, ",", AtDate(r, rest), key);
  }

  // A row with a text that carries the key stops the search.
  lemma RowStops(r: Row, rest: string, key: string)
    requires !Passes(r, key) && TrailerKey(key)
    ensures StopsBefore(AtStation(r, rest), rest, key)
  {
    if Carries(r.station, key) {
      StationStops(r, rest, key);
    } else {
      StationPasses(r, rest, key);
      DateStops(r, rest, key);
      StillStops(AtStation(r, rest), AtDate(r, rest), rest, key);
    }
  }

  lemma RowsAreLonger(rows: seq<Row>, first: bool, rest: string)
    ensures |RowsText(rows, first, rest)| >= |rest|
  {
    if rows != [] { RowsAreLonger(rows[1..], false, rest); }
  }

  lemma FirstOfAll(rows: seq<Row>, key: string)
    requires AllFlags(rows) && rows != []
    ensures QuotableFlags(rows[0]) && AllFlags(rows[1..])
    ensures AllPass(rows, key) <==> Passes(rows[0], key) && AllPass(rows[1..], key)
  {
    assert forall i :: 1 <= i < |rows| ==> rows[i] == rows[1..][i - 1];
  }

  lemma FirstRowStops(rows: seq<Row>, tail: string, key: string)
    requires rows != [] && !Passes(rows[0], key) && TrailerKey(key)
    ensures StopsBefore(FromQuote(rows, tail), tail, key)
  {
    RowsAreLonger(rows[1..], false, "]," + tail);
    RowStops(rows[0], RowsText(rows[1..], false, "]," + tail), key);
  }

  // From the first quote on, the rows are passed over when no text carries the key.
  lemma {:induction false} RowsSkipped(rows: seq<Row>, tail: string, key: string)
    requires AllFlags(rows) && AllPass(rows, key) && tail != [] && tail[0] == '"' && TrailerKey(key)
    ensures StrStr(FromQuote(rows, tail), Pattern(key, ":")) == StrStr(tail, Pattern(key, ":"))
  {
    if rows != [] {
      FirstOfAll(rows, key);
      OneRowSkipped(rows, tail, key);
      RowsSkipped(rows[1..], tail, key);
    }
  }

  lemma LaterRowStops(rows: seq<Row>, tail: string, key: string)
    requires rows != [] && QuotableFlags(rows[0]) && Passes(rows[0], key)
    requires tail != [] && tail[0] == '"' && TrailerKey(key)
    requires StopsBefore(FromQuote(rows[1..], tail), tail, key)
    ensures StopsBefore(FromQuote(rows, tail), tail, key)
  {
    OneRowSkipped(rows, tail, key);
    StillStops(FromQuote(rows, tail), FromQuote(rows[1..], tail), tail, key);
  }

  // Otherwise the search stops in them.
  lemma {:induction false} RowsStop(rows: seq<Row>, tail: string, key: string)
    requires AllFlags(rows) && !AllPass(rows, key) && tail != [] && tail[0] == '"' && TrailerKey(key)
    ensures StopsBefore(FromQuote(rows, tail), tail, key)
  {
    FirstOfAll(rows, key);
    if Passes(rows[0], key) {
      RowsStop(rows[1..], tail, key);
      LaterRowStops(rows, tail, key);
    } else {
      FirstRowStops(rows, tail, key);
    }
  }

  lemma ToTotal(offset: int, limit: int, total: int, count: int, key: string)
    requires key == "total" || key == "count"
    ensures StrStr(AtOffset(offset, limit, total, count), Pattern(key, ":")) ==
            StrStr(AtTotal(total, count), Pattern(key, ":"))
  {
    NamesAreQuoteFree();
    TrailerKeyFacts(key);
    NumbersAreQuoteFree(offset, 0.0);
    NumbersAreQuoteFree(limit, 0.0);
    QuoteHead("limit", Number(PrintInt(limit)) + AtTotal(total, count));
    QuoteHead("total", Number(PrintInt(total)) + AtCount(count));
    SkipNumber("offset", PrintInt(offset), AtLimit(limit, total, count), key);
    SkipNumber("limit", PrintInt(limit), AtTotal(total, count), key);
  }

  lemma TotalFound(total: int, count: int)
    ensures FindNumber(AtTotal(total, count), "total") == Some(PrintInt(total) + ("," + AtCount(count)))
  {
    NumberThen(PrintInt(total), AtCount(count));
    NumberFound("total", PrintInt(total) + ("," + AtCount(count)));
  }

  lemma CountFound(total: int, count: int)
    ensures FindNumber(AtTotal(total, count), "count") == Some(PrintInt(count) + "}")
  {
    NamesAreQuoteFree();
    TrailerKeyFacts("count");
    NumbersAreQuoteFree(total, 0.0);
    QuoteHead("count", ":" + (PrintInt(count) + "}"));
    SkipNumber("total", PrintInt(total), AtCount(count), "count");
    NumberFound("count", PrintInt(count) + "}");
  }

  // --- The page round trip ---

  // The page as the opening brace, the word data, and the rows from the first quote on.
  lemma PageSplit(rows: seq<Row>, offset: int, limit: int, total: int)
    ensures var tail := AtOffset(offset, limit, total, |rows|);
      && tail != [] && tail[0] == '"'
      && FromQuote(rows, tail) != [] && FromQuote(rows, tail)[0] == '"'
      && Page(rows, offset, limit, total) == "{" + Quote("data", (": [" + Lead(rows, true)) + FromQuote(rows, tail))
  {
    var tail := AtOffset(offset, limit, total, |rows|);
    QuoteHead("offset", Number(PrintInt(offset)) + AtLimit(limit, total, |rows|));
    RowsSplit(rows, true, tail);
    Concat(": [", Lead(rows, true), FromQuote(rows, tail));
  }

  lemma DataSeparator(lead: string)
    requires QuoteFree(lead)
    ensures QuoteFree(": [" + lead) && ": [" + lead != [] && (": [" + lead)[0] == ':'
    ensures QuoteFree("{") && QuoteFree("data")
  {
  }

  lemma DataAddsNothing(lead: string, t: string)
    requires QuoteFree(lead) && t != [] && t[0] == '"'
    ensures ScanRecords("{" + Quote("data", (": [" + lead) + t)) == ScanRecords(t)
  {
    DataSeparator(lead);
    AfterBrace(Quote("data", (": [" + lead) + t), Pattern("station_id", ""));
    SameFirstSameRecords("{" + Quote("data", (": [" + lead) + t), Quote("data", (": [" + lead) + t));
    Eat("data", ": [" + lead, t);
  }

  lemma AfterBrace(t: string, pattern: string)
    requires pattern != [] && pattern[0] == '"'
    ensures StrStr("{" + t, pattern) == StrStr(t, pattern)
  {
    StrStrSkipsFree("{", t, pattern);
  }

  lemma DataSkipped(lead: string, t: string, key: string)
    requires QuoteFree(lead) && t != [] && t[0] == '"' && TrailerKey(key)
    ensures StrStr("{" + Quote("data", (": [" + lead) + t), Pattern(key, ":")) == StrStr(t, Pattern(key, ":"))
  {
    DataSeparator(lead);
    TrailerKeyFacts(key);
    QuoteHead(key, ":");
    AfterBrace(Quote("data", (": [" + lead) + t), Pattern(key, ":"));
    Skip("data", ": [" + lead, t, key, ":");
  }

  lemma LeadIsQuoteFree(rows: seq<Row>, first: bool)
    ensures QuoteFree(Lead(rows, first))
  {
  }

  lemma RowsOfPage(rows: seq<Row>, tail: string, page: string)
    requires AllQuotable(rows) && tail != [] && tail[0] == '"' && ScanRecords(tail) == []
    requires FromQuote(rows, tail) != [] && FromQuote(rows, tail)[0] == '"'
    requires page == "{" + Quote("data", (": [" + Lead(rows, true)) + FromQuote(rows, tail))
    ensures ScanRecords(page) == ReadAll(rows)
  {
    LeadIsQuoteFree(rows, true);
    DataAddsNothing(Lead(rows, true), FromQuote(rows, tail));
    RowsScanned(rows, tail);
    assert ReadAll(rows) + [] == ReadAll(rows);
  }

  // For every list of rows without quotes in their texts, the aggregator reads back exactly the
  // recoverable ones, in order, with the value rounded to two decimals.
  lemma PageRecordsRoundTrip(rows: seq<Row>, offset: int, limit: int, total: int)
    requires AllQuotable(rows)
    ensures ScanRecords(Page(rows, offset, limit, total)) == ReadAll(rows)
  {
    PageSplit(rows, offset, limit, total);
    TrailerAddsNothing(offset, limit, total, |rows|);
    RowsOfPage(rows, AtOffset(offset, limit, total, |rows|), Page(rows, offset, limit, total));
  }

  lemma SameNumber(t: string, u: string, key: string)
    requires StrStr(t, Pattern(key, ":")) == StrStr(u, Pattern(key, ":"))
    ensures FindNumber(t, key) == FindNumber(u, key)
  {
  }

  lemma RowsPassedIff(rows: seq<Row>, tail: string, page: string, key: string)
    requires AllFlags(rows) && TrailerKey(key) && tail != [] && tail[0] == '"'
    requires FromQuote(rows, tail) != [] && FromQuote(rows, tail)[0] == '"'
    requires page == "{" + Quote("data", (": [" + Lead(rows, true)) + FromQuote(rows, tail))
    ensures StrStr(page, Pattern(key, ":")) == StrStr(tail, Pattern(key, ":")) <==> AllPass(rows, key)
  {
    LeadIsQuoteFree(rows, true);
    DataSkipped(Lead(rows, true), FromQuote(rows, tail), key);
    if AllPass(rows, key) { RowsSkipped(rows, tail, key); } else { RowsStop(rows, tail, key); }
  }

  // For rows with any texts: the search for a number of the trailer arrives there if and only if no text
  // holds the quoted name with its colon.
  lemma TrailerReachedIff(rows: seq<Row>, offset: int, limit: int, total: int, key: string)
    requires AllFlags(rows) && (key == "total" || key == "count")
    ensures var (page, there) := (Page(rows, offset, limit, total), AtTotal(total, |rows|));
      StrStr(page, Pattern(key, ":")) == StrStr(there, Pattern(key, ":")) <==> AllPass(rows, key)
  {
    var tail := AtOffset(offset, limit, total, |rows|);
    PageSplit(rows, offset, limit, total);
    RowsPassedIff(rows, tail, Page(rows, offset, limit, total), key);
    ToTotal(offset, limit, total, |rows|, key);
  }

  lemma NumberRead(t: string, there: string, key: string, digits: string, v: int, default: int)
    requires FindNumber(t, key) == FindNumber(there, key) == Some(digits) && ScanInt(digits) == Some(v)
    ensures FindInt(t, key, default) == v
  {
  }

  // The rows leave both numbers of the trailer to be found.
  ghost predicate NumbersShow(rows: seq<Row>) {
    AllFlags(rows) && AllPass(rows, "total") && AllPass(rows, "count")
  }

  lemma PlainNumbersShow(rows: seq<Row>)
    requires AllQuotable(rows)
    ensures NumbersShow(rows)
  {
    forall i | 0 <= i < |rows| ensures Passes(rows[i], "total") && Passes(rows[i], "count") {
      PlainRowPasses(rows[i], "total");
      PlainRowPasses(rows[i], "count");
    }
  }

  lemma PageTotalRoundTrip(rows: seq<Row>, offset: int, limit: int, total: int, default: int)
    requires AllFlags(rows) && AllPass(rows, "total")
    ensures FindInt(Page(rows, offset, limit, total), "total", default) == total
  {
    var page, there := Page(rows, offset, limit, total), AtTotal(total, |rows|);
    TrailerReachedIff(rows, offset, limit, total, "total");
    SameNumber(page, there, "total");
    TotalFound(total, |rows|);
    CommaNext(AtCount(|rows|));
    IntRoundTrip(total, "," + AtCount(|rows|));
    NumberRead(page, there, "total", PrintInt(total) + ("," + AtCount(|rows|)), total, default);
  }

  lemma PageCountRoundTrip(rows: seq<Row>, offset: int, limit: int, total: int, default: int)
    requires AllFlags(rows) && AllPass(rows, "count")
    ensures FindInt(Page(rows, offset, limit, total), "count", default) == |rows|
  {
    var page, there := Page(rows, offset, limit, total), AtTotal(total, |rows|);
    TrailerReachedIff(rows, offset, limit, total, "count");
    SameNumber(page, there, "count");
    CountFound(total, |rows|);
    IntRoundTrip(|rows|, "}");
    NumberRead(page, there, "count", PrintInt(|rows|) + "}", |rows|, default);
  }

  // Then the total and the count are read back.
  lemma PageNumbersRoundTrip(rows: seq<Row>, offset: int, limit: int, total: int, default: int)
    requires NumbersShow(rows)
    ensures FindInt(Page(rows, offset, limit, total), "total", default) == total
    ensures FindInt(Page(rows, offset, limit, total), "count", default) == |rows|
  {
    PageTotalRoundTrip(rows, offset, limit, total, default);
    PageCountRoundTrip(rows, offset, limit, total, default);
  }

  lemma OffsetThere(offset: int, limit: int, total: int, count: int, default: int)
    ensures FindInt(AtOffset(offset, limit, total, count), "offset", default) == offset
  {
    var after := AtLimit(limit, total, count);
    NumberThen(PrintInt(offset), after);
    NumberFound("offset", PrintInt(offset) + ("," + after));
    CommaNext(after);
    IntRoundTrip(offset, "," + after);
  }

  lemma LimitThere(offset: int, limit: int, total: int, count: int, default: int)
    ensures FindInt(AtOffset(offset, limit, total, count), "limit", default) == limit
  {
    var there, after := AtLimit(limit, total, count), AtTotal(total, count);
    NamesAreQuoteFree();
    TrailerKeyFacts("limit");
    NumbersAreQuoteFree(offset, 0.0);
    QuoteHead("limit", Number(PrintInt(limit)) + after);
    SkipNumber("offset", PrintInt(offset), there, "limit");
    SameInt(AtOffset(offset, limit, total, count), there, "limit", default);
    NumberThen(PrintInt(limit), after);
    NumberFound("limit", PrintInt(limit) + ("," + after));
    CommaNext(after);
    IntRoundTrip(limit, "," + after);
  }

  // From any rows whose texts do not carry their names, the offset and the limit are read back too.
  lemma PageWindowRoundTrip(rows: seq<Row>, offset: int, limit: int, total: int, default: int)
    requires AllFlags(rows)
    ensures AllPass(rows, "offset") ==> FindInt(Page(rows, offset, limit, total), "offset", default) == offset
    ensures AllPass(rows, "limit") ==> FindInt(Page(rows, offset, limit, total), "limit", default) == limit
  {
    var page, tail := Page(rows, offset, limit, total), AtOffset(offset, limit, total, |rows|);
    PageSplit(rows, offset, limit, total);
    RowsPassedIff(rows, tail, page, "offset");
    RowsPassedIff(rows, tail, page, "limit");
    if AllPass(rows, "offset") {
      SameInt(page, tail, "offset", default);
      OffsetThere(offset, limit, total, |rows|, default);
    }
    if AllPass(rows, "limit") {
      SameInt(page, tail, "limit", default);
      LimitThere(offset, limit, total, |rows|, default);
    }
  }

  lemma CommaNext(t: string)
    ensures "," + t != [] && !IsDigit(("," + t)[0])
  {
  }

  // Nothing lost and nothing cut, but for the rounding of the value.
  function Exactly(r: Row): Record {
    Record(r.station, r.date, r.element, Text.Hundredths(r.value) as real / 100.0)
  }

  function AllExactly(rows: seq<Row>): seq<Record> {
    seq(|rows|, i requires 0 <= i < |rows| => Exactly(rows[i]))
  }

  // The texts are there, none is taken for the name of a later key, and they fit the reader's buffers.
  predicate Fitting(r: Row) {
    Recoverable(r) && |r.station| <= 31 && |r.date| <= 15 && |r.element| <= 7
  }

  lemma ReadIff(r: Row)
    ensures Recoverable(r) && Read(r) == Exactly(r) <==> Fitting(r)
  {
  }

  lemma {:induction false} ReadAllIff(rows: seq<Row>)
    ensures |ReadAll(rows)| <= |rows|
    ensures ReadAll(rows) == AllExactly(rows) <==> forall i :: 0 <= i < |rows| ==> Fitting(rows[i])
  {
    if rows != [] {
      ReadAllIff(rows[1..]);
      assert AllExactly(rows) == [Exactly(rows[0])] + AllExactly(rows[1..]);
      assert forall i :: 1 <= i < |rows| ==> rows[i] == rows[1..][i - 1];
      ReadIff(rows[0]);
      if ReadAll(rows) == AllExactly(rows) {
        assert Recoverable(rows[0]);
        assert ReadAll(rows)[1..] == ReadAll(rows[1..]) && AllExactly(rows)[1..] == AllExactly(rows[1..]);
      }
    }
  }

  // --- What is never read ---

  ghost predicate QuoteFreeRecord(r: Record) {
    QuoteFree(r.station) && QuoteFree(r.date) && QuoteFree(r.element)
  }

  lemma FieldIsQuoteFree(t: string, key: string, width: nat)
    ensures QuoteFree(ScanField(t, key, width)) && QuoteFree(FindField(t, key, width))
  {
  }

  lemma RecordIsQuoteFree(p: string)
    ensures forall r :: r in RecordAt(p) ==> QuoteFreeRecord(r)
  {
    FieldIsQuoteFree(p, "station_id", 31);
    FieldIsQuoteFree(p, "date", 15);
    FieldIsQuoteFree(p, "element", 7);
  }

  // No record that is read has a quote in a text.
  lemma {:induction false} RecordsAreQuoteFree(t: string)
    ensures forall r :: r in ScanRecords(t) ==> QuoteFreeRecord(r)
    decreases |t|
  {
    var ptr := StrStr(t, Pattern("station_id", ""));
    if ptr.Some? {
      RecordIsQuoteFree(ptr.value);
      RecordsAreQuoteFree(ptr.value[1..]);
    }
  }

  // A row comes back as itself.
  ghost predicate Survives(r: Row) {
    QuotableTexts(r) && Fitting(r)
  }

  lemma SurvivesIff(r: Row)
    ensures Survives(r) <==>
            && QuoteFree(r.station) && QuoteFree(r.date) && QuoteFree(r.element)
            && 1 <= |r.station| <= 31 && 1 <= |r.date| <= 15 && 1 <= |r.element| <= 7
            && r.station != "date" && r.station != "element" && r.date != "element"
  {
  }

  // The exact condition: the rows of a page come back as themselves if and only if their texts hold no
  // quote, fit the reader's buffers, and none is taken for the name of a later one.
  lemma RowsComeBackIff(rows: seq<Row>, offset: int, limit: int, total: int)
    requires AllFlags(rows)
    ensures ScanRecords(Page(rows, offset, limit, total)) ==
              seq(|rows|, i requires 0 <= i < |rows| =>
                Record(rows[i].station, rows[i].date, rows[i].element, Hundredths(rows[i].value) as real / 100.0)) <==>
            forall i :: 0 <= i < |rows| ==>
              var r := rows[i];
              && QuoteFree(r.station) && QuoteFree(r.date) && QuoteFree(r.element)
              && 1 <= |r.station| <= 31 && 1 <= |r.date| <= 15 && 1 <= |r.element| <= 7
              && r.station != "date" && r.station != "element" && r.date != "element"
  {
    ComeBackIff(rows, offset, limit, total);
    WrittenOut(rows);
    forall i | 0 <= i < |rows| { SurvivesIff(rows[i]); }
  }

  lemma WrittenOut(rows: seq<Row>)
    ensures AllExactly(rows) == seq(|rows|, i requires 0 <= i < |rows| =>
              Record(rows[i].station, rows[i].date, rows[i].element, Hundredths(rows[i].value) as real / 100.0))
  {
  }

  lemma ComeBackIff(rows: seq<Row>, offset: int, limit: int, total: int)
    requires AllFlags(rows)
    ensures ScanRecords(Page(rows, offset, limit, total)) == AllExactly(rows) <==>
            forall i :: 0 <= i < |rows| ==> Survives(rows[i])
  {
    var read := ScanRecords(Page(rows, offset, limit, total));
    if AllQuotable(rows) {
      PageRecordsRoundTrip(rows, offset, limit, total);
      ReadAllIff(rows);
    } else if read == AllExactly(rows) {
      RecordsAreQuoteFree(Page(rows, offset, limit, total));
      QuotedNeverExact(rows, read);
    }
  }

  // A record that was read has no quote in it, so a row with one never comes back as itself.
  lemma QuotedNeverExact(rows: seq<Row>, read: seq<Record>)
    requires AllFlags(rows) && read == AllExactly(rows) && forall r :: r in read ==> QuoteFreeRecord(r)
    ensures AllQuotable(rows)
  {
    forall i | 0 <= i < |rows| ensures Quotable(rows[i]) {
      assert read[i] in read;
    }
  }

  // --- A text that is read as the count ---

  // A station text with the name of the count, its colon and a number.
  function CarriedCount(digits: string): string {
    Quote("count", ":" + digits)
  }

  lemma CarriedParts(digits: string, rest: string)
    ensures Quote(CarriedCount(digits), rest) == "\"" + Quote("count", (":" + digits) + ("\"" + rest))
    ensures (":" + digits) + ("\"" + rest) == ":" + (digits + ("\"" + rest))
  {
  }

  lemma CarriedIsFound(digits: string, rest: string)
    ensures StrStr(Quote(CarriedCount(digits), rest), Pattern("count", ":")) ==
            Some(Quote("count", ":" + (digits + ("\"" + rest))))
  {
    var after := digits + ("\"" + rest);
    CarriedParts(digits, rest);
    QuoteHead("count", ":" + after);
    assert Pattern("count", ":")[1] == 'c';
    QuoteBeforeQuote(Quote("count", ":" + after), Pattern("count", ":"));
    Hit("count", ":", after);
  }

  lemma CarriedInRow(r: Row, n: int, rest: string)
    requires r.station == CarriedCount(PrintInt(n))
    ensures FindInt(AtStation(r, rest), "count", 0) == n
  {
    var after := PrintInt(n) + ("\"" + ("," + AtDate(r, rest)));
    NamesAreQuoteFree();
    TrailerKeyFacts("count");
    QuoteHead(r.station, "," + AtDate(r, rest));
    Skip("station_id", ":", AtStationText(r, rest), "count", ":");
    CarriedIsFound(PrintInt(n), "," + AtDate(r, rest));
    NumberFound("count", after);
    Hit("count", ":", after);
    QuoteNext("," + AtDate(r, rest));
    IntRoundTrip(n, "\"" + ("," + AtDate(r, rest)));
    NumberRead(AtStation(r, rest), Quote("count", ":" + after), "count", after, n, 0);
  }

  lemma QuoteNext(t: string)
    ensures "\"" + t != [] && !IsDigit(("\"" + t)[0])
  {
  }

  lemma SameInt(t: string, u: string, key: string, default: int)
    requires StrStr(t, Pattern(key, ":")) == StrStr(u, Pattern(key, ":"))
    ensures FindInt(t, key, default) == FindInt(u, key, default)
  {
  }

  lemma PageSearched(rows: seq<Row>, tail: string, page: string, key: string)
    requires TrailerKey(key) && FromQuote(rows, tail) != [] && FromQuote(rows, tail)[0] == '"'
    requires page == "{" + Quote("data", (": [" + Lead(rows, true)) + FromQuote(rows, tail))
    ensures StrStr(page, Pattern(key, ":")) == StrStr(FromQuote(rows, tail), Pattern(key, ":"))
  {
    LeadIsQuoteFree(rows, true);
    DataSkipped(Lead(rows, true), FromQuote(rows, tail), key);
  }

  lemma CarriedInRows(rows: seq<Row>, n: int, tail: string, page: string)
    requires rows != [] && rows[0].station == CarriedCount(PrintInt(n))
    requires FromQuote(rows, tail) != [] && FromQuote(rows, tail)[0] == '"'
    requires page == "{" + Quote("data", (": [" + Lead(rows, true)) + FromQuote(rows, tail))
    ensures FindInt(page, "count", 0) == n
  {
    PageSearched(rows, tail, page, "count");
    SameInt(page, FromQuote(rows, tail), "count", 0);
    CarriedInRow(rows[0], n, RowsText(rows[1..], false, "]," + tail));
  }

  // Such a text in the first row is what is read as the count of its page.
  lemma CarriedCountIsRead(rows: seq<Row>, n: int, offset: int, limit: int, total: int)
    requires rows != [] && rows[0].station == CarriedCount(PrintInt(n))
    ensures FindInt(Page(rows, offset, limit, total), "count", 0) == n
  {
    PageSplit(rows, offset, limit, total);
    CarriedInRows(rows, n, AtOffset(offset, limit, total, |rows|), Page(rows, offset, limit, total));
  }

  lemma CarriedCountPasses(digits: string)
    requires QuoteFree(digits)
    ensures !Carries(CarriedCount(digits), "total")
  {
    TrailerKeyFacts("total");
    NamesAreQuoteFree();
    assert "\"" + CarriedCount(digits) == "\"" + Quote("count", ":" + digits);
    QuoteHead("count", ":" + digits);
    assert Pattern("total", ":")[1] == 't';
    QuoteBeforeQuote(Quote("count", ":" + digits), Pattern("total", ":"));
    SkipLast("count", ":" + digits, "total", ":");
  }

  lemma FieldEmpty(key: string, rest: string, width: nat)
    ensures ScanField(Quote(key, ":\"" + ("\"" + rest)), key, width) == ""
  {
    SuffixDecides(key, ":\"" + ("\"" + rest), ":\"");
    assert Quote(key, ":\"" + ("\"" + rest))[|Quote(key, ":\"")|..] == "\"" + rest;
  }

  // The row itself gives no record: its station text ends before it begins.
  lemma CarryingRowGivesNothing(r: Row, digits: string, u: string, t: string)
    requires QuoteFree(digits)
    requires r.station == CarriedCount(digits) && QuoteFree(r.date) && QuoteFree(r.element) && QuotableFlags(r)
    requires QuoteFree(u) && t != [] && t[0] == '"'
    ensures ScanRecords(AtStation(r, u + t)) == ScanRecords(t)
  {
    var rest := "," + AtDate(r, u + t);
    QuoteHead(r.station, rest);
    FirstRecord(AtStationText(r, u + t));
    NoStation(r, digits, u + t);
    CarriedAddsNothing(digits, rest, AtDate(r, u + t));
    DateAddsNothing(r, u, t);
  }

  lemma NoStation(r: Row, digits: string, rest: string)
    requires r.station == CarriedCount(digits)
    ensures RecordAt(AtStation(r, rest)) == []
  {
    var after := "count" + ("\"" + ((":" + digits) + ("\"" + ("," + AtDate(r, rest)))));
    CarriedParts(digits, "," + AtDate(r, rest));
    assert ":" + AtStationText(r, rest) == ":\"" + ("\"" + after);
    FieldEmpty("station_id", after, 31);
  }

  lemma QuoteAndWordSkipped(word: string, sep: string, t: string, key: string)
    requires QuoteFree(word) && QuoteFree(sep) && QuoteFree(key) && Separates(sep, key) && word != key
    requires t != [] && t[0] == '"'
    ensures StrStr("\"" + Quote(word, sep + t), Pattern(key, "")) == StrStr(t, Pattern(key, ""))
  {
    assert Pattern(key, "")[1] == key[0];
    QuoteHead(word, sep + t);
    QuoteBeforeQuote(Quote(word, sep + t), Pattern(key, ""));
    Skip(word, sep, t, key, "");
  }

  lemma CommaSkipped(rest: string, t: string, key: string)
    requires QuoteFree(key) && Separates(",", key) && t != [] && t[0] == '"' && rest == "," + t
    ensures StrStr("\"" + rest, Pattern(key, "")) == StrStr(t, Pattern(key, ""))
  {
    SkipWord("", ",", t, key, "");
    NothingBefore("\"" + rest);
  }

  // A text that begins with a quote and ends with a number is skipped, with the comma behind it.
  lemma CarryingSkipped(text: string, word: string, sep: string, rest: string, t: string, key: string)
    requires text == "\"" + Quote(word, sep + ("\"" + rest)) && rest == "," + t && t != [] && t[0] == '"'
    requires QuoteFree(word) && QuoteFree(sep) && QuoteFree(key) && word != key
    requires Separates(sep, key) && Separates(",", key)
    ensures StrStr(text, Pattern(key, "")) == StrStr(t, Pattern(key, ""))
  {
    QuoteAndWordSkipped(word, sep, "\"" + rest, key);
    CommaSkipped(rest, t, key);
  }

  lemma CarriedAddsNothing(digits: string, rest: string, t: string)
    requires QuoteFree(digits) && t != [] && t[0] == '"' && rest == "," + t
    ensures ScanRecords(Quote(CarriedCount(digits), rest)) == ScanRecords(t)
  {
    NamesAreQuoteFree();
    CarriedParts(digits, rest);
    CarryingSkipped(Quote(CarriedCount(digits), rest), "count", ":" + digits, rest, t, "station_id");
    SameFirstSameRecords(Quote(CarriedCount(digits), rest), t);
  }

  lemma CarriedRowsRead(rows: seq<Row>, digits: string, tail: string, page: string)
    requires QuoteFree(digits)
    requires rows != [] && rows[0].station == CarriedCount(digits)
    requires QuoteFree(rows[0].date) && QuoteFree(rows[0].element) && QuotableFlags(rows[0]) && AllQuotable(rows[1..])
    requires tail != [] && tail[0] == '"' && ScanRecords(tail) == []
    requires FromQuote(rows, tail) != [] && FromQuote(rows, tail)[0] == '"'
    requires page == "{" + Quote("data", (": [" + Lead(rows, true)) + FromQuote(rows, tail))
    ensures ScanRecords(page) == ReadAll(rows[1..])
  {
    LeadIsQuoteFree(rows, true);
    DataAddsNothing(Lead(rows, true), FromQuote(rows, tail));
    RowsSplit(rows[1..], false, tail);
    CarryingRowGivesNothing(rows[0], digits, Lead(rows[1..], false), FromQuote(rows[1..], tail));
    RowsScanned(rows[1..], tail);
    assert ReadAll(rows[1..]) + [] == ReadAll(rows[1..]);
  }

  // The other rows of its page are read as ever.
  lemma RestIsRead(rows: seq<Row>, digits: string, offset: int, limit: int, total: int)
    requires QuoteFree(digits)
    requires rows != [] && rows[0].station == CarriedCount(digits)
    requires QuoteFree(rows[0].date) && QuoteFree(rows[0].element) && QuotableFlags(rows[0]) && AllQuotable(rows[1..])
    ensures ScanRecords(Page(rows, offset, limit, total)) == ReadAll(rows[1..])
  {
    PageSplit(rows, offset, limit, total);
    TrailerAddsNothing(offset, limit, total, |rows|);
    CarriedRowsRead(rows, digits, AtOffset(offset, limit, total, |rows|), Page(rows, offset, limit, total));
  }

  // --- The flags ---

  // A key that is none of the row's names up to its flags.
  ghost predicate FlagName(key: string) {
    key == "mflag" || key == "qflag" || key == "sflag"
  }

  lemma FlagNameFacts(key: string)
    requires FlagName(key)
    ensures QuoteFree(key) && Separates(":", key) && Separates(",", key)
    ensures key != "station_id" && key != "date" && key != "element" && key != "value"
  {
  }

  lemma SkipToFlags(r: Row, rest: string, key: string)
    requires QuotableTexts(r) && FlagName(key) && r.station != key && r.date != key && r.element != key
    ensures StrStr(AtStation(r, rest), Pattern(key, "")) == StrStr(FlagsText(r, rest), Pattern(key, ""))
  {
    NamesAreQuoteFree();
    FlagNameFacts(key);
    NumbersAreQuoteFree(0, r.value);
    NumberThen(PrintReal(r.value), FlagsText(r, rest));
    QuoteHead("mflag", ":" + Quote(r.mflag, "," + AtQflag(r, rest)));
    SkipField("station_id", r.station, ",", AtDate(r, rest), key, "");
    SkipField("date", r.date, ",", AtElement(r, rest), key, "");
    SkipField("element", r.element, ",", AtValue(r, rest), key, "");
    Skip("value", Number(PrintReal(r.value)), FlagsText(r, rest), key, "");
  }

  lemma MflagThere(r: Row, rest: string, width: nat)
    requires QuoteFree(r.mflag)
    ensures FindField(FlagsText(r, rest), "mflag", width) == Truncate(r.mflag, width)
  {
    NameFound("mflag", r.mflag, "," + AtQflag(r, rest), width);
  }

  lemma QflagThere(r: Row, rest: string, width: nat)
    requires FlagText(r.mflag) && QuoteFree(r.qflag) && r.mflag != "qflag"
    ensures FindField(FlagsText(r, rest), "qflag", width) == Truncate(r.qflag, width)
  {
    NamesAreQuoteFree();
    SkipField("mflag", r.mflag, ",", AtQflag(r, rest), "qflag", "");
    FindSkips(FlagsText(r, rest), AtQflag(r, rest), "qflag", width);
    NameFound("qflag", r.qflag, "," + AtSflag(r, rest), width);
  }

  lemma SflagThere(r: Row, rest: string, width: nat)
    requires FlagText(r.mflag) && FlagText(r.qflag) && QuoteFree(r.sflag)
    requires r.mflag != "sflag" && r.qflag != "sflag"
    ensures FindField(FlagsText(r, rest), "sflag", width) == Truncate(r.sflag, width)
  {
    NamesAreQuoteFree();
    SkipField("mflag", r.mflag, ",", AtQflag(r, rest), "sflag", "");
    SkipField("qflag", r.qflag, ",", AtSflag(r, rest), "sflag", "");
    FindSkips(FlagsText(r, rest), AtSflag(r, rest), "sflag", width);
    NameFound("sflag", r.sflag, "}" + rest, width);
  }

  // No text and no flag of the row is the name of a flag.
  predicate NamesNoFlag(r: Row, key: string) {
    r.station != key && r.date != key && r.element != key && r.mflag != key && r.qflag != key
  }

  lemma MflagRead(r: Row, rest: string, width: nat)
    requires QuotableTexts(r) && QuoteFree(r.mflag) && NamesNoFlag(r, "mflag") && |r.mflag| <= width
    ensures FindField(AtStation(r, rest), "mflag", width) == r.mflag
  {
    SkipToFlags(r, rest, "mflag");
    FindSkips(AtStation(r, rest), FlagsText(r, rest), "mflag", width);
    MflagThere(r, rest, width);
  }

  lemma QflagRead(r: Row, rest: string, width: nat)
    requires QuotableTexts(r) && FlagText(r.mflag) && QuoteFree(r.qflag) && NamesNoFlag(r, "qflag")
    requires |r.qflag| <= width
    ensures FindField(AtStation(r, rest), "qflag", width) == r.qflag
  {
    SkipToFlags(r, rest, "qflag");
    FindSkips(AtStation(r, rest), FlagsText(r, rest), "qflag", width);
    QflagThere(r, rest, width);
  }

  lemma SflagRead(r: Row, rest: string, width: nat)
    requires QuotableTexts(r) && FlagText(r.mflag) && FlagText(r.qflag) && QuoteFree(r.sflag)
    requires NamesNoFlag(r, "sflag") && |r.sflag| <= width
    ensures FindField(AtStation(r, rest), "sflag", width) == r.sflag
  {
    SkipToFlags(r, rest, "sflag");
    FindSkips(AtStation(r, rest), FlagsText(r, rest), "sflag", width);
    SflagThere(r, rest, width);
  }

  // One row from its station to its closing brace.
  function RowPart(r: Row): string {
    AtStation(r, "")
  }

  lemma QuoteThen(word: string, a: string, b: string)
    ensures Quote(word, a + b) == Quote(word, a) + b
  {
  }

  lemma FieldThen(name: string, text: string, end: string, a: string, b: string)
    ensures Quote(name, ":" + Quote(text, end + (a + b))) == Quote(name, ":" + Quote(text, end + a)) + b
  {
    Concat(end, a, b);
    QuoteThen(text, end + a, b);
    Concat(":", Quote(text, end + a), b);
    QuoteThen(name, ":" + Quote(text, end + a), b);
  }

  lemma ValueThen(r: Row, a: string, b: string)
    ensures Quote("value", Number(PrintReal(r.value)) + (a + b)) == Quote("value", Number(PrintReal(r.value)) + a) + b
  {
    Concat(Number(PrintReal(r.value)), a, b);
    QuoteThen("value", Number(PrintReal(r.value)) + a, b);
  }

  lemma RowThen(r: Row, t: string)
    ensures AtStation(r, t) == RowPart(r) + t
  {
    NothingBefore(t);
    FieldThen("sflag", r.sflag, "}", "", t);
    FieldThen("qflag", r.qflag, ",", AtSflag(r, ""), t);
    FieldThen("mflag", r.mflag, ",", AtQflag(r, ""), t);
    ValueThen(r, FlagsText(r, ""), t);
    FieldThen("element", r.element, ",", AtValue(r, ""), t);
    FieldThen("date", r.date, ",", AtElement(r, ""), t);
    FieldThen("station_id", r.station, ",", AtDate(r, ""), t);
  }

  function Opening(first: bool): string {
    if first then "{" else ",{"
  }

  // What the rows have in common with any list of texts that follow each other.
  ghost predicate Follow(text: (seq<Row>, bool) -> string, at: (Row, string) -> string, rows: seq<Row>, first: bool)
    requires rows != []
  {
    text(rows, first) == Opening(first) + at(rows[0], text(rows[1..], false))
  }

  ghost predicate Appends(at: (Row, string) -> string, r: Row, a: string, b: string) {
    at(r, a + b) == at(r, a) + b
  }

  lemma LaterStands(at: (Row, string) -> string, r: Row, first: bool, more: string, before: string, there: string)
    requires more == before + there && Appends(at, r, before, there)
    ensures Opening(first) + at(r, more) == (Opening(first) + at(r, before)) + there
  {
    Concat(Opening(first), at(r, before), there);
  }

  lemma {:induction false} RowStandsIn(text: (seq<Row>, bool) -> string, at: (Row, string) -> string, rows: seq<Row>,
                                       first: bool, k: nat)
    returns (before: string, after: string)
    requires k < |rows|
    requires forall rs: seq<Row>, f: bool {:trigger Follow(text, at, rs, f)} :: rs != [] ==> Follow(text, at, rs, f)
    requires forall r: Row, a: string, b: string {:trigger Appends(at, r, a, b)} :: Appends(at, r, a, b)
    ensures text(rows, first) == before + at(rows[k], after)
  {
    assert Follow(text, at, rows, first);
    if k == 0 {
      before, after := Opening(first), text(rows[1..], false);
    } else {
      before, after := RowStandsIn(text, at, rows[1..], false, k - 1);
      var there := at(rows[k], after);
      assert Appends(at, rows[0], before, there);
      LaterStands(at, rows[0], first, text(rows[1..], false), before, there);
      before := Opening(first) + at(rows[0], before);
    }
  }

  lemma RowAppends(r: Row, a: string, b: string)
    ensures AtStation(r, a + b) == AtStation(r, a) + b
  {
    RowThen(r, a);
    RowThen(r, a + b);
    Concat(RowPart(r), a, b);
  }

  lemma RowStands(rows: seq<Row>, first: bool, rest: string, k: nat) returns (before: string, after: string)
    requires k < |rows|
    ensures RowsText(rows, first, rest) == before + AtStation(rows[k], after)
  {
    var text := (rs: seq<Row>, f: bool) => RowsText(rs, f, rest);
    forall rs: seq<Row>, f: bool | rs != [] ensures Follow(text, AtStation, rs, f) {
      RowSplit(rs[0], f, RowsText(rs[1..], false, rest));
    }
    forall r: Row, a: string, b: string ensures Appends(AtStation, r, a, b) {
      RowAppends(r, a, b);
    }
    before, after := RowStandsIn(text, AtStation, rows, first, k);
  }

  // Texts and flags without quotes, none of which is the name of a flag.
  ghost predicate PlainFlags(r: Row) {
    && QuotableTexts(r) && QuoteFree(r.mflag) && QuoteFree(r.qflag) && QuoteFree(r.sflag)
    && NamesNoFlag(r, "mflag") && NamesNoFlag(r, "qflag") && NamesNoFlag(r, "sflag")
  }

  // From the station of such a row on, each flag is read back under its own name.
  lemma FlagsRead(r: Row, rest: string, width: nat)
    requires PlainFlags(r) && |r.mflag| <= width && |r.qflag| <= width && |r.sflag| <= width
    ensures FindField(AtStation(r, rest), "mflag", width) == r.mflag
    ensures FindField(AtStation(r, rest), "qflag", width) == r.qflag
    ensures FindField(AtStation(r, rest), "sflag", width) == r.sflag
  {
    MflagRead(r, rest, width);
    QflagRead(r, rest, width);
    SflagRead(r, rest, width);
  }

  lemma RowOfPage(rows: seq<Row>, offset: int, limit: int, total: int, k: nat) returns (before: string, after: string)
    requires k < |rows|
    ensures Page(rows, offset, limit, total) == before + AtStation(rows[k], after)
  {
    before, after := RowStands(rows, true, Trailer(offset, limit, total, |rows|), k);
    PageBefore(rows, offset, limit, total, before, AtStation(rows[k], after));
    before := "{" + Quote("data", ": [" + before);
  }

  // A station stands here, and from it on the flags of the row are read back under their own names.
  ghost predicate ReadsFlags(there: string, r: Row, width: nat) {
    && StartsWith(there, "\"station_id\":\"")
    && FindField(there, "mflag", width) == r.mflag
    && FindField(there, "qflag", width) == r.qflag
    && FindField(there, "sflag", width) == r.sflag
  }

  lemma StationReads(r: Row, rest: string, width: nat)
    requires PlainFlags(r) && |r.mflag| <= width && |r.qflag| <= width && |r.sflag| <= width
    ensures ReadsFlags(AtStation(r, rest), r, width)
  {
    StationFirst(r, rest);
    FlagsRead(r, rest, width);
  }

  // Every row of a page stands in it with its flags.
  lemma PageFlagsRead(rows: seq<Row>, offset: int, limit: int, total: int, k: nat, width: nat)
    returns (before: string, there: string)
    requires k < |rows| && PlainFlags(rows[k])
    requires |rows[k].mflag| <= width && |rows[k].qflag| <= width && |rows[k].sflag| <= width
    ensures Page(rows, offset, limit, total) == before + there && ReadsFlags(there, rows[k], width)
  {
    var after;
    before, after := RowOfPage(rows, offset, limit, total, k);
    there := AtStation(rows[k], after);
    StationReads(rows[k], after, width);
  }

  lemma PageBefore(rows: seq<Row>, offset: int, limit: int, total: int, b: string, t: string)
    requires RowsText(rows, true, Trailer(offset, limit, total, |rows|)) == b + t
    ensures Page(rows, offset, limit, total) == "{" + Quote("data", ": [" + b) + t
  {
    Concat(": [", b, t);
    QuoteThen("data", ": [" + b, t);
    Concat("{", Quote("data", ": [" + b), t);
  }

  lemma StationFirst(r: Row, rest: string)
    ensures StartsWith(AtStation(r, rest), "\"station_id\":\"")
  {
    var t := AtStationText(r, rest);
    assert t[0] == '"' && ":" + t == (":\"" + t[1..]);
    SuffixDecides("station_id", ":" + t, ":\"");
    assert Quote("station_id", ":\"") == "\"station_id\":\"";
  }

  // --- The format ---

  lemma FieldFormat(name: string, text: string, end: string, next: string, open: string, close: string,
                    begin: string, tail: string)
    requires open == "\"" + name + "\":\"" && next == begin + tail && close == "\"" + end + begin
    ensures Quote(name, ":" + Quote(text, end + next)) == open + (text + (close + tail))
  {
    Concat(end, begin, tail);
    var inner := Quote(text, end + next);
    assert inner == "\"" + (text + (close + tail));
    assert Quote(name, ":" + inner) == open + (text + (close + tail));
  }

  lemma SflagFormat(r: Row, rest: string)
    ensures AtSflag(r, rest) == "\"sflag\":\"" + (r.sflag + ("\"}" + rest))
  {
    NothingBefore(rest);
    FieldFormat("sflag", r.sflag, "}", rest, "\"sflag\":\"", "\"}", "", rest);
  }

  lemma FlagsFormat(r: Row, rest: string)
    ensures FlagsText(r, rest) ==
            "\"mflag\":\"" + (r.mflag + ("\",\"qflag\":\"" + (r.qflag + ("\",\"sflag\":\"" +
            (r.sflag + ("\"}" + rest))))))
  {
    var sflag := r.sflag + ("\"}" + rest);
    SflagFormat(r, rest);
    FieldFormat("qflag", r.qflag, ",", AtSflag(r, rest), "\"qflag\":\"", "\",\"sflag\":\"", "\"sflag\":\"", sflag);
    var qflag := r.qflag + ("\",\"sflag\":\"" + sflag);
    FieldFormat("mflag", r.mflag, ",", AtQflag(r, rest), "\"mflag\":\"", "\",\"qflag\":\"", "\"qflag\":\"", qflag);
  }

  lemma ValueFormat(r: Row, rest: string, flags: string)
    requires FlagsText(r, rest) == "\"mflag\":\"" + flags
    ensures AtValue(r, rest) == "\"value\":" + (PrintReal(r.value) + (",\"mflag\":\"" + flags))
  {
    NumberThen(PrintReal(r.value), FlagsText(r, rest));
    Concat(",", "\"mflag\":\"", flags);
    assert "," + "\"mflag\":\"" == ",\"mflag\":\"";
    var v := PrintReal(r.value) + (",\"mflag\":\"" + flags);
    assert Quote("value", ":" + v) == "\"value\":" + v;
  }

  // A row is its seven columns in the places of one format.
  lemma RowFormat(r: Row, rest: string)
    ensures RowText(r, rest) ==
            "{\"station_id\":\"" + (r.station + ("\",\"date\":\"" + (r.date + ("\",\"element\":\"" + (r.element +
            ("\",\"value\":" + (PrintReal(r.value) + (",\"mflag\":\"" + (r.mflag + ("\",\"qflag\":\"" + (r.qflag +
            ("\",\"sflag\":\"" + (r.sflag + ("\"}" + rest))))))))))))))
  {
    FlagsFormat(r, rest);
    var flags := r.mflag + ("\",\"qflag\":\"" + (r.qflag + ("\",\"sflag\":\"" + (r.sflag + ("\"}" + rest)))));
    ValueFormat(r, rest, flags);
    var value := PrintReal(r.value) + (",\"mflag\":\"" + flags);
    FieldFormat("element", r.element, ",", AtValue(r, rest), "\"element\":\"", "\",\"value\":", "\"value\":", value);
    var element := r.element + ("\",\"value\":" + value);
    FieldFormat("date", r.date, ",", AtElement(r, rest), "\"date\":\"", "\",\"element\":\"", "\"element\":\"", element);
    var date := r.date + ("\",\"element\":\"" + element);
    FieldFormat("station_id", r.station, ",", AtDate(r, rest),
                "\"station_id\":\"", "\",\"date\":\"", "\"date\":\"", date);
    var station := r.station + ("\",\"date\":\"" + date);
    Concat("{", "\"station_id\":\"", station);
    assert "{" + "\"station_id\":\"" == "{\"station_id\":\"";
  }

  lemma NumberFormat(name: string, digits: string, next: string, open: string, close: string, begin: string,
                     tail: string)
    requires open == "\"" + name + "\":" && next == begin + tail && close == "," + begin
    ensures Quote(name, Number(digits) + next) == open + (digits + (close + tail))
  {
    NumberThen(digits, next);
    Concat(",", begin, tail);
    var v := digits + (close + tail);
    assert Quote(name, ":" + v) == open + v;
  }

  // The trailer holds the four numbers.
  lemma TrailerFormat(offset: int, limit: int, total: int, count: int)
    ensures Trailer(offset, limit, total, count) ==
            "],\"offset\":" + (PrintInt(offset) + (",\"limit\":" + (PrintInt(limit) +
            (",\"total\":" + (PrintInt(total) + (",\"count\":" + (PrintInt(count) + "}")))))))
  {
    var counted := PrintInt(count) + "}";
    assert AtCount(count) == "\"count\":" + counted;
    NumberFormat("total", PrintInt(total), AtCount(count), "\"total\":", ",\"count\":", "\"count\":", counted);
    var totalled := PrintInt(total) + (",\"count\":" + counted);
    NumberFormat("limit", PrintInt(limit), AtTotal(total, count), "\"limit\":", ",\"total\":", "\"total\":", totalled);
    var limited := PrintInt(limit) + (",\"total\":" + totalled);
    NumberFormat("offset", PrintInt(offset), AtLimit(limit, total, count),
                 "\"offset\":", ",\"limit\":", "\"limit\":", limited);
    var shifted := PrintInt(offset) + (",\"limit\":" + limited);
    Concat("],", "\"offset\":", shifted);
    assert "]," + "\"offset\":" == "],\"offset\":";
  }

  // The page is an opening, its rows with one comma between any two, and the trailer.
  lemma PageFormat(rows: seq<Row>, offset: int, limit: int, total: int)
    ensures Page(rows, offset, limit, total) ==
            "{\"data\": [" + RowsText(rows, true, Trailer(offset, limit, total, |rows|))
  {
    PageOpens(RowsText(rows, true, Trailer(offset, limit, total, |rows|)));
  }

  lemma PageOpens(t: string)
    ensures "{" + Quote("data", ": [" + t) == "{\"data\": [" + t
  {
    assert Quote("data", ": [" + t) == "\"data\": [" + t;
    assert "{" + "\"data\": [" == "{\"data\": [";
    Concat("{", "\"data\": [", t);
  }

  lemma RowsNext(r: Row, rows: seq<Row>, rest: string)
    ensures RowsText([r] + rows, true, rest) == RowText(r, RowsText(rows, false, rest))
    ensures RowsText([r] + rows, false, rest) == "," + RowText(r, RowsText(rows, false, rest))
  {
    assert ([r] + rows)[1..] == rows;
    NothingBefore(RowText(r, RowsText(rows, false, rest)));
  }

  lemma CommasBetween(a: Row, b: Row, rows: seq<Row>, rest: string)
    ensures RowsText([], true, rest) == rest
    ensures RowsText([a] + ([b] + rows), true, rest) == RowText(a, "," + RowText(b, RowsText(rows, false, rest)))
  {
    RowsNext(a, [b] + rows, rest);
    RowsNext(b, rows, rest);
  }
}

// The growing response buffer of the raw endpoint.
module PageBuffer {
  import opened Seqs
  import opened Text
  import opened PageText
  import CsvText
  import Ingestion

  const INITIAL_CAPACITY := 16384
  const SLACK := 128
  const ROW_BUFFER := 512
  const TRAILER_MAX := 83
  const INT_MAX := 0x7FFF_FFFF
  const DOUBLE_DIGITS := 309

  ghost predicate WithinDigits(v: real, k: nat) {
    -(Pow10(k) as real) < v < Pow10(k) as real
  }

  // The finite doubles are less than 10^309.
  ghost predicate DoubleRange(v: real) {
    exists k: nat :: 1 <= k <= DOUBLE_DIGITS && WithinDigits(v, k)
  }

  ghost predicate Narrow(r: Row) {
    && |r.station| <= 11 && |r.date| <= 8 && |r.element| <= 5
    && |r.mflag| <= 1 && |r.qflag| <= 1 && |r.sflag| <= 1
  }

  // The widths of the scan that filled the table, and a double for the value.
  ghost predicate Stored(r: Row) {
    Narrow(r) && DoubleRange(r.value)
  }

  ghost predicate AllStored(rows: seq<Row>) {
    forall i :: 0 <= i < |rows| ==> Stored(rows[i])
  }

  // --- Lengths ---

  lemma {:induction false} NatLength(n: nat, k: nat)
    requires k >= 1 && n < Pow10(k)
    ensures |PrintNat(n)| <= k
  {
    if n >= 10 {
      assert k > 1 by { assert Pow10(1) == 10; }
      NatLength(n / 10, k - 1);
    }
  }

  lemma IntLength(n: int)
    requires 0 <= n <= INT_MAX
    ensures |PrintInt(n)| <= 10
  {
    TenDigits();
    NatLength(n, 10);
  }

  lemma TenDigits()
    ensures Pow10(10) > INT_MAX
  {
    assert Pow10(2) == 100 by { assert Pow10(1) == 10; }
    assert Pow10(4) == 10000 by { assert Pow10(3) == 1000; }
    assert Pow10(6) == 1000000 by { assert Pow10(5) == 100000; }
    assert Pow10(8) == 100000000 by { assert Pow10(7) == 10000000; }
    assert Pow10(10) == 10000000000 by { assert Pow10(9) == 1000000000; }
  }

  lemma HundredthsBound(v: real, p: nat)
    requires -(p as real) < v < p as real
    ensures Abs(Hundredths(v)) <= 100 * p
  {
    assert -(100.0 * p as real) < v * 100.0 < 100.0 * p as real;
    assert -100 * p <= (v * 100.0).Floor < 100 * p;
  }

  // A value of at most k digits before the point prints a sign, k + 1 digits (it may round up), a point
  // and two digits.
  lemma RealLength(v: real, k: nat)
    requires WithinDigits(v, k)
    ensures |PrintReal(v)| <= k + 5
  {
    var abs := Abs(Hundredths(v));
    HundredthsBound(v, Pow10(k));
    assert Pow10(k + 1) == 10 * Pow10(k);
    NatLength(abs / 100, k + 1);
  }

  lemma StoredValueLength(r: Row)
    requires Stored(r)
    ensures |PrintReal(r.value)| <= 314
  {
    var k: nat :| 1 <= k <= DOUBLE_DIGITS && WithinDigits(r.value, k);
    RealLength(r.value, k);
  }

  lemma QuoteLength(word: string, rest: string)
    ensures |Quote(word, rest)| == |word| + |rest| + 2
  {
  }

  // Every stored row fits the 512 byte line buffer, separator and terminator included.
  lemma RowFits(r: Row)
    requires Stored(r)
    ensures 1 + |RowText(r, "")| < ROW_BUFFER
  {
    StoredValueLength(r);
    FlagsLength(r);
    assert |Number(PrintReal(r.value)) + FlagsText(r, "")| <= 316 + 40;
    QuoteLength("value", Number(PrintReal(r.value)) + FlagsText(r, ""));
    QuoteLength(r.element, "," + AtValue(r, ""));
    QuoteLength("element", ":" + Quote(r.element, "," + AtValue(r, "")));
    QuoteLength(r.date, "," + AtElement(r, ""));
    QuoteLength("date", ":" + Quote(r.date, "," + AtElement(r, "")));
    QuoteLength(r.station, "," + AtDate(r, ""));
    QuoteLength("station_id", ":" + AtStationText(r, ""));
  }

  lemma FlagsLength(r: Row)
    requires |r.mflag| <= 1 && |r.qflag| <= 1 && |r.sflag| <= 1
    ensures |FlagsText(r, "")| <= 40
  {
    QuoteLength(r.sflag, "}" + "");
    QuoteLength("sflag", ":" + Quote(r.sflag, "}" + ""));
    QuoteLength(r.qflag, "," + AtSflag(r, ""));
    QuoteLength("qflag", ":" + Quote(r.qflag, "," + AtSflag(r, "")));
    QuoteLength(r.mflag, "," + AtQflag(r, ""));
    QuoteLength("mflag", ":" + Quote(r.mflag, "," + AtQflag(r, "")));
  }

  lemma TrailerLength(offset: int, limit: int, total: int, count: int)
    requires 0 <= offset <= INT_MAX && 0 <= limit <= INT_MAX && 0 <= total <= INT_MAX && 0 <= count <= INT_MAX
    ensures |Trailer(offset, limit, total, count)| <= TRAILER_MAX
  {
    IntLength(offset);
    IntLength(limit);
    IntLength(total);
    IntLength(count);
    QuoteLength("count", ":" + (PrintInt(count) + "}"));
    QuoteLength("total", Number(PrintInt(total)) + AtCount(count));
    QuoteLength("limit", Number(PrintInt(limit)) + AtTotal(total, count));
    QuoteLength("offset", Number(PrintInt(offset)) + AtLimit(limit, total, count));
  }

  // --- Printing piece by piece is printing the whole ---

  lemma QuoteThen(word: string, a: string, b: string)
    ensures Quote(word, a) + b == Quote(word, a + b)
  {
  }

  lemma FieldThen(name: string, word: string, end: string, a: string, b: string)
    ensures Quote(name, ":" + Quote(word, end + a)) + b == Quote(name, ":" + Quote(word, end + (a + b)))
  {
    Concat(end, a, b);
    QuoteThen(word, end + a, b);
    Concat(":", Quote(word, end + a), b);
    QuoteThen(name, ":" + Quote(word, end + a), b);
  }

  lemma FlagsThen(r: Row, rest: string)
    ensures FlagsText(r, "") + rest == FlagsText(r, rest)
  {
    NothingBefore(rest);
    FieldThen("sflag", r.sflag, "}", "", rest);
    FieldThen("qflag", r.qflag, ",", AtSflag(r, ""), rest);
    FieldThen("mflag", r.mflag, ",", AtQflag(r, ""), rest);
  }

  lemma RowThen(r: Row, rest: string)
    ensures RowText(r, "") + rest == RowText(r, rest)
  {
    FlagsThen(r, rest);
    Concat(Number(PrintReal(r.value)), FlagsText(r, ""), rest);
    QuoteThen("value", Number(PrintReal(r.value)) + FlagsText(r, ""), rest);
    FieldThen("element", r.element, ",", AtValue(r, ""), rest);
    FieldThen("date", r.date, ",", AtElement(r, ""), rest);
    FieldThen("station_id", r.station, ",", AtDate(r, ""), rest);
    Concat("{", AtStation(r, ""), rest);
  }

  function Separator(first: bool): string {
    if first then "" else ","
  }

  lemma {:induction false} RowsThen(rows: seq<Row>, first: bool, rest: string)
    ensures RowsText(rows, first, "") + rest == RowsText(rows, first, rest)
  {
    if rows == [] {
      NothingBefore(rest);
    } else {
      var inner := RowsText(rows[1..], false, "");
      RowsThen(rows[1..], false, rest);
      RowThen(rows[0], inner);
      RowThen(rows[0], inner + rest);
      Concat(RowText(rows[0], ""), inner, rest);
      Concat(Separator(first), RowText(rows[0], inner), rest);
    }
  }

  // One more row at the end of the text written so far.
  lemma {:induction false} RowsSnoc(rows: seq<Row>, r: Row, first: bool)
    ensures RowsText(rows + [r], first, "") ==
            RowsText(rows, first, "") + (Separator(first && rows == []) + RowText(r, ""))
  {
    if rows == [] {
      assert (rows + [r])[1..] == [];
      NothingBefore(Separator(first) + RowText(r, ""));
    } else {
      assert (rows + [r])[1..] == rows[1..] + [r];
      RowsSnoc(rows[1..], r, false);
      var more := "," + RowText(r, "");
      var inner := RowsText(rows[1..], false, "");
      RowThen(rows[0], inner);
      RowThen(rows[0], inner + more);
      Concat(RowText(rows[0], ""), inner, more);
      Concat(Separator(first), RowText(rows[0], inner), more);
    }
  }

  function Head(): (s: string)
    ensures |s| == 10
  {
    "{\"data\": ["
  }

  lemma PageIsHeadRowsTrailer(rows: seq<Row>, offset: int, limit: int, total: int)
    ensures Page(rows, offset, limit, total) ==
            Head() + RowsText(rows, true, "") + Trailer(offset, limit, total, |rows|)
  {
    var trailer := Trailer(offset, limit, total, |rows|);
    var text := RowsText(rows, true, "");
    RowsThen(rows, true, trailer);
    HeadThen(text + trailer);
    Concat(Head(), text, trailer);
  }

  lemma HeadThen(rest: string)
    ensures "{" + Quote("data", ": [" + rest) == Head() + rest
  {
    Concat(": [", "", rest);
    QuoteThen("data", ": [", rest);
    Concat("{", Quote("data", ": ["), rest);
    assert "{" + Quote("data", ": [") == Head();
  }

  // --- The buffer ---

  // realloc to twice the size until the next text, the slack and a terminator fit.
  method Reserve(json: array<char>, pos: nat, need: nat) returns (grown: array<char>)
    requires pos <= json.Length && json.Length > 0
    ensures grown == json || fresh(grown)
    ensures json.Length <= grown.Length
    ensures pos + need + SLACK < grown.Length && grown[..pos] == old(json[..pos])
    ensures grown.Length == json.Length || grown.Length <= 2 * (pos + need + SLACK)
  {
    grown := json;
    while pos + need + SLACK >= grown.Length
      invariant pos <= grown.Length && 0 < json.Length <= grown.Length
      invariant grown == json || fresh(grown)
      invariant grown[..pos] == old(json[..pos])
      invariant grown.Length == json.Length || grown.Length <= 2 * (pos + need + SLACK)
      decreases pos + need + SLACK - grown.Length
    {
      var bigger := new char[grown.Length * 2](_ => '\0');
      var i := 0;
      while i < grown.Length
        invariant i <= grown.Length
        invariant bigger[..i] == grown[..i]
        invariant grown[..pos] == old(json[..pos])
      {
        bigger[i] := grown[i];
        i := i + 1;
      }
      assert bigger[..pos] == bigger[..i][..pos] == grown[..i][..pos] == grown[..pos];
      grown := bigger;
    }
  }

  // memcpy behind what is there, and the terminator.
  method Append(json: array<char>, pos: nat, s: string) returns (end: nat)
    requires pos + |s| < json.Length
    modifies json
    ensures end == pos + |s| && json[..end] == old(json[..pos]) + s && json[end] == '\0'
  {
    ghost var before := json[..pos];
    var i := 0;
    while i < |s|
      invariant i <= |s|
      invariant json[..pos + i] == before + s[..i]
    {
      json[pos + i] := s[i];
      assert json[..pos + i + 1] == json[..pos + i] + [s[i]];
      assert s[..i + 1] == s[..i] + [s[i]];
      i := i + 1;
    }
    assert s[..i] == s;
    end := pos + |s|;
    json[end] := '\0';
    assert json[..end] == before + s;
  }

  // A buffer that was never grown beyond what its text called for.
  predicate Sized(capacity: nat, pos: nat) {
    pos < capacity && INITIAL_CAPACITY <= capacity && (capacity <= INITIAL_CAPACITY || capacity <= 2 * (pos + SLACK))
  }

  // Reserve and append: the text so far, the new text, and a buffer at most twice what it must hold.
  method Write(json: array<char>, pos: nat, s: string) returns (grown: array<char>, end: nat)
    requires Sized(json.Length, pos)
    modifies json
    ensures grown == json || fresh(grown)
    ensures end == pos + |s| && end + SLACK < grown.Length && Sized(grown.Length, end)
    ensures grown[..end] == old(json[..pos]) + s && grown[end] == '\0'
  {
    grown := Reserve(json, pos, |s|);
    end := Append(grown, pos, s);
  }

  // What snprintf writes for one row.
  function Line(r: Row, first: bool): string {
    Separator(first) + RowText(r, "")
  }

  // The rows printed one after the other.
  function Printed(line: (Row, bool) -> string, rows: seq<Row>): string {
    if rows == [] then ""
    else
      var n := |rows| - 1;
      Printed(line, rows[..n]) + line(rows[n], n == 0)
  }

  // Any text that grows by one printed row per row is what the loop prints.
  lemma {:induction false} PrintedIs(line: (Row, bool) -> string, text: seq<Row> -> string, rows: seq<Row>)
    requires text([]) == ""
    requires forall init, r :: text(init + [r]) == text(init) + line(r, init == [])
    ensures Printed(line, rows) == text(rows)
  {
    if rows != [] {
      var n := |rows| - 1;
      PrintedIs(line, text, rows[..n]);
      assert rows == rows[..n] + [rows[n]];
    }
  }

  function RowsAlone(rows: seq<Row>): string {
    RowsText(rows, true, "")
  }

  lemma OneMoreLine(init: seq<Row>, r: Row)
    ensures RowsAlone(init + [r]) == RowsAlone(init) + Line(r, init == [])
  {
    RowsSnoc(init, r, true);
  }

  lemma LinesAreRows(rows: seq<Row>)
    ensures Printed(Line, rows) == RowsAlone(rows)
  {
    forall init: seq<Row>, r: Row ensures RowsAlone(init + [r]) == RowsAlone(init) + Line(r, init == []) {
      OneMoreLine(init, r);
    }
    PrintedIs(Line, RowsAlone, rows);
  }

  lemma OneMore(head: string, line: (Row, bool) -> string, rows: seq<Row>, i: nat)
    requires i < |rows|
    ensures head + Printed(line, rows[..i + 1]) == head + Printed(line, rows[..i]) + line(rows[i], i == 0)
  {
    assert rows[..i + 1][..i] == rows[..i];
  }

  lemma NoneYet(head: string, line: (Row, bool) -> string, rows: seq<Row>)
    ensures head + Printed(line, rows[..0]) == head
  {
  }

  // The loop over the rows of the result set, for any way of printing one into the line buffer.
  method WriteRows(json0: array<char>, pos0: nat, rows: seq<Row>, line: (Row, bool) -> string)
      returns (json: array<char>, pos: nat)
    requires forall i :: 0 <= i < |rows| ==> |line(rows[i], i == 0)| < ROW_BUFFER
    requires Sized(json0.Length, pos0)
    modifies json0
    ensures json == json0 || fresh(json)
    ensures Sized(json.Length, pos)
    ensures json[..pos] == old(json0[..pos0]) + Printed(line, rows)
  {
    json, pos := json0, pos0;
    ghost var head := json0[..pos0];
    var first := true;
    var i := 0;
    NoneYet(head, line, rows);
    while i < |rows|
      invariant i <= |rows| && first == (i == 0)
      invariant json == json0 || fresh(json)
      invariant Sized(json.Length, pos)
      invariant json[..pos] == head + Printed(line, rows[..i])
    {
      var row := line(rows[i], first);
      OneMore(head, line, rows, i);
      json, pos := Write(json, pos, row);
      first := false;
      i := i + 1;
    }
    assert rows[..i] == rows;
  }

  lemma LinesFit(rows: seq<Row>)
    requires AllStored(rows)
    ensures forall i :: 0 <= i < |rows| ==> |Line(rows[i], i == 0)| < ROW_BUFFER
  {
    forall i | 0 <= i < |rows| ensures |Line(rows[i], i == 0)| < ROW_BUFFER { RowFits(rows[i]); }
  }

  // What is written is exactly the page, terminated, untruncated, in a buffer of bounded size.
  method BuildPage(rows: seq<Row>, offset: int, limit: int, total: int) returns (json: array<char>, end: nat)
    requires AllStored(rows) && |rows| <= INT_MAX
    requires 0 <= offset <= INT_MAX && 0 <= limit <= INT_MAX && 0 <= total <= INT_MAX
    ensures fresh(json) && end < json.Length && json[end] == '\0'
    ensures json[..end] == Page(rows, offset, limit, total)
    ensures json.Length <= INITIAL_CAPACITY || json.Length <= 2 * (end + SLACK)
  {
    json := new char[INITIAL_CAPACITY](_ => '\0');
    var pos := Append(json, 0, Head());
    assert json[..0] == [] && [] + Head() == Head();
    LinesFit(rows);
    json, pos := WriteRows(json, pos, rows, Line);
    LinesAreRows(rows);
    json := Reserve(json, pos, 0);
    var trailer := Trailer(offset, limit, total, |rows|);
    TrailerLength(offset, limit, total, |rows|);
    end := Append(json, pos, trailer);
    PageIsHeadRowsTrailer(rows, offset, limit, total);
  }

  // --- From ingested lines to stored rows ---

  lemma {:induction false} NatBound(s: string)
    requires forall i :: 0 <= i < |s| ==> IsDigit(s[i])
    ensures NatOf(s) < Pow10(|s|)
  {
    if s != [] { NatBound(s[..|s| - 1]); }
  }

  lemma Fraction(n: nat, p: nat)
    requires n < p
    ensures 0.0 <= n as real / p as real < 1.0
  {
  }

  lemma DecimalBound(ds: string, fs: string)
    requires forall i :: 0 <= i < |ds| ==> IsDigit(ds[i])
    requires forall i :: 0 <= i < |fs| ==> IsDigit(fs[i])
    ensures 0.0 <= Decimal(ds, fs) < Pow10(|ds|) as real
  {
    NatBound(ds);
    NatBound(fs);
    Fraction(NatOf(fs), Pow10(|fs|));
    assert NatOf(ds) + 1 <= Pow10(|ds|);
  }

  lemma {:induction false} SkippedLength(s: string)
    ensures |SkipSpace(s)| <= |s|
  {
    if s != [] && IsSpace(s[0]) { SkippedLength(s[1..]); }
  }

  lemma PowGrows(j: nat, k: nat)
    requires j <= k
    ensures Pow10(j) <= Pow10(k)
  {
    if j < k { PowGrows(j, k - 1); }
  }

  // A scanned number has no more digits than its text.
  lemma ScannedBound(t: string)
    requires ScanReal(t).Some?
    ensures WithinDigits(ScanReal(t).value.0, |t|)
  {
    var u := AfterSign(SkipSpace(t));
    var n := Span(IsDigit, u);
    var v := if n < |u| && u[n] == '.' then u[n + 1..] else u[n..];
    var m := if n < |u| && u[n] == '.' then Span(IsDigit, v) else 0;
    SkippedLength(t);
    DecimalBound(u[..n], v[..m]);
    PowGrows(n, |t|);
  }

  lemma RestIsShorter(at: Option<string>, width: nat)
    ensures var rest := CsvText.Comma(CsvText.Cut(at, width).1);
      rest.Some? ==> at.Some? && |rest.value| < |at.value|
  {
  }

  // Every accepted line of at most 309 characters gives a stored row.
  lemma ShortLineIsStored(line: string)
    requires |line| <= DOUBLE_DIGITS && CsvText.ParseLine(line).Some?
    ensures Stored(CsvText.ParseLine(line).value)
  {
    CsvText.StoredRowIsNarrow(line);
    var at1 := CsvText.Comma(CsvText.Cut(Some(line), 11).1);
    var at2 := CsvText.Comma(CsvText.Cut(at1, 8).1);
    var at3 := CsvText.Comma(CsvText.Cut(at2, 5).1);
    RestIsShorter(Some(line), 11);
    RestIsShorter(at1, 8);
    RestIsShorter(at2, 5);
    ValueInRange(at3.value);
  }

  lemma ValueInRange(t: string)
    requires |t| <= DOUBLE_DIGITS && ScanReal(t).Some?
    ensures DoubleRange(ScanReal(t).value.0)
  {
    ScannedBound(t);
    assert t != [];
    assert WithinDigits(ScanReal(t).value.0, |t|);
  }

  // Longer lines do too, as far as their values are finite doubles.
  lemma LineIsStored(line: string)
    requires CsvText.ParseLine(line).Some? && DoubleRange(CsvText.ParseLine(line).value.value)
    ensures Stored(CsvText.ParseLine(line).value)
  {
    CsvText.StoredRowIsNarrow(line);
  }

  ghost predicate FiniteValue(line: string) {
    CsvText.ParseLine(line).Some? ==> DoubleRange(CsvText.ParseLine(line).value.value)
  }

  lemma {:induction false} ParsedAreStored(lines: seq<string>)
    requires forall i :: 0 <= i < |lines| ==> FiniteValue(lines[i])
    ensures forall r :: r in Ingestion.Parsed(lines) ==> Stored(r)
  {
    if lines != [] {
      var n := |lines| - 1;
      ParsedAreStored(lines[..n]);
      assert FiniteValue(lines[n]);
      if CsvText.ParseLine(lines[n]).Some? { LineIsStored(lines[n]); }
    }
  }

  // So the page of any ingested table is built untruncated: ingestion keeps every row stored.
  lemma TableStaysStored(rows: seq<Row>, lines: seq<string>, broken: nat -> bool)
    requires AllStored(rows) && forall i :: 0 <= i < |lines| ==> FiniteValue(lines[i])
    ensures AllStored(Ingestion.Lines(rows, lines, broken).rows)
  {
    var after := Ingestion.Lines(rows, lines, broken).rows;
    Ingestion.RowsAfter(rows, lines, broken);
    ParsedAreStored(lines);
    forall i | 0 <= i < |after| ensures Stored(after[i]) {
      assert after[i] in Ingestion.RowSet(after);
    }
  }
}

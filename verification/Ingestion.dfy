// Ingesting a station file into the weather table without duplicates.
module Ingestion {
  import opened Text
  import opened PageText
  import opened CsvText
  import Aggregation
  import Seqs

  const LINE_BUFFER := 8192

  // What one file did, and the counters of its log line.
  datatype Ingest = Ingest(rows: seq<Row>, lines: nat, inserted: nat, duplicates: nat, errors: nat)

  // INSERT ... WHERE NOT EXISTS, all seven columns compared with a missing flag as the empty text.
  function Insert(rows: seq<Row>, r: Row): seq<Row> {
    if r in rows then rows else rows + [r]
  }

  // One scanned line; broken says that the insert statement itself fails.
  function Count(i: Ingest, parsed: Option<Row>, broken: bool): Ingest {
    match parsed
    case None => i.(lines := i.lines + 1, errors := i.errors + 1)
    case Some(r) =>
      if broken then i.(lines := i.lines + 1, errors := i.errors + 1)
      else if r in i.rows then i.(lines := i.lines + 1, duplicates := i.duplicates + 1)
      else i.(rows := Insert(i.rows, r), lines := i.lines + 1, inserted := i.inserted + 1)
  }

  function CountLine(i: Ingest, line: string, broken: bool): Ingest {
    Count(i, ParseLine(line), broken)
  }

  // The lines after the header, in order; broken(k) for the k-th of them.
  function Lines(rows: seq<Row>, lines: seq<string>, broken: nat -> bool): Ingest {
    if lines == [] then Ingest(rows, 0, 0, 0, 0)
    else
      var n := |lines| - 1;
      CountLine(Lines(rows, lines[..n], broken), lines[n], broken(n))
  }

  // The first line is always taken for a header.
  function Body(file: seq<string>): seq<string> {
    if file == [] then [] else file[1..]
  }

  function Ingested(rows: seq<Row>, file: seq<string>, broken: nat -> bool): Ingest {
    Lines(rows, Body(file), broken)
  }

  function Never(): nat -> bool {
    (k: nat) => false
  }

  // --- What the table looks like afterwards ---

  ghost predicate Distinct(rows: seq<Row>) {
    forall i, j :: 0 <= i < j < |rows| ==> rows[i] != rows[j]
  }

  // The rows a list of lines calls for.
  function Parsed(lines: seq<string>): set<Row> {
    if lines == [] then {}
    else
      var n := |lines| - 1;
      Parsed(lines[..n]) + match ParseLine(lines[n]) case None => {} case Some(r) => {r}
  }

  function RowSet(rows: seq<Row>): set<Row> {
    set r | r in rows
  }

  // Every line parses.
  predicate Clean(lines: seq<string>) {
    lines == [] || (Clean(lines[..|lines| - 1]) && ParseLine(lines[|lines| - 1]).Some?)
  }

  ghost predicate Working(broken: nat -> bool, n: nat) {
    forall k: nat :: k < n ==> !broken(k)
  }

  lemma OneLineAccounts(i: Ingest, line: string, broken: bool)
    ensures var j := CountLine(i, line, broken);
      && j.lines == i.lines + 1
      && j.inserted + j.duplicates + j.errors == i.inserted + i.duplicates + i.errors + 1
      && |j.rows| - j.inserted == |i.rows| - i.inserted
      && (Distinct(i.rows) ==> Distinct(j.rows))
      && i.rows <= j.rows
      && j.errors >= i.errors
  {
  }

  // Every line is an insertion, a duplicate or an error; the table grows by the insertions, nothing is
  // lost, and no two of its rows agree on all seven columns.
  lemma {:induction false} EveryLineIsCounted(rows: seq<Row>, lines: seq<string>, broken: nat -> bool)
    ensures var i := Lines(rows, lines, broken);
      && i.lines == |lines| == i.inserted + i.duplicates + i.errors
      && |i.rows| == |rows| + i.inserted
      && rows <= i.rows
      && (Distinct(rows) ==> Distinct(i.rows))
  {
    if lines != [] {
      var n := |lines| - 1;
      EveryLineIsCounted(rows, lines[..n], broken);
      OneLineAccounts(Lines(rows, lines[..n], broken), lines[n], broken(n));
    }
  }

  lemma OneLineRows(i: Ingest, line: string, broken: bool)
    ensures RowSet(i.rows) <= RowSet(CountLine(i, line, broken).rows)
    ensures RowSet(CountLine(i, line, broken).rows) <=
            RowSet(i.rows) + match ParseLine(line) case None => {} case Some(r) => {r}
    ensures CountLine(i, line, broken).errors == i.errors <==> ParseLine(line).Some? && !broken
    ensures ParseLine(line).Some? && !broken ==>
      RowSet(CountLine(i, line, broken).rows) == RowSet(i.rows) + {ParseLine(line).value}
  {
  }

  // The table afterwards lies between the old rows and the old rows with everything the lines call for.
  lemma {:induction false} RowsAfter(rows: seq<Row>, lines: seq<string>, broken: nat -> bool)
    ensures RowSet(rows) <= RowSet(Lines(rows, lines, broken).rows) <= RowSet(rows) + Parsed(lines)
  {
    if lines != [] {
      var n := |lines| - 1;
      RowsAfter(rows, lines[..n], broken);
      OneLineRows(Lines(rows, lines[..n], broken), lines[n], broken(n));
    }
  }

  ghost predicate ErrorFreeIff(rows: seq<Row>, lines: seq<string>, broken: nat -> bool) {
    var i := Lines(rows, lines, broken);
    && (i.errors == 0 <==> Clean(lines) && Working(broken, |lines|))
    && (i.errors == 0 ==> RowSet(i.rows) == RowSet(rows) + Parsed(lines))
  }

  lemma NextLine(rows: seq<Row>, init: seq<string>, line: string, broken: nat -> bool)
    ensures Lines(rows, init + [line], broken) == CountLine(Lines(rows, init, broken), line, broken(|init|))
    ensures Clean(init + [line]) <==> Clean(init) && ParseLine(line).Some?
    ensures Parsed(init + [line]) == Parsed(init) + match ParseLine(line) case None => {} case Some(r) => {r}
  {
    assert (init + [line])[..|init|] == init;
  }

  lemma NoErrorStep(rows: seq<Row>, init: seq<string>, line: string, broken: nat -> bool)
    requires ErrorFreeIff(rows, init, broken)
    ensures ErrorFreeIff(rows, init + [line], broken)
  {
    var i := Lines(rows, init, broken);
    NextLine(rows, init, line, broken);
    OneLineRows(i, line, broken(|init|));
    OneLineAccounts(i, line, broken(|init|));
    WorkingSnoc(broken, |init|);
  }

  // There is no error exactly when every line parses and every insert works, and then every row the
  // lines call for is in the table.
  lemma NoErrorIff(rows: seq<Row>, lines: seq<string>, broken: nat -> bool)
    ensures var i := Lines(rows, lines, broken);
      && (i.errors == 0 <==> Clean(lines) && Working(broken, |lines|))
      && (i.errors == 0 ==> RowSet(i.rows) == RowSet(rows) + Parsed(lines))
  {
    var holds := (ls: seq<string>) => ErrorFreeIff(rows, ls, broken);
    forall init: seq<string>, line: string | holds(init) ensures holds(init + [line]) {
      NoErrorStep(rows, init, line, broken);
    }
    Seqs.Induction(holds, lines);
    assert holds(lines);
  }

  lemma WorkingSnoc(broken: nat -> bool, n: nat)
    ensures Working(broken, n + 1) <==> Working(broken, n) && !broken(n)
  {
  }

  ghost predicate FailsAt(fails: nat -> bool, lines: seq<string>, broken: nat -> bool, k: nat)
    requires k < |lines|
  {
    fails(k) == (ParseLine(lines[k]).None? || broken(k))
  }

  // Which lines do not parse or have a failing insert.
  ghost predicate FailsOn(fails: nat -> bool, lines: seq<string>, broken: nat -> bool) {
    forall k: nat {:trigger FailsAt(fails, lines, broken, k)} :: k < |lines| ==> FailsAt(fails, lines, broken, k)
  }

  lemma OneMoreError(i: Ingest, parsed: Option<Row>, broken: bool)
    ensures Count(i, parsed, broken).errors == i.errors + if parsed.None? || broken then 1 else 0
  {
  }

  lemma NextError(rows: seq<Row>, init: seq<string>, line: string, broken: nat -> bool)
    ensures Lines(rows, init + [line], broken).errors ==
            Lines(rows, init, broken).errors + if ParseLine(line).None? || broken(|init|) then 1 else 0
  {
    NextLine(rows, init, line, broken);
    OneMoreError(Lines(rows, init, broken), ParseLine(line), broken(|init|));
  }

  ghost predicate ErrorsFit(rows: seq<Row>, lines: seq<string>, broken: nat -> bool, fails: nat -> bool) {
    FailsOn(fails, lines, broken) ==> Lines(rows, lines, broken).errors == |set k: nat | k < |lines| && fails(k)|
  }

  lemma FailsBefore(fails: nat -> bool, init: seq<string>, line: string, broken: nat -> bool)
    requires FailsOn(fails, init + [line], broken)
    ensures FailsOn(fails, init, broken) && fails(|init|) == (ParseLine(line).None? || broken(|init|))
  {
    var lines := init + [line];
    forall k: nat | k < |init| ensures FailsAt(fails, init, broken, k) {
      assert FailsAt(fails, lines, broken, k);
    }
    assert FailsAt(fails, lines, broken, |init|);
  }

  lemma ErrorsStep(rows: seq<Row>, init: seq<string>, line: string, broken: nat -> bool, fails: nat -> bool)
    requires ErrorsFit(rows, init, broken, fails)
    ensures ErrorsFit(rows, init + [line], broken, fails)
  {
    if FailsOn(fails, init + [line], broken) {
      FailsBefore(fails, init, line, broken);
      NextError(rows, init, line, broken);
      Seqs.OneMore(fails, |init|);
    }
  }

  // A line is an error exactly when it does not parse or its insert fails.
  lemma ErrorsAreCounted(rows: seq<Row>, lines: seq<string>, broken: nat -> bool, fails: nat -> bool)
    requires FailsOn(fails, lines, broken)
    ensures Lines(rows, lines, broken).errors == |set k: nat | k < |lines| && fails(k)|
  {
    var holds := (ls: seq<string>) => ErrorsFit(rows, ls, broken, fails);
    assert (set k: nat | k < 0 && fails(k)) == {};
    forall init: seq<string>, line: string | holds(init) ensures holds(init + [line]) {
      ErrorsStep(rows, init, line, broken, fails);
    }
    Seqs.Induction(holds, lines);
    assert holds(lines);
  }

  // The lines behind the new rows.
  ghost predicate FromLines(parse: string -> Option<Row>, m: nat, lines: seq<string>, after: seq<Row>,
                            places: seq<nat>)
  {
    && Seqs.Increasing(places, |lines|) && |after| == m + |places|
    && forall j :: 0 <= j < |places| ==> parse(lines[places[j]]) == Some(after[m + j])
  }

  lemma FromLinesNext(parse: string -> Option<Row>, m: nat, lines: seq<string>, line: string, after: seq<Row>,
                      places: seq<nat>)
    requires FromLines(parse, m, lines, after, places)
    ensures FromLines(parse, m, lines + [line], after, places)
    ensures parse(line).Some? ==>
              FromLines(parse, m, lines + [line], after + [parse(line).value], places + [|lines|])
  {
    var all := lines + [line];
    assert forall j :: 0 <= j < |places| ==> all[places[j]] == lines[places[j]];
    if parse(line).Some? {
      var rows, more := after + [parse(line).value], places + [|lines|];
      forall j | 0 <= j < |more| ensures parse(all[more[j]]) == Some(rows[m + j]) {
        if j < |places| { assert more[j] == places[j] && rows[m + j] == after[m + j]; }
      }
    }
  }

  lemma OrderNext(parse: string -> Option<Row>, m: nat, lines: seq<string>, line: string,
                  before: seq<Row>, after: seq<Row>, places: seq<nat>) returns (more: seq<nat>)
    requires FromLines(parse, m, lines, before, places)
    requires after == before || (parse(line).Some? && after == before + [parse(line).value])
    ensures FromLines(parse, m, lines + [line], after, more)
  {
    FromLinesNext(parse, m, lines, line, before, places);
    more := if after == before then places else places + [|lines|];
  }

  ghost predicate Ordered(rows: seq<Row>, lines: seq<string>, after: seq<Row>) {
    exists places :: FromLines(ParseLine, |rows|, lines, after, places)
  }

  lemma OneLineRow(i: Ingest, parsed: Option<Row>, broken: bool)
    ensures var rows := Count(i, parsed, broken).rows;
      rows == i.rows || (parsed.Some? && rows == i.rows + [parsed.value])
  {
  }

  lemma OrderStep(rows: seq<Row>, init: seq<string>, line: string, broken: nat -> bool)
    requires Ordered(rows, init, Lines(rows, init, broken).rows)
    ensures Ordered(rows, init + [line], Lines(rows, init + [line], broken).rows)
  {
    var i := Lines(rows, init, broken);
    NextLine(rows, init, line, broken);
    OneLineRow(i, ParseLine(line), broken(|init|));
    OrderedNext(rows, init, line, i.rows, Lines(rows, init + [line], broken).rows);
  }

  lemma OrderedNext(rows: seq<Row>, init: seq<string>, line: string, before: seq<Row>, after: seq<Row>)
    requires Ordered(rows, init, before)
    requires after == before || (ParseLine(line).Some? && after == before + [ParseLine(line).value])
    ensures Ordered(rows, init + [line], after)
  {
    var places :| FromLines(ParseLine, |rows|, init, before, places);
    var more := OrderNext(ParseLine, |rows|, init, line, before, after, places);
  }

  // The new rows stand behind the old ones, in the order of their lines.
  lemma NewRowsInOrder(rows: seq<Row>, lines: seq<string>, broken: nat -> bool) returns (places: seq<nat>)
    ensures FromLines(ParseLine, |rows|, lines, Lines(rows, lines, broken).rows, places)
  {
    var holds := (ls: seq<string>) => Ordered(rows, ls, Lines(rows, ls, broken).rows);
    assert FromLines(ParseLine, |rows|, [], rows, []);
    forall init: seq<string>, line: string | holds(init) ensures holds(init + [line]) {
      OrderStep(rows, init, line, broken);
    }
    Seqs.Induction(holds, lines);
    assert holds(lines);
    places :| FromLines(ParseLine, |rows|, lines, Lines(rows, lines, broken).rows, places);
  }

  // When every insert works, what is stored is exactly what was there and what the lines call for,
  // malformed lines or not.
  lemma {:induction false} RowsWhenWorking(rows: seq<Row>, lines: seq<string>, broken: nat -> bool)
    requires Working(broken, |lines|)
    ensures RowSet(Lines(rows, lines, broken).rows) == RowSet(rows) + Parsed(lines)
  {
    if lines != [] {
      var n := |lines| - 1;
      WorkingSnoc(broken, n);
      RowsWhenWorking(rows, lines[..n], broken);
      OneLineRows(Lines(rows, lines[..n], broken), lines[n], broken(n));
    }
  }

  // A file whose rows are all stored changes nothing, whatever fails; and with working inserts only
  // such a file changes nothing.
  lemma {:induction false} NothingNew(rows: seq<Row>, lines: seq<string>, broken: nat -> bool)
    requires Parsed(lines) <= RowSet(rows)
    ensures Lines(rows, lines, broken).rows == rows && Lines(rows, lines, broken).inserted == 0
  {
    if lines != [] {
      var n := |lines| - 1;
      NothingNew(rows, lines[..n], broken);
      if ParseLine(lines[n]).Some? {
        assert ParseLine(lines[n]).value in Parsed(lines);
        assert ParseLine(lines[n]).value in rows;
      }
    }
  }

  lemma NothingNewIff(rows: seq<Row>, lines: seq<string>, broken: nat -> bool)
    requires Working(broken, |lines|)
    ensures Lines(rows, lines, broken).rows == rows <==> Parsed(lines) <= RowSet(rows)
  {
    if Parsed(lines) <= RowSet(rows) { NothingNew(rows, lines, broken); }
    RowsWhenWorking(rows, lines, broken);
  }

  // Ingesting a file again inserts nothing, whatever fails the second time.
  lemma AgainInsertsNothing(rows: seq<Row>, file: seq<string>, broken: nat -> bool, broken': nat -> bool)
    requires Working(broken, |Body(file)|)
    ensures var once := Ingested(rows, file, broken).rows;
      Ingested(once, file, broken').rows == once && Ingested(once, file, broken').inserted == 0
  {
    RowsWhenWorking(rows, Body(file), broken);
    NothingNew(Ingested(rows, file, broken).rows, Body(file), broken');
  }

  lemma {:induction false} DistinctSize(rows: seq<Row>)
    requires Distinct(rows)
    ensures multiset(rows) == multiset(RowSet(rows))
  {
    if rows == [] {
      assert RowSet(rows) == {};
    } else {
      var n := |rows| - 1;
      DistinctSize(rows[..n]);
      assert rows == rows[..n] + [rows[n]];
      assert rows[n] !in rows[..n];
      assert RowSet(rows) == RowSet(rows[..n]) + {rows[n]};
    }
  }

  lemma SameRowsSamePermutation(a: seq<Row>, b: seq<Row>)
    requires Distinct(a) && Distinct(b) && RowSet(a) == RowSet(b)
    ensures multiset(a) == multiset(b)
  {
    DistinctSize(a);
    DistinctSize(b);
  }

  // Two files in either order leave the same rows, and so the same aggregates.
  lemma FileOrderDoesNotMatter(rows: seq<Row>, f: seq<string>, g: seq<string>)
    requires Distinct(rows)
    ensures var fg := Ingested(Ingested(rows, f, Never()).rows, g, Never()).rows;
      var gf := Ingested(Ingested(rows, g, Never()).rows, f, Never()).rows;
      && multiset(fg) == multiset(gf)
      && Aggregation.Upserts(map[], ReadAll(fg)) == Aggregation.Upserts(map[], ReadAll(gf))
  {
    var rf, rg := Ingested(rows, f, Never()).rows, Ingested(rows, g, Never()).rows;
    TwoFiles(rows, f, g);
    TwoFiles(rows, g, f);
    var fg, gf := Ingested(rf, g, Never()).rows, Ingested(rg, f, Never()).rows;
    SameRowsSamePermutation(fg, gf);
    Aggregation.RowOrderDoesNotMatter(fg, gf);
  }

  lemma TwoFiles(rows: seq<Row>, f: seq<string>, g: seq<string>)
    requires Distinct(rows)
    ensures var fg := Ingested(Ingested(rows, f, Never()).rows, g, Never()).rows;
      Distinct(fg) && RowSet(fg) == RowSet(rows) + Parsed(Body(f)) + Parsed(Body(g))
  {
    var rf := Ingested(rows, f, Never()).rows;
    EveryLineIsCounted(rows, Body(f), Never());
    EveryLineIsCounted(rf, Body(g), Never());
    RowsWhenWorking(rows, Body(f), Never());
    RowsWhenWorking(rf, Body(g), Never());
  }

  lemma {:induction false} ParsedAreQuotable(lines: seq<string>)
    requires forall i :: 0 <= i < |lines| ==> QuoteFree(lines[i])
    ensures forall r :: r in Parsed(lines) ==> Quotable(r)
  {
    if lines != [] {
      var n := |lines| - 1;
      ParsedAreQuotable(lines[..n]);
      if ParseLine(lines[n]).Some? { StoredRowIsQuotable(lines[n]); }
    }
  }

  // Files without quotes keep the table fit for the page text.
  lemma TableStaysQuotable(rows: seq<Row>, lines: seq<string>, broken: nat -> bool)
    requires AllQuotable(rows) && forall i :: 0 <= i < |lines| ==> QuoteFree(lines[i])
    ensures AllQuotable(Lines(rows, lines, broken).rows)
  {
    var after := Lines(rows, lines, broken).rows;
    RowsAfter(rows, lines, broken);
    ParsedAreQuotable(lines);
    forall i | 0 <= i < |after| ensures Quotable(after[i]) {
      assert after[i] in RowSet(after);
    }
  }

  lemma {:induction false} ParsedFlagsFit(lines: seq<string>)
    ensures forall r :: r in Parsed(lines) ==> QuotableFlags(r)
  {
    if lines != [] {
      var n := |lines| - 1;
      ParsedFlagsFit(lines[..n]);
      if ParseLine(lines[n]).Some? { StoredRowIsQuotable(lines[n]); }
    }
  }

  // Whatever the files hold, the flags fit the page text.
  lemma TableFlagsFit(rows: seq<Row>, lines: seq<string>, broken: nat -> bool)
    requires AllFlags(rows)
    ensures AllFlags(Lines(rows, lines, broken).rows)
  {
    var after := Lines(rows, lines, broken).rows;
    RowsAfter(rows, lines, broken);
    ParsedFlagsFit(lines);
    forall i | 0 <= i < |after| ensures QuotableFlags(after[i]) {
      assert after[i] in RowSet(after);
    }
  }

  // --- Files written by the downloader ---

  function TextOf(m: Measured): string {
    LineText(Written(m))
  }

  function Arrives(m: Measured): Row {
    Row(m.station, m.date, m.element, Rounded(m.value), "", "", "")
  }

  function Each(text: Measured -> string, ms: seq<Measured>): (lines: seq<string>)
    ensures |lines| == |ms|
  {
    seq(|ms|, i requires 0 <= i < |ms| => text(ms[i]))
  }

  // The file the downloader writes: one line a record, no header.
  function FileText(ms: seq<Measured>): seq<string> {
    Each(TextOf, ms)
  }

  function Arrived(row: Measured -> Row, ms: seq<Measured>): set<Row> {
    set m | m in ms :: row(m)
  }

  lemma EachInit(text: Measured -> string, ms: seq<Measured>, n: nat)
    requires n + 1 == |ms|
    ensures Each(text, ms)[..n] == Each(text, ms[..n])
  {
  }

  lemma ArrivedInit(row: Measured -> Row, ms: seq<Measured>, n: nat)
    requires n + 1 == |ms|
    ensures Arrived(row, ms) == Arrived(row, ms[..n]) + {row(ms[n])}
  {
    assert ms == ms[..n] + [ms[n]];
  }

  lemma ParsedLast(lines: seq<string>, n: nat, r: Row)
    requires n + 1 == |lines| && ParseLine(lines[n]) == Some(r)
    ensures Parsed(lines) == Parsed(lines[..n]) + {r}
  {
  }

  lemma {:induction false} ParsedOfEach(text: Measured -> string, row: Measured -> Row, ms: seq<Measured>)
    requires forall m :: m in ms ==> ParseLine(text(m)) == Some(row(m))
    ensures Parsed(Each(text, ms)) == Arrived(row, ms)
  {
    if ms == [] {
      assert Each(text, ms) == [];
    } else {
      var n := |ms| - 1;
      ParsedOfEach(text, row, ms[..n]);
      EachInit(text, ms, n);
      ArrivedInit(row, ms, n);
      ParsedLast(Each(text, ms), n, row(ms[n]));
    }
  }

  // Records of which fgets makes one line each, with texts of the widths the scan expects.
  ghost predicate AllFit(ms: seq<Measured>) {
    forall m :: m in ms ==> PlainTexts(Written(m)) && Fits(Written(m)) && OneLine(TextOf(m))
  }

  ghost predicate OneLine(line: string) {
    1 <= |line| < LINE_BUFFER && forall i :: 0 <= i < |line| - 1 ==> line[i] != '\n'
  }

  lemma ParsedOfWritten(ms: seq<Measured>)
    requires AllFit(ms)
    ensures Parsed(FileText(ms)) == Arrived(Arrives, ms)
  {
    forall m | m in ms ensures ParseLine(TextOf(m)) == Some(Arrives(m)) { QualityIsLost(m); }
    ParsedOfEach(TextOf, Arrives, ms);
  }

  // Of a downloaded file the first record is taken for a header and lost, and every other one is
  // stored without its quality flag.
  lemma DownloadedFileArrives(ms: seq<Measured>)
    requires AllFit(ms) && ms != []
    ensures RowSet(Ingested([], FileText(ms), Never()).rows) == Arrived(Arrives, ms[1..])
  {
    assert Body(FileText(ms)) == FileText(ms[1..]);
    RowsWhenWorking([], FileText(ms[1..]), Never());
    ParsedOfWritten(ms[1..]);
  }
}

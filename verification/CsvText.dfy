// One line of a station file as the ingestion service scans it, and as the downloader writes it.
module CsvText {
  import opened Text
  import opened PageText

  // --- Scanning: "%11[^,],%8[^,],%5[^,],%lf,%1[^,],%1[^,],%1s" ---

  predicate NotComma(c: char) {
    c != ','
  }

  // %<width>[^,] at the place the scan has reached; None means the scan has stopped.
  function Cut(at: Option<string>, width: nat): (string, Option<string>) {
    match at
    case None => ("", None)
    case Some(t) =>
      var n := Text.Min(Span(NotComma, t), width);
      if n == 0 then ("", None) else (t[..n], Some(t[n..]))
  }

  // A comma of the format.
  function Comma(at: Option<string>): Option<string> {
    match at
    case None => None
    case Some(t) => if t != [] && t[0] == ',' then Some(t[1..]) else None
  }

  function CutNumber(at: Option<string>): Option<(real, string)> {
    match at
    case None => None
    case Some(t) => ScanReal(t)
  }

  // %1s
  function CutFlag(at: Option<string>): string {
    match at
    case None => ""
    case Some(t) => ScanWord(t, 1).0
  }

  // The flags are a prefix: the scan stops at the first empty one.
  function ScanFlags(at: Option<string>): (string, string, string) {
    var (m, at1) := Cut(Comma(at), 1);
    var (q, at2) := Cut(Comma(at1), 1);
    (m, q, CutFlag(Comma(at2)))
  }

  // The row of a line, or None when fewer than four conversions succeed.
  function ParseLine(line: string): Option<Row> {
    var (station, at1) := Cut(Some(line), 11);
    var (date, at2) := Cut(Comma(at1), 8);
    var (element, at3) := Cut(Comma(at2), 5);
    match CutNumber(Comma(at3))
    case None => None
    case Some((value, rest)) =>
      var (m, q, s) := ScanFlags(Some(rest));
      Some(Row(station, date, element, value, m, q, s))
  }

  // --- Writing ---

  function Tenths(v: real): int {
    var low := (v * 10.0).Floor;
    var rest := v * 10.0 - low as real;
    if rest < 0.5 || (rest == 0.5 && low % 2 == 0) then low else low + 1
  }

  // %.1f
  function PrintTenths(v: real): string {
    var abs := Text.Abs(Tenths(v));
    SignText(v < 0.0) + (PrintNat(abs / 10) + ("." + [Digit(abs % 10)]))
  }

  // The texts of a row in front of a number and what follows it.
  function Fields(r: Row, atValue: string): string {
    r.station + ("," + (r.date + ("," + (r.element + ("," + atValue)))))
  }

  // "%s,%s,%s,%.1f,%s,%s,%s\n"
  function LineText(r: Row): string {
    Fields(r, ValueText(r.value, "," + PrintFlags(r)))
  }

  function ValueText(v: real, rest: string): string {
    PrintTenths(v) + rest
  }

  function PrintFlags(r: Row): string {
    r.mflag + ("," + (r.qflag + ("," + (r.sflag + "\n"))))
  }

  // --- What a written line is read back as ---

  ghost predicate CommaFree(s: string) {
    forall c :: c in s ==> c != ','
  }

  // A flag is empty or one character but a comma.
  ghost predicate Flag(s: string) {
    |s| <= 1 && CommaFree(s)
  }

  // The last one may be a comma, but %1s skips blanks.
  ghost predicate LastFlag(s: string) {
    |s| <= 1 && (s != "" ==> !IsSpace(s[0]))
  }

  ghost predicate PlainTexts(r: Row) {
    CommaFree(r.station) && CommaFree(r.date) && CommaFree(r.element)
  }

  ghost predicate Writable(r: Row) {
    PlainTexts(r) && CommaFree(r.mflag) && CommaFree(r.qflag)
  }

  predicate Fits(r: Row) {
    1 <= |r.station| <= 11 && 1 <= |r.date| <= 8 && 1 <= |r.element| <= 5
  }

  function Rounded(v: real): real {
    Tenths(v) as real / 10.0
  }

  // A flag is cut to one character, and the scan stops behind one that is empty or longer.
  function Kept(r: Row): Row {
    Row(r.station, r.date, r.element, Rounded(r.value), Truncate(r.mflag, 1),
        if |r.mflag| == 1 then Truncate(r.qflag, 1) else "",
        if |r.mflag| == 1 && |r.qflag| == 1 then Truncate(SkipSpace(r.sflag), 1) else "")
  }

  lemma CutWord(w: string, rest: string, width: nat)
    requires CommaFree(w)
    ensures Comma(Cut(Some(w + ("," + rest)), width).1) == if 1 <= |w| <= width then Some(rest) else None
    ensures 1 <= |w| <= width ==> Cut(Some(w + ("," + rest)), width).0 == w
  {
    var t := w + ("," + rest);
    SpanExact(NotComma, w, "," + rest);
    assert t[|w|..] == "," + rest;
    if 0 < width < |w| { assert t[width..][0] == w[width]; }
  }

  lemma StoppedStaysStopped(width: nat)
    ensures Comma(Cut(None, width).1) == None
  {
  }

  lemma {:induction false} LastFlagRead(f: string)
    ensures CutFlag(Some(f + "\n")) == Truncate(SkipSpace(f), 1)
  {
    if f == "" {
      assert f + "\n" == "\n" && SkipSpace("\n"[1..]) == [];
    } else if IsSpace(f[0]) {
      assert (f + "\n")[1..] == f[1..] + "\n";
      LastFlagRead(f[1..]);
    } else {
      assert (f + "\n")[0] == f[0];
    }
  }

  lemma CutFlagWord(w: string, rest: string)
    requires CommaFree(w)
    ensures Cut(Some(w + ("," + rest)), 1).0 == Truncate(w, 1)
    ensures Comma(Cut(Some(w + ("," + rest)), 1).1) == if |w| == 1 then Some(rest) else None
  {
    SpanExact(NotComma, w, "," + rest);
    CutWord(w, rest, 1);
  }

  lemma FlagsReadBack(r: Row)
    requires CommaFree(r.mflag) && CommaFree(r.qflag)
    ensures ScanFlags(Some("," + PrintFlags(r))) == (Kept(r).mflag, Kept(r).qflag, Kept(r).sflag)
  {
    var qs := r.qflag + ("," + (r.sflag + "\n"));
    assert ("," + PrintFlags(r))[1..] == r.mflag + ("," + qs);
    CutFlagWord(r.mflag, qs);
    CutFlagWord(r.qflag, r.sflag + "\n");
    LastFlagRead(r.sflag);
  }

  // An empty field stops the scan.
  lemma NoFlag(rest: string)
    ensures Cut(Some("" + ("," + rest)), 1) == ("", None)
  {
  }

  lemma TenthRoundTrip(negative: bool, abs: nat, a: nat, b: nat, rest: string)
    requires b < 10 && abs == 10 * a + b && (rest == [] || !IsDigit(rest[0]))
    ensures ScanReal(SignText(negative) + (PrintNat(a) + ("." + [Digit(b)])) + rest) ==
            Some((if negative then -(abs as real / 10.0) else abs as real / 10.0, rest))
  {
    NatRoundTrip(a);
    OneDigit(b);
    TenthsDecimal(a, b);
    ScanPrintedFraction(negative, abs as real / 10.0, PrintNat(a), [Digit(b)], rest);
  }

  lemma TenthsRoundTrip(v: real, rest: string)
    requires rest == [] || !IsDigit(rest[0])
    ensures ScanReal(PrintTenths(v) + rest) == Some((Rounded(v), rest))
  {
    var abs := Text.Abs(Tenths(v));
    TenthRoundTrip(v < 0.0, abs, abs / 10, abs % 10, rest);
    TenthsKeepSign(v);
  }

  lemma OneDigit(d: nat)
    requires d < 10
    ensures NatOf([Digit(d)]) == d
  {
    assert [Digit(d)][..0] == [];
  }

  lemma TenthsDecimal(a: nat, b: nat)
    requires b < 10
    requires forall i :: 0 <= i < |PrintNat(a)| ==> IsDigit(PrintNat(a)[i])
    requires NatOf(PrintNat(a)) == a && NatOf([Digit(b)]) == b
    ensures Decimal(PrintNat(a), [Digit(b)]) == (10 * a + b) as real / 10.0
  {
    assert Pow10(1) == 10;
    assert (10 * a + b) as real == 10.0 * a as real + b as real;
  }

  lemma TenthsKeepSign(v: real)
    ensures Rounded(v) == if v < 0.0 then -(Text.Abs(Tenths(v)) as real / 10.0) else Text.Abs(Tenths(v)) as real / 10.0
  {
    assert v < 0.0 ==> (v * 10.0).Floor < 0;
    assert v >= 0.0 ==> (v * 10.0).Floor >= 0;
  }

  function WithFlags(r: Row, v: real, flags: (string, string, string)): Row {
    Row(r.station, r.date, r.element, v, flags.0, flags.1, flags.2)
  }

  // Everything up to the value, whatever stands there.
  lemma FieldsScanned(r: Row, atValue: string)
    requires PlainTexts(r)
    ensures ParseLine(Fields(r, atValue)) ==
            if !Fits(r) then None
            else match ScanReal(atValue)
              case None => None
              case Some((v, tail)) => Some(WithFlags(r, v, ScanFlags(Some(tail))))
  {
    var atElement := r.element + ("," + atValue);
    CutWord(r.station, r.date + ("," + atElement), 11);
    CutWord(r.date, atElement, 8);
    CutWord(r.element, atValue, 5);
    StoppedStaysStopped(8);
    StoppedStaysStopped(5);
  }

  // Everything up to the value in tenths, whatever stands after it.
  lemma TextsScanned(r: Row, tail: string)
    requires PlainTexts(r) && (tail == [] || !IsDigit(tail[0]))
    ensures ParseLine(Fields(r, ValueText(r.value, tail))) ==
            if Fits(r) then Some(WithFlags(r, Rounded(r.value), ScanFlags(Some(tail)))) else None
  {
    TenthsRoundTrip(r.value, tail);
    FieldsScanned(r, ValueText(r.value, tail));
  }

  // The line of a row whose value is written as an integer.
  function IntegerLine(r: Row, n: int): string {
    Fields(r, PrintInt(n) + ("," + PrintFlags(r)))
  }

  // It is stored with that value, without a point as with one.
  lemma IntegerLineIsStored(r: Row, n: int)
    requires Writable(r)
    ensures ParseLine(IntegerLine(r, n)) ==
            if 1 <= |r.station| <= 11 && 1 <= |r.date| <= 8 && 1 <= |r.element| <= 5
            then Some(Kept(r).(value := n as real)) else None
  {
    IntegerIsRead(n, "," + PrintFlags(r));
    FieldsScanned(r, PrintInt(n) + ("," + PrintFlags(r)));
    FlagsReadBack(r);
  }

  // A value of digits before and behind the point is stored as the number it denotes.
  lemma DecimalLineIsStored(r: Row, negative: bool, ds: string, fs: string, v: real)
    requires Writable(r) && Fits(r)
    requires ds + fs != [] && forall i :: 0 <= i < |ds| ==> IsDigit(ds[i])
    requires forall i :: 0 <= i < |fs| ==> IsDigit(fs[i])
    requires v == NatOf(ds + fs) as real / Pow10(|fs|) as real
    ensures ParseLine(Fields(r, SignText(negative) + (ds + ("." + (fs + ("," + PrintFlags(r))))))) ==
            Some(Kept(r).(value := if negative then -v else v))
  {
    DecimalIsRead(negative, ds, fs, "," + PrintFlags(r), v);
    FieldsScanned(r, SignText(negative) + (ds + ("." + (fs + ("," + PrintFlags(r))))));
    FlagsReadBack(r);
  }

  function ExampleRow(): Row {
    Row("USW00094728", "20240101", "TMAX", 55.0, "", "", "W")
  }

  lemma ExampleHead(t: string)
    ensures Fields(ExampleRow(), t) == "USW00094728,20240101,TMAX," + t
  {
    assert "," + ("20240101" + ("," + ("TMAX" + ("," + t)))) == ",20240101,TMAX," + t;
  }

  lemma ExampleTail()
    ensures PrintInt(55) + ("," + PrintFlags(ExampleRow())) == "55,,,W\n"
  {
    assert PrintNat(55) == PrintNat(5) + ['5'];
  }

  lemma ExampleText()
    ensures IntegerLine(ExampleRow(), 55) == "USW00094728,20240101,TMAX,55,,,W\n"
  {
    ExampleHead("55,,,W\n");
    ExampleTail();
    assert "USW00094728,20240101,TMAX," + "55,,,W\n" == "USW00094728,20240101,TMAX,55,,,W\n";
  }

  lemma ExampleIsKept()
    ensures Writable(ExampleRow())
    ensures Kept(ExampleRow()).(value := 55.0) == Row("USW00094728", "20240101", "TMAX", 55.0, "", "", "")
  {
  }

  // A line with an integer value and two empty flags.
  lemma ExampleLine()
    ensures ParseLine("USW00094728,20240101,TMAX,55,,,W\n") ==
            Some(Row("USW00094728", "20240101", "TMAX", 55.0, "", "", ""))
  {
    ExampleText();
    ExampleIsKept();
    IntegerLineIsStored(ExampleRow(), 55);
  }

  // The value written for a line is the nearest tenth, a tie going to the even one.
  lemma NearestTenth(v: real)
    ensures var d := v * 10.0 - Tenths(v) as real;
      -0.5 <= d <= 0.5 && (d == 0.5 || d == -0.5 ==> Tenths(v) % 2 == 0)
  {
  }

  // For every row without commas but in the last flag: the line is accepted exactly when the texts have the
  // widths of the scan, and then comes back with the value in tenths and the flags cut.
  lemma WrittenLineIsRead(r: Row)
    requires Writable(r)
    ensures ParseLine(LineText(r)) ==
            if 1 <= |r.station| <= 11 && 1 <= |r.date| <= 8 && 1 <= |r.element| <= 5 then Some(Kept(r)) else None
  {
    assert !IsDigit(("," + PrintFlags(r))[0]);
    TextsScanned(r, "," + PrintFlags(r));
    FlagsReadBack(r);
  }

  // A line that ends after the comma of the value is stored with a newline as its measurement flag.
  lemma NewlineBecomesFlag(r: Row)
    requires PlainTexts(r) && Fits(r)
    ensures ParseLine(Fields(r, ValueText(r.value, ",\n"))) ==
            Some(Row(r.station, r.date, r.element, Rounded(r.value), "\n", "", ""))
  {
    TextsScanned(r, ",\n");
    NewlineScanned();
  }

  lemma NewlineScanned()
    ensures ScanFlags(Some(",\n")) == ("\n", "", "")
  {
    assert ",\n"[1..] == "\n";
    NewlineCut("\n");
  }

  lemma NewlineCut(t: string)
    requires |t| == 1 && t[0] != ','
    ensures Cut(Some(t), 1) == (t, Some(""))
  {
    SpanExact(NotComma, t, "");
    assert t + "" == t && t[..1] == t && t[1..] == "";
  }

  // --- What every accepted line is stored as ---

  ghost predicate Plain(at: Option<string>) {
    at.Some? ==> QuoteFree(at.value)
  }

  lemma CutIsPlain(at: Option<string>, width: nat)
    ensures |Cut(at, width).0| <= width
    ensures Comma(Cut(at, width).1).Some? ==> Cut(at, width).0 != []
    ensures Plain(at) ==> QuoteFree(Cut(at, width).0) && Plain(Comma(Cut(at, width).1))
  {
  }

  lemma {:induction false} SkipIsPlain(t: string)
    requires QuoteFree(t)
    ensures QuoteFree(SkipSpace(t))
  {
    if t != [] && IsSpace(t[0]) { SkipIsPlain(t[1..]); }
  }

  lemma NumberIsPlain(t: string)
    requires QuoteFree(t) && ScanReal(t).Some?
    ensures QuoteFree(ScanReal(t).value.1)
  {
    SkipIsPlain(t);
    var u := AfterSign(SkipSpace(t));
    assert QuoteFree(u);
    SuffixIsPlain(u, Span(IsDigit, u));
  }

  lemma SuffixIsPlain(u: string, n: nat)
    requires QuoteFree(u) && n <= |u|
    ensures QuoteFree(u[n..])
    ensures forall k :: n < k <= |u| ==> QuoteFree(u[k..])
  {
  }

  lemma FlagsArePlain(rest: string)
    ensures var (m, q, s) := ScanFlags(Some(rest)); |m| <= 1 && |q| <= 1 && |s| <= 1
    ensures var (m, q, s) := ScanFlags(Some(rest)); (m == "" ==> q == "") && (q == "" ==> s == "")
    ensures QuoteFree(rest) ==> var (m, q, s) := ScanFlags(Some(rest)); QuoteFree(m) && QuoteFree(q) && QuoteFree(s)
  {
    var at := Comma(Some(rest));
    CutIsPlain(at, 1);
    var at1 := Comma(Cut(at, 1).1);
    CutIsPlain(at1, 1);
    LastIsPlain(Comma(Cut(at1, 1).1));
  }

  lemma LastIsPlain(at: Option<string>)
    ensures |CutFlag(at)| <= 1 && (Plain(at) ==> QuoteFree(CutFlag(at)))
  {
    if at.Some? && QuoteFree(at.value) { SkipIsPlain(at.value); }
  }

  // Whatever the line: the stored texts have the widths of the scan, the flags are a prefix, and a line
  // without quotes gives a row without quotes.
  lemma StoredRowIsNarrow(line: string)
    requires ParseLine(line).Some?
    ensures var r := ParseLine(line).value;
      && Fits(r) && |r.mflag| <= 1 && |r.qflag| <= 1 && |r.sflag| <= 1
      && (r.mflag == "" ==> r.qflag == "") && (r.qflag == "" ==> r.sflag == "")
      && (QuoteFree(line) ==> QuotableTexts(r))
  {
    CutIsPlain(Some(line), 11);
    var at1 := Comma(Cut(Some(line), 11).1);
    CutIsPlain(at1, 8);
    var at2 := Comma(Cut(at1, 8).1);
    CutIsPlain(at2, 5);
    var at3 := Comma(Cut(at2, 5).1);
    FlagsArePlain(ScanReal(at3.value).value.1);
    if QuoteFree(line) { NumberIsPlain(at3.value); }
  }

  lemma CutIsCommaFree(at: Option<string>, width: nat)
    ensures CommaFree(Cut(at, width).0)
  {
  }

  lemma ScannedFlags(rest: string)
    ensures var (m, q, s) := ScanFlags(Some(rest));
      Flag(m) && Flag(q) && LastFlag(s) && (m == "" ==> q == "") && (q == "" ==> s == "")
  {
    FlagsArePlain(rest);
    var at := Comma(Some(rest));
    CutIsCommaFree(at, 1);
    CutIsCommaFree(Comma(Cut(at, 1).1), 1);
  }

  // What any accepted line is stored as could be written without loss.
  lemma ScannedShape(line: string)
    requires ParseLine(line).Some?
    ensures WithinLine(ParseLine(line).value)
  {
    StoredRowIsNarrow(line);
    CutIsCommaFree(Some(line), 11);
    var at1 := Comma(Cut(Some(line), 11).1);
    CutIsCommaFree(at1, 8);
    var at2 := Comma(Cut(at1, 8).1);
    CutIsCommaFree(at2, 5);
    ScannedFlags(ScanReal(Comma(Cut(at2, 5).1).value).value.1);
  }

  // The texts hold no comma and have the widths of the scan; the flags are flags, none behind an empty one.
  ghost predicate WithinLine(r: Row) {
    && PlainTexts(r) && Fits(r) && Flag(r.mflag) && Flag(r.qflag) && LastFlag(r.sflag)
    && (r.mflag == "" ==> r.qflag == "") && (r.qflag == "" ==> r.sflag == "")
  }

  // The exact condition, for every row: scanned as one line it comes back with its texts and all its flags.
  lemma FlagsSurviveIff(r: Row)
    ensures ParseLine(LineText(r)) == Some(r.(value := Rounded(r.value))) <==> WithinLine(r)
  {
    if WithinLine(r) {
      WrittenLineIsRead(r);
    }
    if ParseLine(LineText(r)).Some? { ScannedShape(LineText(r)); }
  }

  lemma ShortFlagText(f: string)
    requires |f| <= 1
    ensures FlagText(f)
  {
  }

  // So whatever the line its flags fit the page text, and without a quote in it the whole row does.
  lemma StoredRowIsQuotable(line: string)
    requires ParseLine(line).Some?
    ensures QuotableFlags(ParseLine(line).value)
    ensures QuoteFree(line) ==> Quotable(ParseLine(line).value)
  {
    StoredRowIsNarrow(line);
    var r := ParseLine(line).value;
    ShortFlagText(r.mflag);
    ShortFlagText(r.qflag);
    ShortFlagText(r.sflag);
  }

  // --- The downloader's file ---

  datatype Measured = Measured(station: string, date: string, element: string, value: real, quality: string)

  // The downloader leaves the first and last flag empty and writes no header.
  function Written(m: Measured): Row {
    Row(m.station, m.date, m.element, m.value, "", m.quality, "")
  }

  // The quality flag never arrives, whatever it is: the empty measurement flag before it stops the scan.
  lemma QualityIsLost(m: Measured)
    requires PlainTexts(Written(m)) && Fits(Written(m))
    ensures ParseLine(LineText(Written(m))) ==
            Some(Row(m.station, m.date, m.element, Rounded(m.value), "", "", ""))
  {
    var tail := "," + PrintFlags(Written(m));
    assert !IsDigit(tail[0]);
    TextsScanned(Written(m), tail);
    EmptyFlagStops(m.quality + ("," + ("" + "\n")));
  }

  lemma EmptyFlagStops(rest: string)
    ensures ScanFlags(Some("," + ("" + ("," + rest)))) == ("", "", "")
  {
    NoFlag(rest);
    assert ("," + ("" + ("," + rest)))[1..] == "" + ("," + rest);
  }
}

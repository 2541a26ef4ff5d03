// The C library text primitives the services are written with, on strings without a NUL.
module Text {
  import opened Seqs

  datatype Option<+T> = None | Some(value: T)

  // isspace in the C locale: space, \t, \n, \v, \f, \r.
  predicate IsSpace(c: char) {
    c == ' ' || '\t' <= c <= '\r'
  }

  predicate IsDigit(c: char) {
    '0' <= c <= '9'
  }

  function SkipSpace(s: string): string {
    if s != [] && IsSpace(s[0]) then SkipSpace(s[1..]) else s
  }

  // How many leading characters satisfy a predicate.
  function Span(p: char -> bool, s: string): (n: nat)
    ensures n <= |s|
    ensures forall i :: 0 <= i < n ==> p(s[i])
    ensures n < |s| ==> !p(s[n])
  {
    if s != [] && p(s[0]) then 1 + Span(p, s[1..]) else 0
  }

  lemma {:induction false} SpanExact(p: char -> bool, a: string, b: string)
    requires forall c :: c in a ==> p(c)
    requires b == [] || !p(b[0])
    ensures Span(p, a + b) == |a|
  {
    if a == [] {
      assert a + b == b;
    } else {
      assert (a + b)[1..] == a[1..] + b;
      SpanExact(p, a[1..], b);
    }
  }

  lemma {:induction false} SpanAtLeast(p: char -> bool, a: string, b: string)
    requires forall c :: c in a ==> p(c)
    ensures |a| <= Span(p, a + b)
  {
    if a != [] {
      assert (a + b)[1..] == a[1..] + b;
      SpanAtLeast(p, a[1..], b);
    }
  }

  function Min(a: nat, b: nat): nat {
    if a < b then a else b
  }

  // strncmp(s, prefix, strlen(prefix)) == 0
  predicate StartsWith(s: string, prefix: string) {
    |prefix| <= |s| && s[..|prefix|] == prefix
  }

  // --- %s with a width ---

  predicate NotSpace(c: char) {
    !IsSpace(c)
  }

  // %<width>s: the word and what follows it. An empty word means the conversion failed.
  function ScanWord(s: string, width: nat): (string, string) {
    var t := SkipSpace(s);
    var n := Min(Span(NotSpace, t), width);
    (t[..n], t[n..])
  }

  // --- Integers ---

  function Digit(d: nat): (c: char)
    requires d < 10
    ensures IsDigit(c)
  {
    '0' + d as char
  }

  function DigitValue(c: char): nat
    requires IsDigit(c)
  {
    (c - '0') as nat
  }

  ghost predicate Digits(s: string) {
    forall c :: c in s ==> IsDigit(c)
  }

  function NatOf(s: string): nat
    requires forall i :: 0 <= i < |s| ==> IsDigit(s[i])
  {
    if s == [] then 0 else 10 * NatOf(s[..|s| - 1]) + DigitValue(s[|s| - 1])
  }

  function PrintNat(n: nat): (s: string)
    ensures s != [] && Digits(s)
  {
    if n < 10 then [Digit(n)] else PrintNat(n / 10) + [Digit(n % 10)]
  }

  lemma {:induction false} NatRoundTrip(n: nat)
    ensures forall i :: 0 <= i < |PrintNat(n)| ==> IsDigit(PrintNat(n)[i])
    ensures NatOf(PrintNat(n)) == n
  {
    var s := PrintNat(n);
    if n < 10 {
      assert s[..0] == [];
    } else {
      NatRoundTrip(n / 10);
      assert s[..|s| - 1] == PrintNat(n / 10);
    }
  }

  // %d
  function PrintInt(n: int): (s: string)
    ensures s != [] && (s[0] == '-' || IsDigit(s[0]))
  {
    SignText(n < 0) + PrintNat(if n < 0 then -n else n)
  }

  predicate Negative(s: string) {
    s != [] && s[0] == '-'
  }

  function AfterSign(s: string): string {
    if s != [] && (s[0] == '-' || s[0] == '+') then s[1..] else s
  }

  function Signed(negative: bool, n: int): int {
    if negative then -n else n
  }

  // %d when scanning
  function ScanInt(s: string): Option<int> {
    var t := SkipSpace(s);
    var u := AfterSign(t);
    var n := Span(IsDigit, u);
    if n == 0 then None else Some(Signed(Negative(t), NatOf(u[..n])))
  }

  function SignText(negative: bool): string {
    if negative then "-" else ""
  }

  // A printed sign is recognised and taken off again.
  lemma SignRoundTrip(negative: bool, u: string)
    requires u != [] && (IsDigit(u[0]) || u[0] == '.')
    ensures var t := SignText(negative) + u;
      SkipSpace(t) == t && AfterSign(t) == u && Negative(t) == negative
  {
    if negative {
      assert ("-" + u)[1..] == u;
    } else {
      var t := SignText(negative) + u;
      assert t == u && t[0] == u[0] && !IsSpace(t[0]);
    }
  }

  lemma ScanSigned(negative: bool, ds: string, rest: string)
    requires ds != [] && (forall i :: 0 <= i < |ds| ==> IsDigit(ds[i])) && (rest == [] || !IsDigit(rest[0]))
    ensures ScanInt(SignText(negative) + (ds + rest)) == Some(Signed(negative, NatOf(ds)))
  {
    var u := ds + rest;
    SpanExact(IsDigit, ds, rest);
    assert u[..|ds|] == ds && u[0] == ds[0];
    SignRoundTrip(negative, u);
  }

  lemma IntRoundTrip(n: int, rest: string)
    requires rest == [] || !IsDigit(rest[0])
    ensures ScanInt(PrintInt(n) + rest) == Some(n)
  {
    var abs: nat := if n < 0 then -n else n;
    NatRoundTrip(abs);
    ScanSigned(n < 0, PrintNat(abs), rest);
    Concat(SignText(n < 0), PrintNat(abs), rest);
  }

  // --- Decimal fractions ---

  function Pow10(n: nat): (p: nat)
    ensures p >= 1
  {
    if n == 0 then 1 else 10 * Pow10(n - 1)
  }

  function Abs(n: int): nat {
    if n < 0 then -n else n
  }

  function PrintParts(a: nat, b: nat, c: nat): string
    requires b < 10 && c < 10
  {
    PrintNat(a) + ("." + [Digit(b), Digit(c)])
  }

  // %.2f of a real: the nearest hundredth, a tie going to the even one.
  function Hundredths(v: real): int {
    var low := (v * 100.0).Floor;
    var rest := v * 100.0 - low as real;
    if rest < 0.5 || (rest == 0.5 && low % 2 == 0) then low else low + 1
  }

  function PrintHundredths(negative: bool, abs: nat): string {
    SignText(negative) + PrintParts(abs / 100, abs / 10 % 10, abs % 10)
  }

  function PrintReal(v: real): string {
    PrintHundredths(v < 0.0, Abs(Hundredths(v)))
  }

  // The value of digits before and after the point.
  function Decimal(ds: string, fs: string): real
    requires forall i :: 0 <= i < |ds| ==> IsDigit(ds[i])
    requires forall i :: 0 <= i < |fs| ==> IsDigit(fs[i])
  {
    NatOf(ds) as real + NatOf(fs) as real / Pow10(|fs|) as real
  }

  // %lf when scanning, for plain decimal notation.
  function ScanReal(s: string): Option<(real, string)> {
    var t := SkipSpace(s);
    var u := AfterSign(t);
    var n := Span(IsDigit, u);
    var dot := n < |u| && u[n] == '.';
    var v := if dot then u[n + 1..] else u[n..];
    var m := if dot then Span(IsDigit, v) else 0;
    if n + m == 0 then None
    else
      Some((if Negative(t) then -Decimal(u[..n], v[..m]) else Decimal(u[..n], v[..m]), v[m..]))
  }

  // The unsigned part: digits, a point, two digits, and something that is not a digit.
  lemma FractionScan(ds: string, fs: string, rest: string)
    requires Digits(ds) && Digits(fs) && (rest == [] || !IsDigit(rest[0]))
    ensures var u := ds + ("." + (fs + rest));
      && Span(IsDigit, u) == |ds| && u[..|ds|] == ds && u[|ds|] == '.' && u[|ds| + 1..] == fs + rest
      && Span(IsDigit, fs + rest) == |fs| && (fs + rest)[..|fs|] == fs && (fs + rest)[|fs|..] == rest
  {
    SpanExact(IsDigit, ds, "." + (fs + rest));
    SpanExact(IsDigit, fs, rest);
  }

  lemma ScanWithPoint(s: string, v: real, u: string, ds: string, fs: string, rest: string)
    requires u == AfterSign(SkipSpace(s)) && Span(IsDigit, u) == |ds| < |u| && u[..|ds|] == ds && u[|ds|] == '.'
    requires var w := u[|ds| + 1..]; Span(IsDigit, w) == |fs| && w[..|fs|] == fs && w[|fs|..] == rest
    requires |ds| + |fs| > 0
    requires (forall i :: 0 <= i < |ds| ==> IsDigit(ds[i])) && forall i :: 0 <= i < |fs| ==> IsDigit(fs[i])
    requires v == Decimal(ds, fs)
    ensures ScanReal(s) == Some((if Negative(SkipSpace(s)) then -v else v, rest))
  {
  }

  lemma ScanWithoutPoint(s: string, u: string, ds: string)
    requires u == AfterSign(SkipSpace(s)) && Span(IsDigit, u) == |ds| > 0 && u[..|ds|] == ds
    requires !(|ds| < |u| && u[|ds|] == '.')
    requires forall i :: 0 <= i < |ds| ==> IsDigit(ds[i])
    ensures ScanReal(s) == Some((if Negative(SkipSpace(s)) then -Decimal(ds, "") else Decimal(ds, ""), u[|ds|..]))
  {
    assert u[|ds|..][..0] == "" && u[|ds|..][0..] == u[|ds|..];
  }

  lemma ScanSignedFraction(negative: bool, v: real, ds: string, fs: string, rest: string)
    requires ds != [] && forall i :: 0 <= i < |ds| ==> IsDigit(ds[i])
    requires forall i :: 0 <= i < |fs| ==> IsDigit(fs[i])
    requires (rest == [] || !IsDigit(rest[0])) && v == Decimal(ds, fs)
    ensures ScanReal(SignText(negative) + (ds + ("." + (fs + rest)))) == Some((if negative then -v else v, rest))
  {
    var u := ds + ("." + (fs + rest));
    FractionScan(ds, fs, rest);
    SignRoundTrip(negative, u);
    ScanWithPoint(SignText(negative) + u, v, u, ds, fs, rest);
  }

  lemma ScanPrintedFraction(negative: bool, v: real, ds: string, fs: string, rest: string)
    requires ds != [] && forall i :: 0 <= i < |ds| ==> IsDigit(ds[i])
    requires forall i :: 0 <= i < |fs| ==> IsDigit(fs[i])
    requires (rest == [] || !IsDigit(rest[0])) && v == Decimal(ds, fs)
    ensures ScanReal(SignText(negative) + (ds + ("." + fs)) + rest) == Some((if negative then -v else v, rest))
  {
    ScanSignedFraction(negative, v, ds, fs, rest);
    Concat(SignText(negative), ds + ("." + fs), rest);
    Concat(ds, "." + fs, rest);
    Concat(".", fs, rest);
  }

  lemma ThreeParts(abs: nat)
    ensures abs == 100 * (abs / 100) + 10 * (abs / 10 % 10) + abs % 10
  {
    var q, c := abs / 10, abs % 10;
    assert abs == 10 * q + c;
    var p, b := q / 10, q % 10;
    assert q == 10 * p + b;
    assert abs == 100 * p + (10 * b + c) && 10 * b + c < 100;
    assert abs / 100 == p;
  }

  lemma HundredthsRoundTrip(negative: bool, v: real, abs: nat, rest: string)
    requires (rest == [] || !IsDigit(rest[0])) && v == abs as real / 100.0
    ensures ScanReal(PrintHundredths(negative, abs) + rest) == Some((if negative then -v else v, rest))
  {
    ThreeParts(abs);
    PartsRoundTrip(negative, v, abs / 100, abs / 10 % 10, abs % 10, rest);
  }

  lemma SignedRoundTrip(negative: bool, h: int, rest: string)
    requires rest == [] || !IsDigit(rest[0])
    requires if negative then h <= 0 else h >= 0
    ensures ScanReal(PrintHundredths(negative, Abs(h)) + rest) == Some((h as real / 100.0, rest))
  {
    HundredthsRoundTrip(negative, Abs(h) as real / 100.0, Abs(h), rest);
  }

  lemma RoundingKeepsSign(v: real)
    ensures if v < 0.0 then Hundredths(v) <= 0 else Hundredths(v) >= 0
  {
    assert v < 0.0 ==> (v * 100.0).Floor < 0;
    assert v >= 0.0 ==> (v * 100.0).Floor >= 0;
  }

  // What %.2f prints, %lf reads back as the value rounded to hundredths.
  lemma RealRoundTrip(v: real, rest: string)
    requires rest == [] || !IsDigit(rest[0])
    ensures ScanReal(PrintReal(v) + rest) == Some((Hundredths(v) as real / 100.0, rest))
  {
    RoundingKeepsSign(v);
    SignedRoundTrip(v < 0.0, Hundredths(v), rest);
  }

  lemma PartsRoundTrip(negative: bool, v: real, a: nat, b: nat, c: nat, rest: string)
    requires b < 10 && c < 10 && (rest == [] || !IsDigit(rest[0])) && v == (100 * a + 10 * b + c) as real / 100.0
    ensures ScanReal(SignText(negative) + PrintParts(a, b, c) + rest) == Some((if negative then -v else v, rest))
  {
    NatRoundTrip(a);
    TwoDigits(b, c);
    DecimalOfHundredths(a, b, c);
    ScanPrintedFraction(negative, v, PrintNat(a), [Digit(b), Digit(c)], rest);
  }

  lemma DecimalOfHundredths(a: nat, b: nat, c: nat)
    requires b < 10 && c < 10
    requires forall i :: 0 <= i < |PrintNat(a)| ==> IsDigit(PrintNat(a)[i])
    requires NatOf(PrintNat(a)) == a && NatOf([Digit(b), Digit(c)]) == 10 * b + c
    ensures Decimal(PrintNat(a), [Digit(b), Digit(c)]) == (100 * a + 10 * b + c) as real / 100.0
  {
    assert Pow10(1) == 10;
    assert Pow10(|[Digit(b), Digit(c)]|) == 100;
    assert (100 * a + 10 * b + c) as real == 100.0 * a as real + (10 * b + c) as real;
  }

  lemma TwoDigits(a: nat, b: nat)
    requires a < 10 && b < 10
    ensures NatOf([Digit(a), Digit(b)]) == 10 * a + b
  {
    var s := [Digit(a), Digit(b)];
    assert s[..1] == [Digit(a)] && [Digit(a)][..0] == [];
    assert NatOf([Digit(a)]) == a;
  }

  // --- strstr ---

  // The suffix starting at the first occurrence of a pattern, as a C pointer into the text.
  function StrStr(s: string, pattern: string): (r: Option<string>)
    ensures r.Some? ==> StartsWith(r.value, pattern) && |r.value| <= |s| && s[|s| - |r.value|..] == r.value
  {
    if StartsWith(s, pattern) then Some(s)
    else if s == [] then None
    else StrStr(s[1..], pattern)
  }

  // strncpy of at most n characters plus the terminator.
  function Truncate(s: string, n: nat): string {
    if |s| <= n then s else s[..n]
  }

  // --- What the scans and prints mean ---

  lemma {:induction false} NatOfConcat(a: string, b: string)
    requires (forall i :: 0 <= i < |a| ==> IsDigit(a[i])) && forall i :: 0 <= i < |b| ==> IsDigit(b[i])
    ensures NatOf(a + b) == NatOf(a) * Pow10(|b|) + NatOf(b)
  {
    if b == [] {
      assert a + b == a;
    } else {
      var n := |b| - 1;
      assert (a + b)[..|a + b| - 1] == a + b[..n];
      NatOfConcat(a, b[..n]);
      assert Pow10(|b|) == 10 * Pow10(n);
      TenTimes(NatOf(a), Pow10(n), NatOf(b[..n]), DigitValue(b[n]));
    }
  }

  lemma TenTimes(a: nat, p: nat, m: nat, d: nat)
    ensures 10 * (a * p + m) + d == a * (10 * p) + (10 * m + d)
  {
    assert a * (10 * p) == 10 * (a * p);
  }

  lemma OverPower(a: nat, p: nat, b: nat)
    requires p >= 1
    ensures (a * p + b) as real / p as real == a as real + b as real / p as real
  {
    var x, y, q := a as real, b as real, p as real;
    assert (a * p) as real == x * q;
    assert (a * p + b) as real == x * q + y;
    assert (x * q + y) / q == x * q / q + y / q;
  }

  // A decimal is the number of all its digits divided by a power of ten for those behind the point.
  lemma DecimalIsAllDigits(ds: string, fs: string)
    requires (forall i :: 0 <= i < |ds| ==> IsDigit(ds[i])) && forall i :: 0 <= i < |fs| ==> IsDigit(fs[i])
    ensures Decimal(ds, fs) == NatOf(ds + fs) as real / Pow10(|fs|) as real
  {
    NatOfConcat(ds, fs);
    OverPower(NatOf(ds), Pow10(|fs|), NatOf(fs));
  }

  lemma PointHead(ds: string, t: string)
    requires forall i :: 0 <= i < |ds| ==> IsDigit(ds[i])
    ensures var u := ds + ("." + t); u != [] && (IsDigit(u[0]) || u[0] == '.')
  {
  }

  // %lf reads a sign, digits, and behind a point more digits; on one side of the point they may be missing.
  lemma DecimalIsRead(negative: bool, ds: string, fs: string, rest: string, v: real)
    requires ds + fs != [] && forall i :: 0 <= i < |ds| ==> IsDigit(ds[i])
    requires forall i :: 0 <= i < |fs| ==> IsDigit(fs[i])
    requires rest == [] || !IsDigit(rest[0])
    requires v == NatOf(ds + fs) as real / Pow10(|fs|) as real
    ensures ScanReal(SignText(negative) + (ds + ("." + (fs + rest)))) == Some((if negative then -v else v, rest))
  {
    var u := ds + ("." + (fs + rest));
    FractionScan(ds, fs, rest);
    PointHead(ds, fs + rest);
    SignRoundTrip(negative, u);
    DecimalIsAllDigits(ds, fs);
    ScanWithPoint(SignText(negative) + u, v, u, ds, fs, rest);
  }

  lemma DigitsScan(ds: string, rest: string)
    requires (forall i :: 0 <= i < |ds| ==> IsDigit(ds[i])) && (rest == [] || (!IsDigit(rest[0]) && rest[0] != '.'))
    ensures var u := ds + rest;
      && Span(IsDigit, u) == |ds| && u[..|ds|] == ds && u[|ds|..] == rest && !(|ds| < |u| && u[|ds|] == '.')
  {
    SpanExact(IsDigit, ds, rest);
  }

  lemma WholeDecimal(ds: string)
    requires forall i :: 0 <= i < |ds| ==> IsDigit(ds[i])
    ensures Decimal(ds, "") == NatOf(ds) as real
  {
    assert Pow10(0) == 1;
  }

  lemma DigitsAt(s: string, negative: bool, ds: string, rest: string, u: string)
    requires u == ds + rest && AfterSign(SkipSpace(s)) == u && Negative(SkipSpace(s)) == negative
    requires ds != [] && forall i :: 0 <= i < |ds| ==> IsDigit(ds[i])
    requires rest == [] || (!IsDigit(rest[0]) && rest[0] != '.')
    ensures ScanReal(s) == Some((if negative then -(NatOf(ds) as real) else NatOf(ds) as real, rest))
  {
    DigitsScan(ds, rest);
    ScanWithoutPoint(s, u, ds);
    WholeDecimal(ds);
  }

  lemma DigitsRead(negative: bool, ds: string, rest: string)
    requires ds != [] && forall i :: 0 <= i < |ds| ==> IsDigit(ds[i])
    requires rest == [] || (!IsDigit(rest[0]) && rest[0] != '.')
    ensures ScanReal(SignText(negative) + (ds + rest)) ==
            Some((if negative then -(NatOf(ds) as real) else NatOf(ds) as real, rest))
  {
    var u := ds + rest;
    assert u[0] == ds[0];
    SignRoundTrip(negative, u);
    DigitsAt(SignText(negative) + u, negative, ds, rest, u);
  }

  // A printed integer is read as its value, whatever follows that is neither a digit nor a point.
  lemma IntegerIsRead(n: int, rest: string)
    requires rest == [] || (!IsDigit(rest[0]) && rest[0] != '.')
    ensures ScanReal(PrintInt(n) + rest) == Some((n as real, rest))
  {
    var abs: nat := if n < 0 then -n else n;
    NatRoundTrip(abs);
    DigitsRead(n < 0, PrintNat(abs), rest);
    Concat(SignText(n < 0), PrintNat(abs), rest);
  }

  lemma SameUnsigned(s: string, t: string)
    requires AfterSign(SkipSpace(s)) == AfterSign(SkipSpace(t)) && Negative(SkipSpace(s)) == Negative(SkipSpace(t))
    ensures ScanInt(s) == ScanInt(t) && ScanReal(s) == ScanReal(t)
  {
  }

  // White space in front of a number or a word is skipped.
  lemma BlankIsSkipped(c: char, s: string, width: nat)
    requires c == ' ' || c == '\t' || c == '\n' || c == '\r'
    ensures ScanInt([c] + s) == ScanInt(s) && ScanReal([c] + s) == ScanReal(s)
    ensures ScanWord([c] + s, width) == ScanWord(s, width)
  {
    BlankGoes(c, s);
    SameUnsigned([c] + s, s);
  }

  lemma BlankGoes(c: char, s: string)
    requires c == ' ' || c == '\t' || c == '\n' || c == '\r'
    ensures SkipSpace([c] + s) == SkipSpace(s)
  {
    assert ([c] + s)[1..] == s;
  }

  // A plus sign is taken for none.
  lemma PlusIsTaken(s: string)
    requires s != [] && (IsDigit(s[0]) || s[0] == '.')
    ensures ScanInt("+" + s) == ScanInt(s) && ScanReal("+" + s) == ScanReal(s)
  {
    PlusGoes(s);
    SameUnsigned("+" + s, s);
  }

  lemma PlusGoes(s: string)
    requires s != [] && (IsDigit(s[0]) || s[0] == '.')
    ensures AfterSign(SkipSpace("+" + s)) == s == AfterSign(SkipSpace(s))
    ensures !Negative(SkipSpace("+" + s)) && !Negative(SkipSpace(s))
  {
    assert ("+" + s)[1..] == s;
  }

  // Anything else than a sign, a digit, a point or white space is no number.
  lemma NoNumber(c: char, s: string)
    requires !IsSpace(c) && !IsDigit(c) && c != '-' && c != '+'
    ensures ScanInt([c] + s) == None && (c != '.' ==> ScanReal([c] + s) == None)
  {
    assert SkipSpace([c] + s) == [c] + s;
  }

  // %s skips white space and takes what follows up to the next white space, or as much as fits.
  lemma WordIsRead(w: string, rest: string, width: nat)
    requires w != [] && forall c :: c in w ==> !IsSpace(c)
    requires rest == [] || IsSpace(rest[0])
    ensures ScanWord(w + rest, width) ==
            if |w| <= width then (w, rest) else (w[..width], w[width..] + rest)
  {
    var t := w + rest;
    assert t[0] == w[0] && w[0] in w;
    assert SkipSpace(t) == t;
    SpanExact(NotSpace, w, rest);
    if |w| <= width { assert t[..|w|] == w && t[|w|..] == rest; }
    else { assert t[..width] == w[..width] && t[width..] == w[width..] + rest; }
  }

  // The printed number is the nearest hundredth, a tie going to the even one.
  lemma NearestHundredth(v: real)
    ensures var d := v * 100.0 - Hundredths(v) as real;
      -0.5 <= d <= 0.5 && (d == 0.5 || d == -0.5 ==> Hundredths(v) % 2 == 0)
  {
  }

  lemma PrintedExamples()
    ensures PrintInt(0) == "0" && PrintInt(-120) == "-120" && PrintInt(1984) == "1984"
  {
    assert PrintNat(120) == PrintNat(12) + ['0'] && PrintNat(12) == PrintNat(1) + ['2'];
    assert PrintNat(1984) == PrintNat(198) + ['4'] && PrintNat(198) == PrintNat(19) + ['8'];
    assert PrintNat(19) == PrintNat(1) + ['9'];
  }

  lemma PrintedRealExamples()
    ensures PrintReal(1.5) == "1.50" && PrintReal(-0.25) == "-0.25"
  {
    assert Hundredths(1.5) == 150 && Hundredths(-0.25) == -25;
    assert PrintParts(1, 5, 0) == "1.50" && PrintParts(0, 2, 5) == "0.25";
  }

  // strstr finds the first place where the pattern stands, if there is any.
  lemma {:induction false} FirstOccurrence(s: string, pattern: string) returns (n: nat)
    ensures match StrStr(s, pattern)
            case None => forall i :: 0 <= i <= |s| ==> !StartsWith(s[i..], pattern)
            case Some(u) =>
              && n <= |s| && u == s[n..] && StartsWith(u, pattern)
              && forall i :: 0 <= i < n ==> !StartsWith(s[i..], pattern)
  {
    n := 0;
    assert s[0..] == s;
    if !StartsWith(s, pattern) && s != [] {
      var m := FirstOccurrence(s[1..], pattern);
      assert forall i :: 1 <= i <= |s| ==> s[i..] == s[1..][i - 1..];
      n := m + 1;
    }
  }
}

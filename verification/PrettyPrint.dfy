// The JSON pretty printer of the command line client.
module PrettyPrint {
  import Seqs

  // What a reader of the text knows: whether it is inside a string, and whether the next character is
  // escaped.
  datatype Mode = Mode(inside: bool, escaped: bool)

  type Rule = (Mode, char) -> Mode

  // The printer's rule: a quote counts unless the character before it is a backslash.
  function PrinterRule(m: Mode, c: char): Mode {
    Mode(if c == '"' && !m.escaped then !m.inside else m.inside, c == '\\')
  }

  // Section 7 of RFC 8259: inside a string a backslash escapes exactly the next character.
  function JsonRule(m: Mode, c: char): Mode {
    if !m.inside then Mode(c == '"', false)
    else if m.escaped then Mode(true, false)
    else Mode(c != '"', c == '\\')
  }

  // Section 2 of RFC 8259.
  predicate IsBlank(c: char) {
    c == ' ' || c == '\t' || c == '\n' || c == '\r'
  }

  predicate IsBracket(c: char) {
    c == '{' || c == '[' || c == '}' || c == ']'
  }

  function ModeAfter(rule: Rule, m: Mode, s: string): Mode {
    if s == [] then m else rule(ModeAfter(rule, m, s[..|s| - 1]), s[|s| - 1])
  }

  function Kept(m: Mode, c: char): string {
    if !m.inside && IsBlank(c) then [] else [c]
  }

  // The text without the whitespace outside strings, from a mode on.
  function Strip(rule: Rule, m: Mode, s: string): string {
    if s == [] then []
    else
      var n := |s| - 1;
      Strip(rule, m, s[..n]) + Kept(ModeAfter(rule, m, s[..n]), s[n])
  }

  const OUTSIDE := Mode(false, false)

  // --- The printer ---

  function Spaces(n: int): string {
    if n <= 0 then [] else Spaces(n - 1) + " "
  }

  datatype Printer = Printer(out: string, indent: int, mode: Mode)

  function Break(n: int): string {
    "\n" + Spaces(n)
  }

  // The indentation after a character outside strings.
  function Indent(n: int, c: char): int {
    if c == '{' || c == '[' then n + 2 else if c == '}' || c == ']' then n - 2 else n
  }

  // The output for a character outside strings, at the indentation after it.
  function Laid(n: int, c: char): string {
    if c == '}' || c == ']' then Break(n) + [c]
    else if c == '{' || c == '[' || c == ',' then [c] + Break(n)
    else [c]
  }

  function Print(p: Printer, c: char): Printer {
    var m := PrinterRule(p.mode, c);
    if m.inside then Printer(p.out + [c], p.indent, m)
    else Printer(p.out + Laid(Indent(p.indent, c), c), Indent(p.indent, c), m)
  }

  function Printed(s: string): Printer {
    if s == [] then Printer("", 0, OUTSIDE) else Print(Printed(s[..|s| - 1]), s[|s| - 1])
  }

  function Pretty(s: string): string {
    Printed(s).out + "\n"
  }

  // --- Reading what was printed ---

  // Whitespace, brackets and commas outside strings leave the reader outside with nothing escaped.
  ghost predicate Neutral(rule: Rule) {
    forall e: bool, c: char :: IsBlank(c) || IsBracket(c) || c == ',' ==> rule(Mode(false, e), c) == OUTSIDE
  }

  lemma PrintedSnoc(s: string, c: char)
    ensures Printed(s + [c]) == Print(Printed(s), c)
  {
    assert (s + [c])[..|s|] == s;
  }

  lemma StripSnoc(rule: Rule, m: Mode, s: string, c: char)
    ensures ModeAfter(rule, m, s + [c]) == rule(ModeAfter(rule, m, s), c)
    ensures Strip(rule, m, s + [c]) == Strip(rule, m, s) + Kept(ModeAfter(rule, m, s), c)
  {
    assert (s + [c])[..|s|] == s;
  }

  lemma {:induction false} ModeConcat(rule: Rule, m: Mode, a: string, b: string)
    ensures ModeAfter(rule, m, a + b) == ModeAfter(rule, ModeAfter(rule, m, a), b)
  {
    if b == [] {
      assert a + b == a;
    } else {
      var n := |b| - 1;
      ModeConcat(rule, m, a, b[..n]);
      assert (a + b)[..|a| + n] == a + b[..n];
    }
  }

  lemma {:induction false} StripConcat(rule: Rule, m: Mode, a: string, b: string)
    ensures Strip(rule, m, a + b) == Strip(rule, m, a) + Strip(rule, ModeAfter(rule, m, a), b)
  {
    if b == [] {
      assert a + b == a;
    } else {
      StripConcat(rule, m, a, b[..|b| - 1]);
      StripConcatStep(rule, m, a, b[..|b| - 1], b[|b| - 1], b);
    }
  }

  lemma StripConcatStep(rule: Rule, m: Mode, a: string, b: string, c: char, bc: string)
    requires bc == b + [c]
    requires Strip(rule, m, a + b) == Strip(rule, m, a) + Strip(rule, ModeAfter(rule, m, a), b)
    ensures Strip(rule, m, a + bc) == Strip(rule, m, a) + Strip(rule, ModeAfter(rule, m, a), bc)
  {
    ModeConcat(rule, m, a, b);
    StripSnoc(rule, m, a + b, c);
    StripSnoc(rule, ModeAfter(rule, m, a), b, c);
    assert a + bc == a + b + [c];
    Seqs.Concat(Strip(rule, m, a), Strip(rule, ModeAfter(rule, m, a), b), Kept(ModeAfter(rule, m, a + b), c));
  }

  lemma {:induction false} BlanksVanish(rule: Rule, e: bool, s: string)
    requires Neutral(rule) && s != [] && forall i :: 0 <= i < |s| ==> IsBlank(s[i])
    ensures ModeAfter(rule, Mode(false, e), s) == OUTSIDE
    ensures Strip(rule, Mode(false, e), s) == []
  {
    var n := |s| - 1;
    if n > 0 {
      BlanksVanish(rule, e, s[..n]);
    } else {
      assert s[..n] == [];
    }
  }

  lemma {:induction false} SpacesAreBlank(n: int)
    ensures |Spaces(n)| == if n > 0 then n else 0
    ensures forall i :: 0 <= i < |Spaces(n)| ==> Spaces(n)[i] == ' '
  {
    if n > 0 { SpacesAreBlank(n - 1); }
  }

  // A line break reads as nothing.
  lemma BreakVanishes(rule: Rule, e: bool, n: int)
    requires Neutral(rule)
    ensures ModeAfter(rule, Mode(false, e), Break(n)) == OUTSIDE
    ensures Strip(rule, Mode(false, e), Break(n)) == []
  {
    SpacesAreBlank(n);
    BlanksVanish(rule, e, Break(n));
  }

  lemma OneChar(rule: Rule, m: Mode, c: char)
    ensures ModeAfter(rule, m, [c]) == rule(m, c) && Strip(rule, m, [c]) == Kept(m, c)
  {
    assert [c][..0] == [];
  }

  // A character with text after or before it that reads as nothing reads like the character.
  lemma NothingAfter(rule: Rule, e: bool, c: char, b: string)
    requires rule(Mode(false, e), c) == OUTSIDE && !IsBlank(c)
    requires ModeAfter(rule, OUTSIDE, b) == OUTSIDE && Strip(rule, OUTSIDE, b) == []
    ensures ModeAfter(rule, Mode(false, e), [c] + b) == OUTSIDE && Strip(rule, Mode(false, e), [c] + b) == [c]
  {
    OneChar(rule, Mode(false, e), c);
    ModeConcat(rule, Mode(false, e), [c], b);
    StripConcat(rule, Mode(false, e), [c], b);
  }

  lemma NothingBefore(rule: Rule, e: bool, b: string, c: char)
    requires rule(OUTSIDE, c) == OUTSIDE && !IsBlank(c)
    requires ModeAfter(rule, Mode(false, e), b) == OUTSIDE && Strip(rule, Mode(false, e), b) == []
    ensures ModeAfter(rule, Mode(false, e), b + [c]) == OUTSIDE && Strip(rule, Mode(false, e), b + [c]) == [c]
  {
    OneChar(rule, OUTSIDE, c);
    ModeConcat(rule, Mode(false, e), b, [c]);
    StripConcat(rule, Mode(false, e), b, [c]);
  }

  lemma Unchanged(rule: Rule, e: bool, c: char)
    requires Neutral(rule) && (IsBracket(c) || c == ',')
    ensures rule(Mode(false, e), c) == OUTSIDE && rule(OUTSIDE, c) == OUTSIDE && !IsBlank(c)
  {
    assert rule(Mode(false, false), c) == OUTSIDE;
  }

  lemma LaidReadsLikeChar(rule: Rule, e: bool, n: int, c: char)
    requires Neutral(rule)
    ensures ModeAfter(rule, Mode(false, e), Laid(n, c)) == rule(Mode(false, e), c)
    ensures Strip(rule, Mode(false, e), Laid(n, c)) == Kept(Mode(false, e), c)
  {
    if c == '}' || c == ']' {
      Unchanged(rule, e, c);
      BreakVanishes(rule, e, n);
      NothingBefore(rule, e, Break(n), c);
    } else if c == '{' || c == '[' || c == ',' {
      Unchanged(rule, e, c);
      BreakVanishes(rule, false, n);
      NothingAfter(rule, e, c, Break(n));
    } else {
      OneChar(rule, Mode(false, e), c);
    }
  }

  // The piece of output for one character.
  function Piece(p: Printer, c: char): string {
    if PrinterRule(p.mode, c).inside then [c] else Laid(Indent(p.indent, c), c)
  }

  lemma PieceReadsLikeChar(rule: Rule, m: Mode, p: Printer, c: char)
    requires Neutral(rule) && m.inside == p.mode.inside
    ensures ModeAfter(rule, m, Piece(p, c)) == rule(m, c)
    ensures Strip(rule, m, Piece(p, c)) == Kept(m, c)
  {
    OneChar(rule, m, c);
    if !m.inside { LaidReadsLikeChar(rule, m.escaped, Indent(p.indent, c), c); }
  }

  // A rule says the same as the printer's about being inside a string, after every prefix.
  ghost predicate Agrees(rule: Rule, s: string) {
    forall i :: 0 <= i <= |s| ==>
      ModeAfter(rule, OUTSIDE, s[..i]).inside == ModeAfter(PrinterRule, OUTSIDE, s[..i]).inside
  }

  lemma {:induction false} PrinterTracks(s: string)
    ensures Printed(s).mode == ModeAfter(PrinterRule, OUTSIDE, s)
  {
    if s != [] { PrinterTracks(s[..|s| - 1]); }
  }

  lemma {:induction false} AgreesPrefix(rule: Rule, s: string, n: nat)
    requires Agrees(rule, s) && n <= |s|
    ensures Agrees(rule, s[..n])
  {
    forall i | 0 <= i <= n
      ensures ModeAfter(rule, OUTSIDE, s[..n][..i]).inside == ModeAfter(PrinterRule, OUTSIDE, s[..n][..i]).inside
    {
      assert s[..n][..i] == s[..i];
    }
  }

  lemma AgreesAt(rule: Rule, s: string)
    requires Agrees(rule, s)
    ensures ModeAfter(rule, OUTSIDE, s).inside == ModeAfter(PrinterRule, OUTSIDE, s).inside
  {
    assert s[..|s|] == s;
  }

  lemma PrintedPiece(s: string)
    requires s != []
    ensures Printed(s).out == Printed(s[..|s| - 1]).out + Piece(Printed(s[..|s| - 1]), s[|s| - 1])
  {
  }

  lemma {:induction false} PrintedReadsLike(rule: Rule, s: string)
    requires Neutral(rule) && Agrees(rule, s)
    ensures ModeAfter(rule, OUTSIDE, Printed(s).out) == ModeAfter(rule, OUTSIDE, s)
    ensures Strip(rule, OUTSIDE, Printed(s).out) == Strip(rule, OUTSIDE, s)
  {
    if s != [] {
      var n := |s| - 1;
      AgreesPrefix(rule, s, n);
      PrintedReadsLike(rule, s[..n]);
      PrinterTracks(s[..n]);
      AgreesAt(rule, s[..n]);
      var p := Printed(s[..n]);
      var m := ModeAfter(rule, OUTSIDE, s[..n]);
      PieceReadsLikeChar(rule, m, p, s[n]);
      PrintedPiece(s);
      ModeConcat(rule, OUTSIDE, p.out, Piece(p, s[n]));
      StripConcat(rule, OUTSIDE, p.out, Piece(p, s[n]));
    }
  }

  // For every rule of reading that treats layout as layout and agrees with the printer about strings:
  // the output reads as the input exactly when the input does not end inside a string.
  lemma ContentKeptIff(rule: Rule, s: string)
    requires Neutral(rule) && Agrees(rule, s)
    ensures Strip(rule, OUTSIDE, Pretty(s)) == Strip(rule, OUTSIDE, s) <==> !ModeAfter(rule, OUTSIDE, s).inside
  {
    PrintedReadsLike(rule, s);
    OneChar(rule, ModeAfter(rule, OUTSIDE, s), '\n');
    StripConcat(rule, OUTSIDE, Printed(s).out, "\n");
  }

  lemma RulesAreNeutral()
    ensures Neutral(PrinterRule) && Neutral(JsonRule)
  {
  }

  // Under the printer's own rule, for every input.
  lemma PrinterKeepsContentIff(s: string)
    ensures Strip(PrinterRule, OUTSIDE, Pretty(s)) == Strip(PrinterRule, OUTSIDE, s) <==>
            !ModeAfter(PrinterRule, OUTSIDE, s).inside
  {
    RulesAreNeutral();
    ContentKeptIff(PrinterRule, s);
  }

  // --- The printer's rule and the standard's ---

  // A quote after a backslash is an escaped quote: no string ends in an escaped backslash, and outside
  // strings no quote follows a backslash.
  ghost predicate QuotesPlain(s: string) {
    forall i :: 0 < i < |s| && s[i] == '"' && s[i - 1] == '\\' ==> ModeAfter(JsonRule, OUTSIDE, s[..i]).escaped
  }

  lemma {:induction false} EscapedMeansBackslash(s: string)
    ensures ModeAfter(JsonRule, OUTSIDE, s).escaped ==>
              s != [] && s[|s| - 1] == '\\' && ModeAfter(JsonRule, OUTSIDE, s).inside
    ensures ModeAfter(PrinterRule, OUTSIDE, s).escaped <==> s != [] && s[|s| - 1] == '\\'
  {
    if s != [] { EscapedMeansBackslash(s[..|s| - 1]); }
  }

  // One more character keeps the agreement exactly when it is not a quote the two rules read differently.
  lemma NextAgreesIff(s: string, n: nat)
    requires n < |s|
    requires ModeAfter(JsonRule, OUTSIDE, s[..n]).inside == ModeAfter(PrinterRule, OUTSIDE, s[..n]).inside
    ensures ModeAfter(JsonRule, OUTSIDE, s[..n + 1]).inside == ModeAfter(PrinterRule, OUTSIDE, s[..n + 1]).inside <==>
            !(s[n] == '"' && n > 0 && s[n - 1] == '\\' && !ModeAfter(JsonRule, OUTSIDE, s[..n]).escaped)
  {
    EscapedMeansBackslash(s[..n]);
    assert s[..n + 1][..n] == s[..n];
  }

  lemma {:induction false} PlainAgrees(s: string, i: nat)
    requires QuotesPlain(s) && i <= |s|
    ensures ModeAfter(JsonRule, OUTSIDE, s[..i]).inside == ModeAfter(PrinterRule, OUTSIDE, s[..i]).inside
  {
    if i > 0 {
      PlainAgrees(s, i - 1);
      NextAgreesIff(s, i - 1);
    }
  }

  // The exact inputs on which the printer sees the strings the standard sees.
  lemma RulesAgreeIff(s: string)
    ensures Agrees(JsonRule, s) <==> QuotesPlain(s)
  {
    if QuotesPlain(s) {
      forall i | 0 <= i <= |s|
        ensures ModeAfter(JsonRule, OUTSIDE, s[..i]).inside == ModeAfter(PrinterRule, OUTSIDE, s[..i]).inside
      {
        PlainAgrees(s, i);
      }
    }
    if Agrees(JsonRule, s) {
      forall i | 0 < i < |s| && s[i] == '"' && s[i - 1] == '\\' ensures ModeAfter(JsonRule, OUTSIDE, s[..i]).escaped {
        NextAgreesIff(s, i);
      }
    }
  }

  // --- Content as the standard reads it ---

  // The printer breaks the line at a character that is inside a string as the standard reads it.
  predicate Misplaced(s: string, i: nat) {
    && i < |s| && (IsBracket(s[i]) || s[i] == ',')
    && !ModeAfter(PrinterRule, OUTSIDE, s[..i + 1]).inside
    && ModeAfter(JsonRule, OUTSIDE, s[..i]).inside
  }

  ghost predicate NoneMisplaced(s: string) {
    forall i: nat :: !Misplaced(s, i)
  }

  // Layout inside a string is content: it stays, and nothing but an escape in progress changes the mode.
  lemma {:induction false} LayoutInsideStays(e: bool, t: string)
    requires t != [] && forall i :: 0 <= i < |t| ==> t[i] != '"' && t[i] != '\\'
    ensures ModeAfter(JsonRule, Mode(true, e), t) == Mode(true, false)
    ensures Strip(JsonRule, Mode(true, e), t) == t
  {
    var n := |t| - 1;
    if n > 0 {
      LayoutInsideStays(e, t[..n]);
    } else {
      assert t[..n] == [];
    }
    CharInsideStays(Mode(true, e), t[..n], t[n]);
    assert t == t[..n] + [t[n]];
  }

  lemma CharInsideStays(m: Mode, init: string, c: char)
    requires ModeAfter(JsonRule, m, init).inside && Strip(JsonRule, m, init) == init && c != '"' && c != '\\'
    ensures ModeAfter(JsonRule, m, init + [c]) == Mode(true, false)
    ensures Strip(JsonRule, m, init + [c]) == init + [c]
  {
    StripSnoc(JsonRule, m, init, c);
  }

  lemma LaidHasNoQuote(n: int, c: char)
    requires IsBracket(c) || c == ','
    ensures |Laid(n, c)| >= 2
    ensures forall i :: 0 <= i < |Laid(n, c)| ==> Laid(n, c)[i] != '"' && Laid(n, c)[i] != '\\'
  {
    SpacesAreBlank(n);
  }

  predicate BreaksString(m: Mode, p: Printer, c: char) {
    (IsBracket(c) || c == ',') && !PrinterRule(p.mode, c).inside && m.inside
  }

  // One piece of output: the mode is that of the character, and so is the content, unless the piece
  // breaks a string; then the content is longer.
  lemma PieceUnderJson(m: Mode, p: Printer, c: char)
    ensures ModeAfter(JsonRule, m, Piece(p, c)) == JsonRule(m, c)
    ensures !BreaksString(m, p, c) ==> Strip(JsonRule, m, Piece(p, c)) == Kept(m, c)
    ensures BreaksString(m, p, c) ==> |Strip(JsonRule, m, Piece(p, c))| > |Kept(m, c)|
  {
    OneChar(JsonRule, m, c);
    if !PrinterRule(p.mode, c).inside && (IsBracket(c) || c == ',') {
      if m.inside {
        LaidHasNoQuote(Indent(p.indent, c), c);
        LayoutInsideStays(m.escaped, Laid(Indent(p.indent, c), c));
      } else {
        RulesAreNeutral();
        LaidReadsLikeChar(JsonRule, m.escaped, Indent(p.indent, c), c);
      }
    }
  }

  // What the output of a prefix reads as.
  ghost predicate ReadsAs(out: string, s: string, intact: bool) {
    && ModeAfter(JsonRule, OUTSIDE, out) == ModeAfter(JsonRule, OUTSIDE, s)
    && |Strip(JsonRule, OUTSIDE, out)| >= |Strip(JsonRule, OUTSIDE, s)|
    && (Strip(JsonRule, OUTSIDE, out) == Strip(JsonRule, OUTSIDE, s) <==> intact)
    && (|Strip(JsonRule, OUTSIDE, out)| == |Strip(JsonRule, OUTSIDE, s)| <==> intact)
  }

  lemma Appended(a: string, b: string, x: string, y: string)
    requires |a| >= |b| && |x| >= |y| && (|a| == |b| <==> a == b) && (|x| == |y| <==> x == y)
    ensures |a + x| >= |b + y|
    ensures |a + x| == |b + y| <==> |a| == |b| && |x| == |y|
    ensures a + x == b + y <==> a == b && x == y
  {
  }

  lemma ReadsAsStep(p: Printer, s: string, c: char, intact: bool)
    requires ReadsAs(p.out, s, intact)
    ensures ReadsAs(p.out + Piece(p, c), s + [c], intact && !BreaksString(ModeAfter(JsonRule, OUTSIDE, s), p, c))
  {
    var m := ModeAfter(JsonRule, OUTSIDE, s);
    PieceUnderJson(m, p, c);
    ModeConcat(JsonRule, OUTSIDE, p.out, Piece(p, c));
    StripConcat(JsonRule, OUTSIDE, p.out, Piece(p, c));
    StripSnoc(JsonRule, OUTSIDE, s, c);
    Appended(Strip(JsonRule, OUTSIDE, p.out), Strip(JsonRule, OUTSIDE, s),
             Strip(JsonRule, m, Piece(p, c)), Kept(m, c));
  }

  lemma NoneMisplacedSnoc(s: string, n: nat)
    requires n + 1 == |s|
    ensures NoneMisplaced(s) <==> NoneMisplaced(s[..n]) && !Misplaced(s, n)
  {
    forall i: nat | i < n ensures Misplaced(s, i) <==> Misplaced(s[..n], i) {
      assert s[..n][..i + 1] == s[..i + 1] && s[..n][..i] == s[..i];
    }
  }

  ghost predicate ReadsAsPrinted(s: string) {
    ReadsAs(Printed(s).out, s, NoneMisplaced(s))
  }

  lemma PrintedReadsAs(s: string)
    ensures ReadsAs(Printed(s).out, s, NoneMisplaced(s))
  {
    var holds := (t: string) => ReadsAsPrinted(t);
    forall init: string, c | holds(init) ensures holds(init + [c]) { PrintedReadsAsStep(init, c, init + [c]); }
    Seqs.Induction(holds, s);
    assert holds(s);
  }

  lemma PrintedReadsAsStep(init: string, c: char, s: string)
    requires s == init + [c] && ReadsAs(Printed(init).out, init, NoneMisplaced(init))
    ensures ReadsAs(Printed(s).out, s, NoneMisplaced(s))
  {
    assert s[..|init|] == init;
    ReadsAsStep(Printed(init), init, c, NoneMisplaced(init));
    PrintedPiece(s);
    NoneMisplacedSnoc(s, |init|);
    BreaksIsMisplaced(s, |init|);
  }

  lemma BreaksIsMisplaced(s: string, n: nat)
    requires n + 1 == |s|
    ensures Misplaced(s, n) <==> BreaksString(ModeAfter(JsonRule, OUTSIDE, s[..n]), Printed(s[..n]), s[n])
  {
    PrinterTracks(s[..n]);
    assert s[..n + 1] == s;
  }

  // The exact condition, for every input: the output has the content of the input as the standard reads
  // it if and only if the input does not end inside a string and no break is misplaced.
  lemma JsonKeptIff(s: string)
    ensures Strip(JsonRule, OUTSIDE, Pretty(s)) == Strip(JsonRule, OUTSIDE, s) <==>
            !ModeAfter(JsonRule, OUTSIDE, s).inside && NoneMisplaced(s)
  {
    PrintedReadsAs(s);
    var m := ModeAfter(JsonRule, OUTSIDE, s);
    OneChar(JsonRule, m, '\n');
    StripConcat(JsonRule, OUTSIDE, Printed(s).out, "\n");
    Appended(Strip(JsonRule, OUTSIDE, Printed(s).out), Strip(JsonRule, OUTSIDE, s), Kept(m, '\n'), []);
    assert Strip(JsonRule, OUTSIDE, s) + [] == Strip(JsonRule, OUTSIDE, s);
  }

  // Where the two rules agree about strings nothing is misplaced.
  lemma PlainIsWellPlaced(s: string)
    requires QuotesPlain(s)
    ensures NoneMisplaced(s)
  {
    forall i: nat ensures !Misplaced(s, i) {
      if i < |s| {
        PlainAgrees(s, i);
        assert s[..i + 1][..i] == s[..i];
      }
    }
  }

  lemma ModeNext(rule: Rule, s: string, i: nat)
    requires i < |s|
    ensures ModeAfter(rule, OUTSIDE, s[..i + 1]) == rule(ModeAfter(rule, OUTSIDE, s[..i]), s[i])
  {
    assert s[..i + 1][..i] == s[..i];
  }

  // An array of two strings, a backslash and a comma: the printer takes the second string for text
  // outside strings and breaks the line in it.
  function JsonText(): (s: string)
    ensures |s| == 10
  {
    ['[', '"', '\\', '\\', '"', ',', '"', ',', '"', ']']
  }

  lemma JsonTextIsBroken()
    ensures Misplaced(JsonText(), 7)
    ensures Strip(JsonRule, OUTSIDE, Pretty(JsonText())) != Strip(JsonRule, OUTSIDE, JsonText())
  {
    CommaIsMisplaced(JsonText());
    JsonKeptIff(JsonText());
  }

  lemma CommaIsMisplaced(s: string)
    requires s == JsonText()
    ensures Misplaced(s, 7)
  {
    JsonTextRead(s);
    ModeNext(PrinterRule, s, 7);
    assert s[7] == ',';
  }

  lemma JsonTextRead(s: string)
    requires s == JsonText()
    ensures ModeAfter(JsonRule, OUTSIDE, s[..7]).inside
    ensures !ModeAfter(PrinterRule, OUTSIDE, s[..7]).inside
  {
    FirstFour(JsonRule, s);
    FirstFour(PrinterRule, s);
    ModeNext(JsonRule, s, 4);
    ModeNext(JsonRule, s, 5);
    ModeNext(JsonRule, s, 6);
    ModeNext(PrinterRule, s, 4);
    ModeNext(PrinterRule, s, 5);
    ModeNext(PrinterRule, s, 6);
  }

  lemma FirstFour(rule: Rule, s: string)
    requires |s| >= 4
    ensures ModeAfter(rule, OUTSIDE, s[..4]) == rule(rule(rule(rule(OUTSIDE, s[0]), s[1]), s[2]), s[3])
  {
    ModeNext(rule, s, 0);
    ModeNext(rule, s, 1);
    ModeNext(rule, s, 2);
    ModeNext(rule, s, 3);
    assert s[..0] == [];
  }

  // --- Indentation ---

  // Opening minus closing brackets outside strings.
  function Depth(s: string): int {
    if s == [] then 0
    else
      var n := |s| - 1;
      var c := s[n];
      Depth(s[..n]) +
      if ModeAfter(PrinterRule, OUTSIDE, s).inside then 0
      else if c == '{' || c == '[' then 1
      else if c == '}' || c == ']' then -1
      else 0
  }

  // The indentation is always twice the bracket depth, so balanced brackets end at 0.
  lemma {:induction false} IndentIsDepth(s: string)
    ensures Printed(s).indent == 2 * Depth(s)
  {
    if s != [] {
      IndentIsDepth(s[..|s| - 1]);
      PrinterTracks(s[..|s| - 1]);
    }
  }

  // The blanks before a text at a depth.
  ghost predicate Indents(blanks: string, depth: int) {
    |blanks| == (if depth > 0 then 2 * depth else 0) && forall i :: 0 <= i < |blanks| ==> blanks[i] == ' '
  }

  lemma PrintedNext(s: string, c: char)
    ensures Printed(s + [c]).out ==
            Printed(s).out +
            if ModeAfter(PrinterRule, OUTSIDE, s + [c]).inside then [c] else Laid(2 * Depth(s + [c]), c)
  {
    PrintedSnoc(s, c);
    PrinterTracks(s);
    IndentIsDepth(s + [c]);
    StripSnoc(PrinterRule, OUTSIDE, s, c);
  }

  lemma BreakIs(depth: int, blanks: string)
    requires Indents(blanks, depth)
    ensures Break(2 * depth) == ['\n'] + blanks
  {
    SpacesAreBlank(2 * depth);
    assert Spaces(2 * depth) == blanks;
  }

  // What is printed for one more character depends on nothing but the character, whether it is in a string,
  // and the depth: a break and two blanks for each level follow an opening bracket or a comma and precede a
  // closing bracket.
  lemma LayoutFollowsDepth(s: string, c: char, blanks: string)
    requires Indents(blanks, Depth(s + [c]))
    ensures var inside := ModeAfter(PrinterRule, OUTSIDE, s + [c]).inside;
      && (inside || c !in "{[,]}" ==> Printed(s + [c]).out == Printed(s).out + [c])
      && (!inside && c in "{[," ==> Printed(s + [c]).out == Printed(s).out + ([c] + (['\n'] + blanks)))
      && (!inside && c in "]}" ==> Printed(s + [c]).out == Printed(s).out + (['\n'] + blanks + [c]))
  {
    PrintedNext(s, c);
    BreakIs(Depth(s + [c]), blanks);
  }

  // One more character outside strings changes the depth by its bracket, and inside them by nothing.
  lemma DepthNext(s: string, c: char)
    ensures Depth([]) == 0
    ensures var inside := ModeAfter(PrinterRule, OUTSIDE, s + [c]).inside;
      && (!inside && c in "{[" ==> Depth(s + [c]) == Depth(s) + 1)
      && (!inside && c in "]}" ==> Depth(s + [c]) == Depth(s) - 1)
      && (inside || c !in "{[]}" ==> Depth(s + [c]) == Depth(s))
  {
    assert (s + [c])[..|s|] == s;
  }

  lemma PrintedTo(s: string, c: char, p: Printer, t: string, q: Printer)
    requires Printed(s) == p && t == s + [c] && Print(p, c) == q
    ensures Printed(t) == q
  {
    PrintedSnoc(s, c);
  }

  lemma FirstBreaks()
    ensures Break(0) == "\n" && Break(2) == "\n  " && Break(4) == "\n    "
  {
    BreakIs(0, "");
    BreakIs(1, "  ");
    BreakIs(2, "    ");
  }

  // A small object with a list.
  lemma PrettyExample()
    ensures Pretty("{\"a\":[1,2]}") == "{\n  \"a\":[\n    1,\n    2\n  ]\n}\n"
  {
    FirstBreaks();
    PrintedTo("", '{', Printer("", 0, OUTSIDE), "{", Printer("{\n  ", 2, OUTSIDE));
    ExampleName();
    ExampleList();
  }

  const WITHIN := Mode(true, false)

  lemma ExampleName()
    requires Printed("{") == Printer("{\n  ", 2, OUTSIDE)
    ensures Printed("{\"a\":") == Printer("{\n  \"a\":", 2, OUTSIDE)
  {
    PrintedTo("{", '"', Printer("{\n  ", 2, OUTSIDE), "{\"", Printer("{\n  \"", 2, WITHIN));
    PrintedTo("{\"", 'a', Printer("{\n  \"", 2, WITHIN), "{\"a", Printer("{\n  \"a", 2, WITHIN));
    PrintedTo("{\"a", '"', Printer("{\n  \"a", 2, WITHIN), "{\"a\"", Printer("{\n  \"a\"", 2, OUTSIDE));
    PrintedTo("{\"a\"", ':', Printer("{\n  \"a\"", 2, OUTSIDE), "{\"a\":", Printer("{\n  \"a\":", 2, OUTSIDE));
  }

  lemma ExampleList()
    requires Printed("{\"a\":") == Printer("{\n  \"a\":", 2, OUTSIDE)
    requires Break(0) == "\n" && Break(2) == "\n  " && Break(4) == "\n    "
    ensures Printed("{\"a\":[1,2]}") == Printer("{\n  \"a\":[\n    1,\n    2\n  ]\n}", 0, OUTSIDE)
  {
    ListAfter("{\"a\":", "{\n  \"a\":");
    ExampleParts();
  }

  lemma ExampleParts()
    ensures "{\"a\":" + "[1,2]}" == "{\"a\":[1,2]}"
    ensures "{\n  \"a\":" + "[\n    1,\n    2\n  ]\n}" == "{\n  \"a\":[\n    1,\n    2\n  ]\n}"
  {
  }

  lemma ListAfter(s: string, o: string)
    requires Printed(s) == Printer(o, 2, OUTSIDE)
    requires Break(0) == "\n" && Break(2) == "\n  " && Break(4) == "\n    "
    ensures Printed(s + "[1,2]}") == Printer(o + "[\n    1,\n    2\n  ]\n}", 0, OUTSIDE)
  {
    PrintedTo(s, '[', Printer(o, 2, OUTSIDE), s + "[", Printer(o + "[\n    ", 4, OUTSIDE));
    PrintedTo(s + "[", '1', Printer(o + "[\n    ", 4, OUTSIDE), s + "[1", Printer(o + "[\n    1", 4, OUTSIDE));
    PrintedTo(s + "[1", ',', Printer(o + "[\n    1", 4, OUTSIDE),
              s + "[1,", Printer(o + "[\n    1,\n    ", 4, OUTSIDE));
    RestOfList(s, o);
  }

  lemma RestOfList(s: string, o: string)
    requires Printed(s + "[1,") == Printer(o + "[\n    1,\n    ", 4, OUTSIDE)
    requires Break(0) == "\n" && Break(2) == "\n  "
    ensures Printed(s + "[1,2]}") == Printer(o + "[\n    1,\n    2\n  ]\n}", 0, OUTSIDE)
  {
    PrintedTo(s + "[1,", '2', Printer(o + "[\n    1,\n    ", 4, OUTSIDE),
              s + "[1,2", Printer(o + "[\n    1,\n    2", 4, OUTSIDE));
    PrintedTo(s + "[1,2", ']', Printer(o + "[\n    1,\n    2", 4, OUTSIDE),
              s + "[1,2]", Printer(o + "[\n    1,\n    2\n  ]", 2, OUTSIDE));
    PrintedTo(s + "[1,2]", '}', Printer(o + "[\n    1,\n    2\n  ]", 2, OUTSIDE),
              s + "[1,2]}", Printer(o + "[\n    1,\n    2\n  ]\n}", 0, OUTSIDE));
  }

  // --- The loop ---

  method PutSpaces(out0: string, n: int) returns (out: string)
    ensures out == out0 + Spaces(n)
  {
    out := out0;
    var i := 0;
    assert out0 + Spaces(0) == out0;
    while i < n
      invariant 0 <= i && (i <= n || i == 0) && out == out0 + Spaces(i)
    {
      out := out + " ";
      i := i + 1;
    }
  }

  method OutputJson(json: string) returns (out: string)
    ensures out == Pretty(json)
  {
    out := "";
    var indent := 0;
    var inString := false;
    var p := 0;
    while p < |json|
      invariant p <= |json|
      invariant Printed(json[..p]) == Printer(out, indent, Mode(inString, p > 0 && json[p - 1] == '\\'))
    {
      assert json[..p + 1][..p] == json[..p];
      var c := json[p];
      ghost var before := out;
      if c == '"' && (p == 0 || json[p - 1] != '\\') {
        inString := !inString;
      }
      if !inString {
        if c == '{' || c == '[' {
          indent := indent + 2;
          out := PutSpaces(out + [c] + "\n", indent);
          Regroup(before, [c], indent);
        } else if c == '}' || c == ']' {
          indent := indent - 2;
          out := PutSpaces(out + "\n", indent);
          out := out + [c];
          RegroupLast(before, indent, [c]);
        } else if c == ',' {
          out := PutSpaces(out + [c] + "\n", indent);
          Regroup(before, [c], indent);
        } else {
          out := out + [c];
        }
      } else {
        out := out + [c];
      }
      p := p + 1;
    }
    assert json[..p] == json;
    out := out + "\n";
  }

  lemma Regroup(out: string, c: string, n: int)
    ensures out + c + "\n" + Spaces(n) == out + (c + Break(n))
  {
  }

  lemma RegroupLast(out: string, n: int, c: string)
    ensures out + "\n" + Spaces(n) + c == out + (Break(n) + c)
  {
  }
}

/** `extract_codes` of utils/relevantHCCcodes.py: a line yields a code when
    it opens with `^\s*[A-Za-z]+\d+(\.\d+)?:`. */
module RelevantCodes {
  import opened Wrappers
  import opened Text
  import opened LineScan

  /** The end of the run of ASCII letters from `i`. */
  function LettersEnd(s: string, i: nat): (k: nat)
    requires i <= |s|
    ensures i <= k <= |s|
    ensures forall j :: i <= j < k ==> IsLetter(s[j])
    ensures k < |s| ==> !IsLetter(s[k])
    decreases |s| - i
  {
    if i < |s| && IsLetter(s[i]) then LettersEnd(s, i + 1) else i
  }

  /** Where `re.match` of the pattern ends on `line` (just after the ':').
      White space, letters, digits, '.' and ':' are disjoint classes and
      every run is greedy, so one reading decides. */
  function LabelCodeEnd(line: string): (r: Option<nat>)
    ensures r.Some? ==> 0 < r.value <= |line| && line[r.value - 1] == ':'
    ensures r.Some? ==> var w := SpacesEnd(line, 0); var l := LettersEnd(line, w); var d := DigitsEnd(line, l);
      w < l < d < r.value && (line[d] == '.' <==> d + 1 < r.value - 1)
  {
    var w := SpacesEnd(line, 0);
    var l := LettersEnd(line, w);
    var d := DigitsEnd(line, l);
    if l == w || d == l then None
    else if d < |line| && line[d] == '.' then
      var f := DigitsEnd(line, d + 1);
      if f > d + 1 && f < |line| && line[f] == ':' then Some(f + 1) else None
    else if d < |line| && line[d] == ':' then Some(d + 1)
    else None
  }

  /** `re.match(pattern, line).group(0)`, if it matches. */
  function CodeLine(line: string): Option<string> {
    match LabelCodeEnd(line)
    case Some(e) => Some(line[..e])
    case None => None
  }

  function ExtractCodesOf(text: string): ScanResult {
    Result(Scan(Split(text, '\n'), CodeLine))
  }

  method ExtractCodes(text: string) returns (r: ScanResult)
    ensures r == ExtractCodesOf(text)
  {
    var lines := Split(text, '\n');
    var codes: seq<string> := [];
    var i := 0;
    while i < |lines|
      invariant 0 <= i <= |lines|
      invariant codes == Scan(lines[..i], CodeLine)
    {
      ScanStep(lines, i, CodeLine);
      var m := CodeLine(lines[i]);
      if m.Some? {
        var c := RemoveChar(m.value, ':');
        c := RemoveChar(c, '.');
        codes := codes + [Strip(c)];
      }
      i := i + 1;
    }
    assert lines[..|lines|] == lines;
    if codes != [] {
      return Codes(codes);
    }
    return Error(NoCodesFound);
  }

  /** No line starts with a code label. */
  ghost predicate NoLabelLine(lines: seq<string>) {
    forall k :: 0 <= k < |lines| ==> LabelCodeEnd(lines[k]).None?
  }

  /** `c` is the code of one of the lines that start with a code label. */
  ghost predicate LabelOfSomeLine(lines: seq<string>, c: string) {
    exists k :: 0 <= k < |lines| && LabelCodeEnd(lines[k]).Some? && c == LineCode(lines[k])
  }

  /** `extract_codes` returns the error string exactly when no line starts
      with a code label; otherwise every code it returns is letters then
      digits, the code of one such line, and every such line gives its
      code. */
  lemma ExtractCodesMeaning(text: string)
    ensures ExtractCodesOf(text).Error? <==> NoLabelLine(Split(text, '\n'))
    ensures ExtractCodesOf(text).Codes? ==>
      forall c :: c in ExtractCodesOf(text).codes ==> IsLetterDigitCode(c) && LabelOfSomeLine(Split(text, '\n'), c)
    ensures forall k :: 0 <= k < |Split(text, '\n')| && LabelCodeEnd(Split(text, '\n')[k]).Some? ==>
      ExtractCodesOf(text).Codes? && LineCode(Split(text, '\n')[k]) in ExtractCodesOf(text).codes
  {
    var lines := Split(text, '\n');
    ScanLabels(lines);
    assert ExtractCodesOf(text) == Result(Scan(lines, CodeLine));
  }

  lemma ScanLabels(lines: seq<string>)
    ensures Result(Scan(lines, CodeLine)).Error? <==> NoLabelLine(lines)
    ensures forall c :: c in Scan(lines, CodeLine) ==> IsLetterDigitCode(c) && LabelOfSomeLine(lines, c)
    ensures forall k :: 0 <= k < |lines| && LabelCodeEnd(lines[k]).Some? ==> LineCode(lines[k]) in Scan(lines, CodeLine)
  {
    ScanMeaning(lines, CodeLine);
    forall c | c in Scan(lines, CodeLine)
      ensures IsLetterDigitCode(c) && LabelOfSomeLine(lines, c)
    {
      var k :| 0 <= k < |lines| && CodeLine(lines[k]).Some? && c == CleanCode(CodeLine(lines[k]).value);
      CodeLineMeaning(lines[k]);
      LineCodeShape(lines[k]);
    }
    forall k | 0 <= k < |lines| && LabelCodeEnd(lines[k]).Some?
      ensures LineCode(lines[k]) in Scan(lines, CodeLine)
    {
      CodeLineMeaning(lines[k]);
    }
  }

  /** Letters, then digits, and nothing else. */
  predicate IsLetterDigitCode(c: string) {
    var l := LettersEnd(c, 0);
    0 < l < |c| && DigitsEnd(c, l) == |c|
  }

  /** The letters and digits of a matching line, followed by the digits
      after its '.', if it has one. */
  ghost function LineCode(line: string): string
    requires LabelCodeEnd(line).Some?
  {
    var w := SpacesEnd(line, 0);
    var d := DigitsEnd(line, LettersEnd(line, w));
    line[w..d] + (if line[d] == '.' then line[d + 1..LabelCodeEnd(line).value - 1] else "")
  }

  /** The pieces of a match ending at `e`: white space up to `w`, letters up
      to `l`, digits up to `d`, then either the ':' or a '.', digits and the
      ':'. */
  ghost predicate Shaped(line: string, w: nat, l: nat, d: nat, e: nat) {
    w < l < d < e <= |line| &&
    (forall j :: 0 <= j < w ==> IsSpace(line[j])) &&
    (forall j :: w <= j < l ==> IsLetter(line[j])) &&
    (forall j :: l <= j < d ==> IsDigit(line[j])) &&
    line[e - 1] == ':' &&
    (line[d] == '.' ==> d + 1 < e - 1 && forall j :: d + 1 <= j < e - 1 ==> IsDigit(line[j])) &&
    (line[d] != '.' ==> e == d + 1)
  }

  /** A matching line has the pieces of `Shaped`. */
  lemma LabelShaped(line: string)
    requires LabelCodeEnd(line).Some?
    ensures var w := SpacesEnd(line, 0); var l := LettersEnd(line, w);
      Shaped(line, w, l, DigitsEnd(line, l), LabelCodeEnd(line).value)
  {
    var w := SpacesEnd(line, 0);
    var l := LettersEnd(line, w);
    var d := DigitsEnd(line, l);
    if line[d] == '.' {
      var f := DigitsEnd(line, d + 1);
      assert LabelCodeEnd(line) == Some(f + 1);
    }
  }

  /** The code a matching line yields: its letters, its digits, and the
      digits after the '.', the line's leading white space, the '.' and the
      ':' dropped. */
  lemma CodeLineMeaning(line: string)
    requires LabelCodeEnd(line).Some?
    ensures CleanCode(CodeLine(line).value) == LineCode(line)
  {
    var e := LabelCodeEnd(line).value;
    var w := SpacesEnd(line, 0);
    var l := LettersEnd(line, w);
    var d := DigitsEnd(line, l);
    LabelShaped(line);
    var code := line[w..d] + (if line[d] == '.' then line[d + 1..e - 1] else "");
    assert LineCode(line) == code;
    assert CodeLine(line) == Some(line[..e]);
    CleanOfShaped(line, w, l, d, e);
  }

  /** The code is letters followed by digits. */
  lemma LineCodeShape(line: string)
    requires LabelCodeEnd(line).Some?
    ensures IsLetterDigitCode(LineCode(line))
  {
    var e := LabelCodeEnd(line).value;
    var w := SpacesEnd(line, 0);
    var l := LettersEnd(line, w);
    var d := DigitsEnd(line, l);
    LabelShaped(line);
    var code := line[w..d] + (if line[d] == '.' then line[d + 1..e - 1] else "");
    assert LineCode(line) == code;
    CodeShape(line, w, l, d, e);
    assert IsLetterDigitCode(code);
  }

  /** The match minus its ':' and '.', stripped, is the letters, digits and
      fraction digits. */
  lemma CleanOfShaped(line: string, w: nat, l: nat, d: nat, e: nat)
    requires Shaped(line, w, l, d, e)
    ensures CleanCode(line[..e]) == line[w..d] + (if line[d] == '.' then line[d + 1..e - 1] else "")
  {
    var sep: string := if line[d] == '.' then ['.'] else [];
    var frac := if line[d] == '.' then line[d + 1..e - 1] else "";
    PartsOfShaped(line, w, l, d, e);
    CodeShape(line, w, l, d, e);
    CleanOfParts(line[..e], line[..w], line[w..d], sep, frac);
  }

  /** The match split into its pieces, none of which holds a ':' or a '.'. */
  lemma PartsOfShaped(line: string, w: nat, l: nat, d: nat, e: nat)
    requires Shaped(line, w, l, d, e)
    ensures var sep: string := if line[d] == '.' then ['.'] else [];
      var frac := if line[d] == '.' then line[d + 1..e - 1] else "";
      line[..e] == line[..w] + line[w..d] + sep + frac + [':'] &&
      IsBlank(line[..w]) && ':' !in line[..w] && '.' !in line[..w] &&
      ':' !in line[w..d] && '.' !in line[w..d] && ':' !in frac && '.' !in frac
  {
    assert line[..e] == line[..w] + line[w..d] + line[d..e];
    if line[d] == '.' {
      assert line[d..e] == [line[d]] + line[d + 1..e - 1] + [line[e - 1]];
    } else {
      assert line[d..e] == [line[d]];
    }
  }

  /** The letters-and-digits part of a match, with the fraction digits
      appended, is a letters-then-digits code with no space at its ends. */
  lemma CodeShape(line: string, w: nat, l: nat, d: nat, e: nat)
    requires Shaped(line, w, l, d, e)
    ensures var code := line[w..d] + (if line[d] == '.' then line[d + 1..e - 1] else "");
      |line[w..d]| > 0 && !IsSpace(code[0]) && !IsSpace(code[|code| - 1]) && IsLetterDigitCode(code)
  {
    var frac := if line[d] == '.' then line[d + 1..e - 1] else "";
    assert line[w..d] == line[w..l] + line[l..d];
    ShapeOf(line[w..l], line[l..d], frac);
  }

  /** Letters, then digits, then more digits make a letters-then-digits code. */
  lemma ShapeOf(a: string, b: string, f: string)
    requires |a| > 0 && |b| > 0
    requires forall k :: 0 <= k < |a| ==> IsLetter(a[k])
    requires forall k :: 0 <= k < |b| ==> IsDigit(b[k])
    requires forall k :: 0 <= k < |f| ==> IsDigit(f[k])
    ensures var code := a + b + f;
      !IsSpace(code[0]) && !IsSpace(code[|code| - 1]) && IsLetterDigitCode(code)
  {
    var code := a + b + f;
    assert forall k :: 0 <= k < |a| ==> code[k] == a[k];
    assert forall k :: |a| <= k < |code| ==> IsDigit(code[k]) by {
      forall k | |a| <= k < |code| ensures IsDigit(code[k]) {
        if k < |a| + |b| { assert code[k] == b[k - |a|]; } else { assert code[k] == f[k - |a| - |b|]; }
      }
    }
    LettersEndAt(code, 0, |a|);
    DigitsEndAt(code, |a|, |code|);
  }

  /** Removing ':' and '.' and stripping takes the code out of its line. */
  lemma CleanOfParts(m: string, head: string, word: string, sep: string, frac: string)
    requires m == head + word + sep + frac + [':']
    requires IsBlank(head) && (sep == [] || sep == ['.'])
    requires ':' !in head && '.' !in head && ':' !in word && '.' !in word && ':' !in frac && '.' !in frac
    requires |word| > 0 && !IsSpace(word[0]) && !IsSpace((word + frac)[|word + frac| - 1])
    ensures CleanCode(m) == word + frac
  {
    var x := head + word + sep + frac;
    NoColon(head, word, sep, frac);
    DropLast(x, ':');
    DropDot(head + word, sep, frac);
    StripOfIndentedPair(head, word, frac);
  }

  lemma StripOfIndentedPair(w: string, a: string, b: string)
    requires IsBlank(w) && |a| > 0 && !IsSpace(a[0]) && !IsSpace((a + b)[|a + b| - 1])
    ensures Strip(w + a + b) == a + b
  {
    assert w + a + b == w + (a + b);
    StripOfIndented(w, a + b);
  }

  lemma NoColon(head: string, word: string, sep: string, frac: string)
    requires ':' !in head && ':' !in word && ':' !in frac && (sep == [] || sep == ['.'])
    ensures ':' !in head + word + sep + frac
  {
  }

  lemma DropDot(x: string, sep: string, frac: string)
    requires (sep == [] || sep == ['.'])
    requires '.' !in x && '.' !in frac
    ensures RemoveChar(x + sep + frac, '.') == x + frac
  {
    if sep == ['.'] {
      DropMiddle(x, frac, '.');
    } else {
      assert x + sep == x;
    }
  }

  lemma LettersEndAt(s: string, i: nat, m: nat)
    requires i <= m <= |s|
    requires forall j :: i <= j < m ==> IsLetter(s[j])
    requires m < |s| ==> !IsLetter(s[m])
    ensures LettersEnd(s, i) == m
    decreases m - i
  {
    if i < m {
      LettersEndAt(s, i + 1, m);
    }
  }

  /** The characters of a run of digits found in `line` at `i` are digits. */
  lemma DigitsAt(line: string, x: string, i: nat)
    requires i + |x| <= |line| && line[i..i + |x|] == x && AllDigits(x)
    ensures forall j :: i <= j < i + |x| ==> IsDigit(line[j])
  {
    forall j | i <= j < i + |x| ensures IsDigit(line[j]) { assert line[j] == x[j - i]; }
  }

  /** A line that opens with a letter, digits and ':' yields the letter and
      digits. */
  lemma PlainLabel(line: string, code: string, rest: string)
    requires |code| >= 2 && IsLetter(code[0]) && AllDigits(code[1..])
    requires |rest| > 0 && rest[0] == ':' && line == code + rest
    ensures CodeLine(line).Some? && CleanCode(CodeLine(line).value) == code
  {
    var n := |code|;
    assert line[..n] == code && line[1..n] == code[1..];
    DigitsAt(line, code[1..], 1);
    SpacesEndAt(line, 0, 0);
    LettersEndAt(line, 0, 1);
    DigitsEndAt(line, 1, n);
    assert LabelCodeEnd(line) == Some(n + 1);
    assert LineCode(line) == line[0..n] + "";
    CodeLineMeaning(line);
  }

  /** A line that opens with a letter, digits, '.', digits and ':' yields the
      letter and both runs of digits. */
  lemma DottedLabel(line: string, code: string, frac: string, rest: string)
    requires |code| >= 2 && IsLetter(code[0]) && AllDigits(code[1..])
    requires |frac| >= 1 && AllDigits(frac)
    requires |rest| > 0 && rest[0] == ':' && line == code + "." + frac + rest
    ensures CodeLine(line).Some? && CleanCode(CodeLine(line).value) == code + frac
  {
    var n, f := |code|, |code| + 1 + |frac|;
    DottedSlices(line, code, frac, rest);
    DigitsAt(line, code[1..], 1);
    DigitsAt(line, frac, n + 1);
    SpacesEndAt(line, 0, 0);
    LettersEndAt(line, 0, 1);
    DigitsEndAt(line, 1, n);
    DigitsEndAt(line, n + 1, f);
    assert LabelCodeEnd(line) == Some(f + 1);
    assert LineCode(line) == line[0..n] + line[n + 1..f];
    CodeLineMeaning(line);
  }

  lemma DottedSlices(line: string, code: string, frac: string, rest: string)
    requires |code| >= 1 && line == code + "." + frac + rest
    ensures var n := |code|; line[..n] == code && line[1..n] == code[1..]
    ensures var n := |code|; line[n] == '.' && line[n + 1..n + 1 + |frac|] == frac
    ensures line[|code| + 1 + |frac|..] == rest
  {
  }

  /** The fifteen lines of `text1` (lines 4-18); the longer ones are written
      in pieces. */
  const HeadingText := "Assessment / Plan"
  const FirstEntryText := "1.        Fibromyalgia -"
  const ImprovingText := "Improving"
  const LyricaText := "Continue" + " Lyrica" + " 75 mg" + " twice" + " daily" + " for pain" + " management"
  const StretchingText := "Recommend" + " gentle" + " stretching" + " and" + " low-impact" + " exercises"
  const MonitorText := "Monitor symptoms " + "at follow-up"
  const FibromyalgiaText := "M79.7" + FibromyalgiaRest
  const FibromyalgiaRest := ": Fibromyalgia"
  const SecondEntryText := "        2.        " + "Hypertension -"
  const StableText := "Stable"
  const AmlodipineText := "Continue Amlodipine " + "10 mg daily"
  const AdherenceText := "Encourage blood pressure " + "monitoring and adherence " + "to a low-sodium diet"
  const PressureText := "BP today was " + "138/82 mmHg"
  const HypertensionText := "I10" + HypertensionRest
  const HypertensionRest := ": Essential (primary) " + "hypertension"
  const WordBeforeCodeText := "Essential E10: " + "(primary) hypertension"

  const Text1Lines: seq<string> := [
    HeadingText, "", FirstEntryText, ImprovingText, LyricaText, StretchingText, MonitorText,
    FibromyalgiaText, SecondEntryText, StableText, AmlodipineText, AdherenceText, PressureText,
    HypertensionText, WordBeforeCodeText
  ]

  /** `text1`: the literal is its fifteen lines joined with "\n". */
  const Text1 := Join(Text1Lines, "\n")

  /** `extract_codes(text1)` returns exactly "M797" and "I10", in that order:
      only the two lines that open with a code label match. */
  lemma Text1Codes()
    ensures ExtractCodesOf(Text1) == Codes(["M797", "I10"])
  {
    NoLetterFirst("");
    HeadingLine();
    FirstEntryLine();
    ImprovingLine();
    LyricaLine();
    StretchingLine();
    MonitorLine();
    FibromyalgiaUnbroken();
    FibromyalgiaLine();
    SecondEntryLine();
    StableLine();
    AmlodipineLine();
    AdherenceLine();
    PressureLine();
    HypertensionUnbroken();
    HypertensionLine();
    WordBeforeCodeLine();
    var ma, mb := CodeLine(FibromyalgiaText).value, CodeLine(HypertensionText).value;
    ExtractOfFifteen(HeadingText, "", FirstEntryText, ImprovingText, LyricaText, StretchingText, MonitorText,
                     FibromyalgiaText, SecondEntryText, StableText, AmlodipineText, AdherenceText, PressureText,
                     HypertensionText, WordBeforeCodeText, ma, mb);
  }

  /** A line without a line break that fails the pattern. */
  ghost predicate Miss(line: string) {
    '\n' !in line && CodeLine(line).None?
  }

  /** A line without a line break whose match is `m`. */
  ghost predicate Hit(line: string, m: string) {
    '\n' !in line && CodeLine(line) == Some(m)
  }

  /** Lines of which exactly two match, and none holds a line break, give
      the codes of those two. */
  lemma ExtractOfTwoHits(lines: seq<string>, a: nat, b: nat, ma: string, mb: string)
    requires a < b < |lines| && Hit(lines[a], ma) && Hit(lines[b], mb)
    requires forall k :: 0 <= k < |lines| && k != a && k != b ==> Miss(lines[k])
    ensures ExtractCodesOf(Join(lines, "\n")) == Codes([CleanCode(ma), CleanCode(mb)])
  {
    assert forall k :: 0 <= k < |lines| ==> '\n' !in lines[k];
    SplitJoin(lines, '\n');
    ScanOfTwoHits(lines, CodeLine, a, b, ma, mb);
  }

  /** Fifteen lines shaped as those of `text1`, of which the eighth and the
      fourteenth match, give the codes of those two. */
  lemma ExtractOfFifteen(l0: string, l1: string, l2: string, l3: string, l4: string, l5: string, l6: string,
                         l7: string, l8: string, l9: string, l10: string, l11: string, l12: string, l13: string,
                         l14: string, ma: string, mb: string)
    requires Miss(l0) && Miss(l1) && Miss(l2) && Miss(l3) && Miss(l4) && Miss(l5) && Miss(l6)
    requires Hit(l7, ma)
    requires Miss(l8) && Miss(l9) && Miss(l10) && Miss(l11) && Miss(l12)
    requires Hit(l13, mb)
    requires Miss(l14)
    ensures ExtractCodesOf(Join([l0, l1, l2, l3, l4, l5, l6, l7, l8, l9, l10, l11, l12, l13, l14], "\n")) ==
      Codes([CleanCode(ma), CleanCode(mb)])
  {
    var lines := [l0, l1, l2, l3, l4, l5, l6, l7, l8, l9, l10, l11, l12, l13, l14];
    assert forall k :: 0 <= k < |lines| && k != 7 && k != 13 ==> Miss(lines[k]);
    assert Hit(lines[7], ma) && Hit(lines[13], mb);
    ExtractOfTwoHits(lines, 7, 13, ma, mb);
  }

  lemma FibromyalgiaUnbroken()
    ensures '\n' !in FibromyalgiaText
  {
  }

  lemma HypertensionUnbroken()
    ensures '\n' !in HypertensionText
  {
  }

  /** The lines of `text1` that fail the pattern, one by one. */
  lemma HeadingLine()
    ensures '\n' !in HeadingText && CodeLine(HeadingText).None?
  {
    WordFirst(HeadingText, 10);
  }

  lemma FirstEntryLine()
    ensures '\n' !in FirstEntryText && CodeLine(FirstEntryText).None?
  {
    NoLetterFirst(FirstEntryText);
  }

  lemma ImprovingLine()
    ensures '\n' !in ImprovingText && CodeLine(ImprovingText).None?
  {
    WordFirst(ImprovingText, 9);
  }

  lemma LyricaLine()
    ensures '\n' !in LyricaText && CodeLine(LyricaText).None?
  {
    WordFirst(LyricaText, 8);
  }

  lemma StretchingLine()
    ensures '\n' !in StretchingText && CodeLine(StretchingText).None?
  {
    WordFirst(StretchingText, 9);
  }

  lemma MonitorLine()
    ensures '\n' !in MonitorText && CodeLine(MonitorText).None?
  {
    WordFirst(MonitorText, 7);
  }

  lemma SecondEntryLine()
    ensures '\n' !in SecondEntryText && CodeLine(SecondEntryText).None?
  {
    NumberedHeadingRejected();
  }

  lemma StableLine()
    ensures '\n' !in StableText && CodeLine(StableText).None?
  {
    WordFirst(StableText, 6);
  }

  lemma AmlodipineLine()
    ensures '\n' !in AmlodipineText && CodeLine(AmlodipineText).None?
  {
    WordFirst(AmlodipineText, 8);
  }

  lemma AdherenceLine()
    ensures '\n' !in AdherenceText && CodeLine(AdherenceText).None?
  {
    AdherenceUnbroken();
    WordFirst(AdherenceText, 9);
  }

  lemma AdherenceUnbroken()
    ensures '\n' !in AdherenceText
  {
  }

  lemma PressureLine()
    ensures '\n' !in PressureText && CodeLine(PressureText).None?
  {
    WordFirst(PressureText, 2);
  }

  lemma WordBeforeCodeLine()
    ensures '\n' !in WordBeforeCodeText && CodeLine(WordBeforeCodeText).None?
  {
    WordBeforeCodeRejected();
  }

  /** A line opening with a word that is not followed by a digit fails. */
  lemma WordFirst(line: string, n: nat)
    requires 0 < n <= |line|
    requires forall j :: 0 <= j < n ==> IsLetter(line[j])
    requires n < |line| ==> !IsLetter(line[n]) && !IsDigit(line[n])
    ensures CodeLine(line).None?
  {
    SpacesEndAt(line, 0, 0);
    LettersEndAt(line, 0, n);
    DigitsEndAt(line, n, n);
  }

  /** A line that is empty or opens with neither white space nor a letter
      fails. */
  lemma NoLetterFirst(line: string)
    requires line != [] ==> !IsSpace(line[0]) && !IsLetter(line[0])
    ensures CodeLine(line).None?
  {
    SpacesEndAt(line, 0, 0);
    LettersEndAt(line, 0, 0);
  }

  /** The two coded lines give "M797" and "I10"; "Essential E10:" is
      rejected, a word standing before the code; a numbered heading yields
      nothing. */
  lemma FibromyalgiaLine()
    ensures CodeLine(FibromyalgiaText).Some?
    ensures CleanCode(CodeLine(FibromyalgiaText).value) == "M797"
  {
    var code, frac := "M79", "7";
    assert code[1..] == ['7', '9'];
    assert code + frac == "M797";
    assert FibromyalgiaText == code + "." + frac + FibromyalgiaRest;
    DottedLabel(FibromyalgiaText, code, frac, FibromyalgiaRest);
  }

  lemma HypertensionLine()
    ensures CodeLine(HypertensionText).Some?
    ensures CleanCode(CodeLine(HypertensionText).value) == "I10"
  {
    var code := "I10";
    assert code[1..] == ['1', '0'];
    PlainLabel(HypertensionText, code, HypertensionRest);
  }

  lemma WordBeforeCodeRejected()
    ensures CodeLine(WordBeforeCodeText).None?
  {
    WordFirst(WordBeforeCodeText, 9);
  }

  lemma NumberedHeadingRejected()
    ensures CodeLine(SecondEntryText).None?
  {
    var line := SecondEntryText;
    SpacesEndAt(line, 0, 8);
    LettersEndAt(line, 8, 8);
  }
}

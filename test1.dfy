/** `extract_code` of test1.py: every line contributes the leftmost match of
    `[A-Z]\d+\.?(\d+)?` found anywhere in it. The pattern is the looser code
    shape of `CodeShapes.LooseCodeAt` (`(\d+)?` and `\d*` accept the same
    runs, and every part is greedy over a class disjoint from the next). */
module Test1 {
  import opened Wrappers
  import opened Text
  import opened Lists
  import opened CodeShapes
  import opened LineScan

  /** The pattern matches at index `i` of `line`. */
  function StartsCode(line: string): nat -> bool {
    (i: nat) => i <= |line| && LooseCodeAt(line, i).Some?
  }

  /** `re.search(pattern, line).group(0)`: the match at the leftmost index
      where one starts. */
  function CodeSearch(line: string): (r: Option<string>)
    ensures r.Some? ==> IsLooseCode(r.value)
  {
    match FirstWhere(StartsCode(line), 0, |line| + 1)
    case None => None
    case Some(i) =>
      assert StartsCode(line)(i);
      LooseCodeSlice(line, i);
      Some(line[i..LooseCodeAt(line, i).value])
  }

  /** The codes of `extract_code(text)`, or its error string. */
  function ExtractCodeOf(text: string): ScanResult {
    Result(Scan(Split(text, '\n'), CodeSearch))
  }

  method ExtractCode(text: string) returns (r: ScanResult)
    ensures r == ExtractCodeOf(text)
  {
    var lines := Split(text, '\n');
    var codes: seq<string> := [];
    var i := 0;
    while i < |lines|
      invariant 0 <= i <= |lines|
      invariant codes == Scan(lines[..i], CodeSearch)
    {
      ScanStep(lines, i, CodeSearch);
      var m := CodeSearch(lines[i]);
      if m.Some? {
        var c := RemoveChar(m.value, ':');
        c := RemoveChar(c, '.');
        codes := codes + [Strip(c)];
      }
      i := i + 1;
    }
    assert lines[..|lines|] == lines;
    if codes != [] {
      return Codes(codes);
    }
    return Error(NoCodesFound);
  }

  /** A search finds nothing exactly when the pattern matches nowhere, and
      what it finds is the match at the first index where one starts. */
  lemma CodeSearchMeaning(line: string)
    ensures CodeSearch(line).None? <==> forall i :: 0 <= i <= |line| ==> LooseCodeAt(line, i).None?
    ensures CodeSearch(line).Some? ==>
      exists i :: 0 <= i <= |line| && LooseCodeAt(line, i).Some? &&
        CodeSearch(line).value == line[i..LooseCodeAt(line, i).value] &&
        (forall j :: 0 <= j < i ==> LooseCodeAt(line, j).None?)
  {
    var p := StartsCode(line);
    assert forall j: nat :: p(j) == (j <= |line| && LooseCodeAt(line, j).Some?);
    match FirstWhere(p, 0, |line| + 1)
    case None =>
    case Some(i) =>
      assert CodeSearch(line).value == line[i..LooseCodeAt(line, i).value];
  }

  /** An upper-case letter followed by digits only. */
  predicate IsUpperDigits(c: string) {
    2 <= |c| && IsUpper(c[0]) && forall k :: 1 <= k < |c| ==> IsDigit(c[k])
  }

  /** A matched code holds no ':' and no white space, so cleaning it only
      drops its '.': what is left is a letter and digits. */
  lemma CleanLooseCode(m: string)
    requires IsLooseCode(m)
    ensures CleanCode(m) == RemoveChar(m, '.')
    ensures IsUpperDigits(CleanCode(m))
  {
    var d := DigitsEnd(m, 1);
    LooseCodeNoColon(m);
    assert RemoveChar(m, ':') == m;
    var c := RemoveChar(m, '.');
    if d < |m| && m[d] == '.' {
      DottedCodeDigits(m, d);
    } else {
      assert c == m;
    }
    assert IsUpperDigits(c);
    StripOfTrimmed(c);
  }

  /** A matched code holds no ':'. */
  lemma LooseCodeNoColon(m: string)
    requires IsLooseCode(m)
    ensures ':' !in m
  {
    var d := DigitsEnd(m, 1);
    forall k | 0 <= k < |m| ensures m[k] != ':' {
      if k >= 1 && k < d { assert IsDigit(m[k]); }
      else if k > d { assert DigitsEnd(m, d + 1) == |m|; assert IsDigit(m[k]); }
    }
  }

  /** Dropping the '.' of a dotted code leaves its letter and digits. */
  lemma DottedCodeDigits(m: string, d: nat)
    requires IsLooseCode(m) && d == DigitsEnd(m, 1) && d < |m| && m[d] == '.'
    ensures IsUpperDigits(RemoveChar(m, '.'))
  {
    var head, tail := m[..d], m[d + 1..];
    assert m == head + [m[d]] + tail;
    assert '.' !in head;
    assert AllDigits(tail) by {
      assert DigitsEnd(m, d + 1) == |m|;
    }
    DropMiddle(head, tail, '.');
    assert IsUpperDigits(head);
    UpperDigitsThenDigits(head, tail);
  }

  /** A letter and digits followed by more digits is a letter and digits. */
  lemma UpperDigitsThenDigits(head: string, tail: string)
    requires IsUpperDigits(head) && AllDigits(tail)
    ensures IsUpperDigits(head + tail)
  {
    var c := head + tail;
    forall k | 1 <= k < |c| ensures IsDigit(c[k]) {
      if k < |head| { assert c[k] == head[k]; } else { assert c[k] == tail[k - |head|]; }
    }
  }

  /** The pattern matches in none of the lines. */
  ghost predicate NoLineMatches(lines: seq<string>) {
    forall k :: 0 <= k < |lines| ==> CodeSearch(lines[k]).None?
  }

  /** `c` is the match of one of the lines with its '.' dropped. */
  ghost predicate FromSomeLine(lines: seq<string>, c: string) {
    exists k :: 0 <= k < |lines| && CodeSearch(lines[k]).Some? && c == RemoveChar(CodeSearch(lines[k]).value, '.')
  }

  /** Every code `extract_code` returns is a letter and digits, the match of
      some line with its '.' dropped; it returns the error string exactly
      when no line holds a match. */
  lemma ExtractCodeMeaning(text: string)
    ensures ExtractCodeOf(text).Error? <==> NoLineMatches(Split(text, '\n'))
    ensures ExtractCodeOf(text).Codes? ==>
      forall c :: c in ExtractCodeOf(text).codes ==> IsUpperDigits(c) && FromSomeLine(Split(text, '\n'), c)
  {
    var lines := Split(text, '\n');
    ScanCodes(lines);
    assert ExtractCodeOf(text) == Result(Scan(lines, CodeSearch));
  }

  lemma ScanCodes(lines: seq<string>)
    ensures Result(Scan(lines, CodeSearch)).Error? <==> NoLineMatches(lines)
    ensures forall c :: c in Scan(lines, CodeSearch) ==> IsUpperDigits(c) && FromSomeLine(lines, c)
  {
    ScanMeaning(lines, CodeSearch);
    forall c | c in Scan(lines, CodeSearch)
      ensures IsUpperDigits(c) && FromSomeLine(lines, c)
    {
      var k :| 0 <= k < |lines| && CodeSearch(lines[k]).Some? && c == CleanCode(CodeSearch(lines[k]).value);
      CleanLooseCode(CodeSearch(lines[k]).value);
    }
  }

  /** The sample text of lines 6-10 and its three lines. */
  const SpoLine := "SPO2-98%"
  const CopdLine := "J44.9: Chronic"
  const PlaceholderLine := "X79XXXA"
  const Sample := "\n" + SpoLine + "\n" + CopdLine + "\n" + PlaceholderLine + "\n"

  /** The match need not start the line: in "SPO2-98%" neither 'S' nor 'P'
      is followed by a digit, so the code is "O2". */
  lemma SpoLineCode()
    ensures CodeSearch(SpoLine) == Some("O2")
    ensures CleanCode("O2") == "O2"
  {
    var line := SpoLine;
    var p := StartsCode(line);
    DigitsEndAt(line, 1, 1);
    DigitsEndAt(line, 2, 2);
    DigitsEndAt(line, 3, 4);
    assert !p(0) && !p(1) && p(2);
    assert FirstWhere(p, 0, |line| + 1) == Some(2);
    assert LooseCodeAt(line, 2) == Some(4);
    assert line[2..4] == "O2";
    CleanLooseCode("O2");
  }

  /** "J44.9: Chronic" gives "J44.9", cleaned to "J449". */
  lemma CopdLineCode()
    ensures CodeSearch(CopdLine) == Some("J44.9")
    ensures CleanCode("J44.9") == "J449"
  {
    CopdLineSearch();
    CopdClean();
  }

  lemma CopdLineSearch()
    ensures CodeSearch(CopdLine) == Some("J44.9")
  {
    var line := CopdLine;
    var p := StartsCode(line);
    DigitsEndAt(line, 1, 3);
    DigitsEndAt(line, 4, 5);
    assert p(0);
    assert FirstWhere(p, 0, |line| + 1) == Some(0);
    assert LooseCodeAt(line, 0) == Some(5);
    assert line[0..5] == "J44.9";
  }

  lemma CopdClean()
    ensures CleanCode("J44.9") == "J449"
  {
    assert "J44" + ['.'] + "9" == "J44.9";
    CleanDotted("J44", "9");
  }

  /** The match stops at the first letter after the digits: "X79XXXA"
      gives "X79". */
  lemma PlaceholderLineCode()
    ensures CodeSearch(PlaceholderLine) == Some("X79")
    ensures CleanCode("X79") == "X79"
  {
    var line := PlaceholderLine;
    var p := StartsCode(line);
    DigitsEndAt(line, 1, 3);
    assert p(0);
    assert FirstWhere(p, 0, |line| + 1) == Some(0);
    assert LooseCodeAt(line, 0) == Some(3);
    assert line[0..3] == "X79";
    CleanLooseCode("X79");
  }

  lemma EmptyLineCode()
    ensures CodeSearch("") == None
  {
    var p := StartsCode("");
    assert !p(0);
    assert FirstWhere(p, 0, 1) == None;
  }

  /** Three lines between an empty first and an empty last line split into
      five. */
  lemma SplitOfFive(a: string, b: string, c: string)
    requires '\n' !in a && '\n' !in b && '\n' !in c
    ensures Split("\n" + a + "\n" + b + "\n" + c + "\n", '\n') == ["", a, b, c, ""]
  {
    var parts := ["", a, b, c, ""];
    JoinOfFive(a, b, c);
    assert forall k :: 0 <= k < |parts| ==> '\n' !in parts[k];
    SplitJoin(parts, '\n');
  }

  lemma JoinOfFive(a: string, b: string, c: string)
    ensures Join(["", a, b, c, ""], "\n") == "\n" + a + "\n" + b + "\n" + c + "\n"
  {
    var parts := ["", a, b, c, ""];
    var nl := "\n";
    JoinCons(c, [""], nl);
    assert [c] + [""] == parts[3..];
    JoinCons(b, parts[3..], nl);
    assert [b] + parts[3..] == parts[2..];
    JoinCons(a, parts[2..], nl);
    assert [a] + parts[2..] == parts[1..];
    JoinCons("", parts[1..], nl);
    assert [""] + parts[1..] == parts;
  }

  /** `extract_code` of the sample returns the three codes, in line order. */
  lemma SampleCodes()
    ensures ExtractCodeOf(Sample) == Codes(["O2", "J449", "X79"])
  {
    SpoLineCode();
    CopdLineCode();
    PlaceholderLineCode();
    EmptyLineCode();
    SampleLinesUnbroken();
    ExtractOfThree(Sample, SpoLine, CopdLine, PlaceholderLine, "O2", "J44.9", "X79", "O2", "J449", "X79");
  }

  /** None of the three sample lines holds a line break. */
  lemma SampleLinesUnbroken()
    ensures '\n' !in SpoLine && '\n' !in CopdLine && '\n' !in PlaceholderLine
  {
    assert SpoLine == ['S', 'P', 'O', '2', '-', '9', '8', '%'];
  }

  /** A text of three matching lines between an empty first and an empty
      last line gives the three cleaned matches. */
  lemma ExtractOfThree(text: string, a: string, b: string, c: string, ma: string, mb: string, mc: string,
                       ca: string, cb: string, cc: string)
    requires text == "\n" + a + "\n" + b + "\n" + c + "\n"
    requires '\n' !in a && '\n' !in b && '\n' !in c
    requires CodeSearch("") == None
    requires CodeSearch(a) == Some(ma) && CodeSearch(b) == Some(mb) && CodeSearch(c) == Some(mc)
    requires CleanCode(ma) == ca && CleanCode(mb) == cb && CleanCode(mc) == cc
    ensures ExtractCodeOf(text) == Codes([ca, cb, cc])
  {
    SplitOfFive(a, b, c);
    ScanOfThree(a, b, c, ma, mb, mc);
  }

  /** Three matching lines between two empty lines scan to the three
      cleaned matches. */
  lemma ScanOfThree(a: string, b: string, c: string, ma: string, mb: string, mc: string)
    requires CodeSearch("") == None
    requires CodeSearch(a) == Some(ma) && CodeSearch(b) == Some(mb) && CodeSearch(c) == Some(mc)
    ensures Scan(["", a, b, c, ""], CodeSearch) == [CleanCode(ma), CleanCode(mb), CleanCode(mc)]
  {
    var lines := ["", a, b, c, ""];
    assert lines[0] == "" && lines[1] == a && lines[2] == b && lines[3] == c && lines[4] == "";
    ScanOfFive(CodeSearch, lines, ma, mb, mc);
  }

  /** The scan of five lines of which the middle three match. */
  lemma ScanOfFive(matcher: string -> Option<string>, lines: seq<string>, m1: string, m2: string, m3: string)
    requires |lines| == 5
    requires matcher(lines[0]) == None
    requires matcher(lines[4]) == None
    requires matcher(lines[1]) == Some(m1)
    requires matcher(lines[2]) == Some(m2)
    requires matcher(lines[3]) == Some(m3)
    ensures Scan(lines, matcher) == [CleanCode(m1), CleanCode(m2), CleanCode(m3)]
  {
    var c1, c2, c3 := CleanCode(m1), CleanCode(m2), CleanCode(m3);
    assert lines[..0] == [];
    ScanMiss(lines, 0, matcher, []);
    ScanHit(lines, 1, matcher, [], m1);
    ScanHit(lines, 2, matcher, [c1], m2);
    ScanHit(lines, 3, matcher, [c1, c2], m3);
    ScanMiss(lines, 4, matcher, [c1, c2, c3]);
    assert lines[..5] == lines;
  }
}
